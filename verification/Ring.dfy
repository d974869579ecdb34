/**
 A ring of persistent channels. Each rank sends to its successor and receives from its
 predecessor, any number of send/receive pairs per channel, for any number of start/wait cycles.
 Section 3.9 of MPI 3.1 lets a start call begin its requests in any order.
 */
module Ring {
  import opened MixedRadix
  import opened Network
  import opened Pigeonhole

  /** pairs: how many sends, and how many receives, each channel has registered. */
  datatype Config = Config(ranks: nat, pairs: nat, tag: int, sync: bool, inOrder: bool, init: seq<seq<seq<int>>>)

  ghost predicate ValidConfig(c: Config) {
    && c.ranks >= 1 && c.pairs >= 1 && |c.init| == c.ranks
    && forall r :: 0 <= r < c.ranks ==> |c.init[r]| == c.pairs
  }

  function Succ(c: Config, r: nat): nat {
    if r + 1 < c.ranks then r + 1 else 0
  }

  function Pred(c: Config, r: nat): nat {
    if r == 0 then if c.ranks == 0 then 0 else c.ranks - 1 else r - 1
  }

  /** The ring neighbours are those the modular formulas of a rank program compute. */
  lemma RingNeighbours(c: Config, r: nat)
    requires r < c.ranks
    ensures Succ(c, r) == (r + 1) % c.ranks && Pred(c, r) == (r + c.ranks - 1) % c.ranks
    ensures Succ(c, Pred(c, r)) == r && Pred(c, Succ(c, r)) == r
  {
    if r + 1 == c.ranks { DivMod(c.ranks, 1, 0); } else { DivMod(c.ranks, 0, r + 1); }
    if r == 0 { DivMod(c.ranks, 0, c.ranks - 1); } else { DivMod(c.ranks, 1, r - 1); }
  }

  /** Which registered request of which cycle an operation is, and its place in its stream. */
  datatype Mark = Mark(cycle: nat, slot: nat, pos: nat)

  /**
   A rank: how many cycles it has started, whether it is between start and wait, which requests
   the current start has yet to begin, its buffers, and (history) its send buffers at each start.
   */
  datatype Peer = Peer(
    cycle: nat, active: bool, toSend: set<nat>, toRecv: set<nat>,
    sendBuf: seq<seq<int>>, recvBuf: seq<seq<int>>, sent: seq<seq<seq<int>>>)

  /** got: the data each completed receive was given. */
  datatype State = State(net: Net, peers: seq<Peer>, marks: map<OpId, Mark>, got: map<OpId, seq<int>>)

  datatype Step =
    | WriteBuffer(r: nat, k: nat, data: seq<int>)
    | Start(r: nat)
    | BeginSend(r: nat, k: nat)
    | BeginRecv(r: nat, k: nat)
    | InjectSend(id: OpId)
    | MatchHeads(s: Stream)
    | SendDone(id: OpId)
    | RecvDone(s: Stream, j: nat)
    | WaitReturns(r: nat)

  function Out(c: Config, r: nat): Stream {
    Stream(r, Succ(c, r), c.tag)
  }

  function In(c: Config, r: nat): Stream {
    Stream(Pred(c, r), r, c.tag)
  }

  function IdlePeer(bufs: seq<seq<int>>): Peer {
    Peer(0, false, {}, {}, bufs, bufs, [])
  }

  function IdlePeers(init: seq<seq<seq<int>>>): (r: seq<Peer>)
    ensures |r| == |init| && forall q :: 0 <= q < |r| ==> r[q] == IdlePeer(init[q])
  {
    if init == [] then [] else [IdlePeer(init[0])] + IdlePeers(init[1..])
  }

  function Init(c: Config): State {
    State(Empty(c.ranks), IdlePeers(c.init), map[], map[])
  }

  /** An ordered start begins its requests in registration order. */
  predicate MayBegin(c: Config, todo: set<nat>, k: nat) {
    k in todo && (c.inOrder ==> forall l :: l in todo ==> k <= l)
  }

  ghost predicate Enabled(c: Config, s: State, st: Step) {
    match st
    case WriteBuffer(r, k, data) => r < |s.peers| && !s.peers[r].active && k < |s.peers[r].sendBuf|
    case Start(r) => r < |s.peers| && !s.peers[r].active
    case BeginSend(r, k) => r < |s.peers| && r < |s.net.log| && s.peers[r].active && MayBegin(c, s.peers[r].toSend, k)
    case BeginRecv(r, k) => r < |s.peers| && r < |s.net.log| && s.peers[r].active && MayBegin(c, s.peers[r].toRecv, k)
    case InjectSend(id) => CanInject(s.net, id)
    case MatchHeads(t) => CanMatch(s.net, t)
    case SendDone(id) => CanCompleteSend(s.net, id, c.sync)
    case RecvDone(t, j) => CanCompleteRecv(s.net, t, j)
    case WaitReturns(r) =>
      && r < |s.peers| && r < |s.net.log| && s.peers[r].active
      && s.peers[r].toSend == {} && s.peers[r].toRecv == {}
      && forall k :: 0 <= k < |s.net.log[r]| ==> OpId(r, k) in s.net.done
  }

  function SetPeer(s: State, r: nat, p: Peer): State {
    if r < |s.peers| then s.(peers := s.peers[r := p]) else s
  }

  function Starting(c: Config, p: Peer): Peer {
    p.(cycle := p.cycle + 1, active := true, toSend := Range(c.pairs), toRecv := Range(c.pairs),
       sent := p.sent + [p.sendBuf])
  }

  function BeginningSend(c: Config, s: State, r: nat, k: nat): State
    requires r < |s.peers| && r < |s.net.log|
  {
    var p, id := s.peers[r], OpId(r, |s.net.log[r]|);
    var mark := Mark(if p.cycle == 0 then 0 else p.cycle - 1, k, |SendsOn(s.net, Out(c, r))|);
    State(Post(s.net, r, Send(Succ(c, r), c.tag)), s.peers[r := p.(toSend := p.toSend - {k})],
          s.marks[id := mark], s.got)
  }

  function BeginningRecv(c: Config, s: State, r: nat, k: nat): State
    requires r < |s.peers| && r < |s.net.log|
  {
    var p, id := s.peers[r], OpId(r, |s.net.log[r]|);
    var mark := Mark(if p.cycle == 0 then 0 else p.cycle - 1, k, |RecvsOn(s.net, In(c, r))|);
    State(Post(s.net, r, Recv(Pred(c, r), c.tag)), s.peers[r := p.(toRecv := p.toRecv - {k})],
          s.marks[id := mark], s.got)
  }

  /** What a send reads from its rank's buffer now. */
  function Reading(s: State, id: OpId): seq<int> {
    if id in s.marks && id.rank < |s.peers| && s.marks[id].slot < |s.peers[id.rank].sendBuf|
    then s.peers[id.rank].sendBuf[s.marks[id].slot]
    else []
  }

  function Receiving(s: State, b: OpId, data: seq<int>): State {
    var s' := s.(net := Complete(s.net, b), got := s.got[b := data]);
    if b in s.marks && b.rank < |s.peers| && s.marks[b].slot < |s.peers[b.rank].recvBuf|
    then
      var p := s.peers[b.rank];
      s'.(peers := s.peers[b.rank := p.(recvBuf := p.recvBuf[s.marks[b].slot := data])])
    else s'
  }

  ghost function Apply(c: Config, s: State, st: Step): State
    requires Enabled(c, s, st)
  {
    match st
    case WriteBuffer(r, k, data) => SetPeer(s, r, s.peers[r].(sendBuf := s.peers[r].sendBuf[k := data]))
    case Start(r) => SetPeer(s, r, Starting(c, s.peers[r]))
    case BeginSend(r, k) => BeginningSend(c, s, r, k)
    case BeginRecv(r, k) => BeginningRecv(c, s, r, k)
    case InjectSend(id) => s.(net := Inject(s.net, id, Reading(s, id)))
    case MatchHeads(t) => s.(net := Match(s.net, t))
    case SendDone(id) => s.(net := Complete(s.net, id))
    case RecvDone(t, j) => Receiving(s, s.net.recvm[t][j], s.net.wire[s.net.sentm[t][j]])
    case WaitReturns(r) => SetPeer(s, r, s.peers[r].(active := false))
  }

  /** A run of the ring: any number of enabled steps, in any order, from the start. */
  ghost predicate Reaches(c: Config, steps: seq<Step>, s: State)
    requires ValidConfig(c)
    decreases |steps|
  {
    if steps == [] then s == Init(c)
    else
      var front, last := steps[..|steps| - 1], steps[|steps| - 1];
      exists p :: Reaches(c, front, p) && Enabled(c, p, last) && s == Apply(c, p, last)
  }

  // ---------------------------------------------------------------- the posting record of one stream

  /** In cycle x, positions x * n up to (x + 1) * n of a stream are posted. */
  predicate InCycle(n: nat, pos: nat, cycle: nat) {
    n * cycle <= pos < n * cycle + n
  }

  lemma SameCycle(n: nat, pos: nat, x: nat, y: nat)
    requires InCycle(n, pos, x) && InCycle(n, pos, y)
    ensures x == y
  {
    if x < y { MulStep(n, x, y); assert false; }
    if y < x { MulStep(n, y, x); assert false; }
  }

  /** One side of a channel has run `cycle` starts, of whose last the slots in todo are yet to begin. */
  ghost predicate LineOk(n: nat, inOrder: bool, cycle: nat, todo: set<nat>, ids: seq<OpId>, marks: map<OpId, Mark>) {
    && todo <= Range(n) && |ids| + |todo| == n * cycle
    && (forall j {:trigger ids[j]} :: 0 <= j < |ids| ==>
          && ids[j] in marks && marks[ids[j]].pos == j && marks[ids[j]].slot < n
          && marks[ids[j]].cycle < cycle && InCycle(n, j, marks[ids[j]].cycle)
          && (marks[ids[j]].cycle == cycle - 1 ==> marks[ids[j]].slot !in todo)
          && (inOrder ==> j == n * marks[ids[j]].cycle + marks[ids[j]].slot))
    && (forall i, j {:trigger ids[i], ids[j]} :: 0 <= i < j < |ids| && marks[ids[i]].cycle == marks[ids[j]].cycle ==>
          marks[ids[i]].slot != marks[ids[j]].slot)
    && (inOrder ==> forall k {:trigger k in todo} :: k in todo <==> n - |todo| <= k < n)
  }

  lemma LineStart(n: nat, inOrder: bool, cycle: nat, ids: seq<OpId>, marks: map<OpId, Mark>)
    requires LineOk(n, inOrder, cycle, {}, ids, marks)
    ensures LineOk(n, inOrder, cycle + 1, Range(n), ids, marks)
  {
    RangeCard(n);
    assert n * (cycle + 1) == n * cycle + n;
  }

  lemma LinePosition(n: nat, cycle: nat, todo: set<nat>, len: nat)
    requires todo <= Range(n) && todo != {} && len + |todo| == n * cycle
    ensures cycle > 0 && InCycle(n, len, cycle - 1) && len == n * (cycle - 1) + (n - |todo|)
  {
    RangeCard(n);
    SubsetCard(todo, Range(n));
    if cycle == 0 { assert false; }
    assert n * cycle == n * (cycle - 1) + n;
  }

  lemma LinePost(n: nat, inOrder: bool, cycle: nat, todo: set<nat>, ids: seq<OpId>, marks: map<OpId, Mark>,
                 id: OpId, k: nat)
    requires LineOk(n, inOrder, cycle, todo, ids, marks) && cycle > 0 && id !in ids && k in todo
    requires inOrder ==> forall l :: l in todo ==> k <= l
    ensures LineOk(n, inOrder, cycle, todo - {k}, ids + [id], marks[id := Mark(cycle - 1, k, |ids|)])
  {
    LinePosition(n, cycle, todo, |ids|);
    var todo', ids', marks' := todo - {k}, ids + [id], marks[id := Mark(cycle - 1, k, |ids|)];
    assert k in Range(n);
    if inOrder {
      assert n - |todo| in todo;
      assert k == n - |todo|;
    }
    forall j | 0 <= j < |ids| ensures ids'[j] == ids[j] && marks'[ids[j]] == marks[ids[j]] {
      assert ids[j] in ids;
    }
  }

  /** Marks of operations of other streams do not matter. */
  lemma LineFrame(n: nat, inOrder: bool, cycle: nat, todo: set<nat>, ids: seq<OpId>, marks: map<OpId, Mark>,
                  id: OpId, mark: Mark)
    requires LineOk(n, inOrder, cycle, todo, ids, marks) && id !in ids
    ensures LineOk(n, inOrder, cycle, todo, ids, marks[id := mark])
  {
    forall j | 0 <= j < |ids| ensures marks[id := mark][ids[j]] == marks[ids[j]] {
      assert ids[j] in ids;
    }
  }
}
