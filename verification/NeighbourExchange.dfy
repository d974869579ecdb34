/**
 A neighbour exchange as runs of the message network. Each rank posts one send and one receive
 per slot, sends first, all under one tag; it then waits for all of them and unpacks its strided
 receive views. Slot k of rank r is sent to dest[k][r] and filled from source[k][r].
 */
module NeighbourExchange {
  import opened MixedRadix
  import opened StridedView
  import opened Network

  const TAG := 17

  /**
   sendRaw, recvRaw and start are derived: which views are contiguous, and what rank r's slot k
   puts on the wire at the start (start[k][r]).
   */
  datatype Config = Config(
    send: seq<View>, recv: seq<View>, sendRaw: seq<bool>, recvRaw: seq<bool>,
    dest: seq<seq<nat>>, source: seq<seq<nat>>,
    layout: Layout, sync: bool, total: nat, init: seq<seq<int>>, start: seq<seq<seq<int>>>)

  function Ranks(c: Config): nat {
    |c.init|
  }

  function Slots(c: Config): nat {
    |c.send|
  }

  /** No element of v is an element of w. */
  ghost predicate Apart(v: View, w: View) {
    && Valid(v) && Valid(w)
    && forall i, j | InBounds(v.extents, i) && InBounds(w.extents, j) :: Addr(v, i) != Addr(w, j)
  }

  function Dest(c: Config, k: nat, r: nat): nat {
    if k < |c.dest| && r < |c.dest[k]| then c.dest[k][r] else 0
  }

  function Source(c: Config, k: nat, r: nat): nat {
    if k < |c.source| && r < |c.source[k]| then c.source[k][r] else 0
  }

  /** Slot k is sent and filled along mutually inverse neighbour maps. */
  ghost predicate ValidRoute(c: Config, k: nat, r: nat) {
    && Dest(c, k, r) < Ranks(c) && Source(c, k, r) < Ranks(c)
    && Source(c, k, Dest(c, k, r)) == r && Dest(c, k, Source(c, k, r)) == r
  }

  ghost predicate ValidViews(c: Config, k: nat) {
    && k < |c.send| && k < |c.recv|
    && Fits(c.send[k], c.total) && Injective(c.send[k])
    && Fits(c.recv[k], c.total) && Injective(c.recv[k])
    && c.send[k].extents == c.recv[k].extents
    && SameWireOrder(c.send[k], c.layout, c.recv[k], c.layout)
    && SendRaw(c, k) == Contiguous(c.send[k]) && RecvRaw(c, k) == Contiguous(c.recv[k])
  }

  predicate SendRaw(c: Config, k: nat) {
    k < |c.sendRaw| && c.sendRaw[k]
  }

  predicate RecvRaw(c: Config, k: nat) {
    k < |c.recvRaw| && c.recvRaw[k]
  }

  function Start(c: Config, k: nat, r: nat): seq<int> {
    if k < |c.start| && r < |c.start[k]| then c.start[k][r] else []
  }

  ghost predicate ValidStart(c: Config, k: nat, r: nat) {
    r < |c.init| && Start(c, k, r) == Read(c, c.init[r], k)
  }

  ghost predicate ValidConfig(c: Config) {
    && |c.recv| == |c.dest| == |c.source| == Slots(c)
    && (forall r :: 0 <= r < Ranks(c) ==> |c.init[r]| == c.total)
    && (forall k, r :: 0 <= k < Slots(c) && 0 <= r < Ranks(c) ==>
          ValidRoute(c, k, r) && ValidStart(c, k, r))
    && (forall k :: 0 <= k < Slots(c) ==> ValidViews(c, k))
    && (forall k, l {:trigger Apart(c.recv[k], c.send[l])} ::
          0 <= k < Slots(c) && 0 <= l < Slots(c) ==> Apart(c.recv[k], c.send[l]))
    && (forall k, l {:trigger Apart(c.recv[k], c.recv[l])} ::
          0 <= k < Slots(c) && 0 <= l < Slots(c) && k != l ==> Apart(c.recv[k], c.recv[l]))
  }

  /** The k-th operation a rank posts: its requests are pushed sends first, then receives. */
  function OpAt(c: Config, r: nat, k: nat): Op {
    if k < Slots(c) then Send(Dest(c, k, r), TAG) else Recv(Source(c, k - Slots(c), r), TAG)
  }

  function Program(c: Config, r: nat): (ops: seq<Op>)
    ensures |ops| == 2 * Slots(c)
    ensures forall k :: 0 <= k < |ops| ==> ops[k] == OpAt(c, r, k)
  {
    seq(2 * Slots(c), k requires k >= 0 => OpAt(c, r, k))
  }

  /** packed: send buffers of strided sends. staged: what arrived for strided receives. */
  datatype State = State(
    net: Net,
    grids: seq<seq<int>>,
    packed: map<OpId, seq<int>>,
    staged: map<OpId, seq<int>>,
    returned: set<nat>)

  datatype Step =
    | PostNext(r: nat)
    | InjectSend(id: OpId)
    | MatchHeads(s: Stream)
    | SendDone(id: OpId)
    | RecvDone(s: Stream, j: nat)
    | WaitReturns(r: nat)

  function Init(c: Config): State {
    State(Empty(Ranks(c)), c.init, map[], map[], {})
  }

  ghost predicate AllDone(c: Config, done: set<OpId>, r: nat) {
    forall idx :: 0 <= idx < 2 * Slots(c) ==> OpId(r, idx) in done
  }

  ghost predicate Enabled(c: Config, s: State, st: Step) {
    match st
    case PostNext(r) => r < Ranks(c) && r < |s.net.log| && |s.net.log[r]| < 2 * Slots(c)
    case InjectSend(id) => CanInject(s.net, id)
    case MatchHeads(t) => CanMatch(s.net, t)
    case SendDone(id) => CanCompleteSend(s.net, id, c.sync)
    case RecvDone(t, j) => CanCompleteRecv(s.net, t, j)
    case WaitReturns(r) =>
      r < |s.net.log| && |s.net.log[r]| == 2 * Slots(c) && AllDone(c, s.net.done, r) && r !in s.returned
  }

  function GridOf(s: State, r: nat): seq<int> {
    if r < |s.grids| then s.grids[r] else []
  }

  /** What the send of slot k reads from its grid now. */
  function Read(c: Config, mem: seq<int>, k: nat): seq<int> {
    if k < |c.send| && Fits(c.send[k], |mem|) then WireOf(mem, c.send[k], c.layout) else []
  }

  /** The grid after data was received into slot k. */
  function Land(c: Config, mem: seq<int>, k: nat, data: seq<int>): seq<int> {
    if k < |c.recv| && Fits(c.recv[k], |mem|) && |data| == Size(c.recv[k])
    then Receive(mem, c.recv[k], c.layout, data)
    else mem
  }

  /** The unpacking callbacks of the first n receives, in posting order. */
  function UnpackFirst(c: Config, s: State, r: nat, n: nat): seq<int> {
    if n == 0 then GridOf(s, r)
    else
      var k := n - 1;
      var id, mem := OpId(r, Slots(c) + k), UnpackFirst(c, s, r, k);
      if !RecvRaw(c, k) && id in s.staged then Land(c, mem, k, s.staged[id]) else mem
  }

  function SetGrid(grids: seq<seq<int>>, r: nat, mem: seq<int>): seq<seq<int>> {
    if r < |grids| then grids[r := mem] else grids
  }

  function Slot(c: Config, id: OpId): nat {
    if id.idx < Slots(c) then id.idx else id.idx - Slots(c)
  }

  /** Rank r posts its next operation; a strided send packs its view at once. */
  function Posting(c: Config, s: State, r: nat): State
    requires r < |s.net.log|
  {
    var k := |s.net.log[r]|;
    var net' := Post(s.net, r, OpAt(c, r, k));
    s.(net := net',
       packed := if k < Slots(c) && !SendRaw(c, k) then s.packed[OpId(r, k) := Read(c, GridOf(s, r), k)] else s.packed)
  }

  function SendData(c: Config, s: State, id: OpId): seq<int> {
    if id in s.packed then s.packed[id] else Read(c, GridOf(s, id.rank), Slot(c, id))
  }

  /** Data arrives for receive b: in the grid itself, or in a staging buffer. */
  function Receiving(c: Config, s: State, b: OpId, data: seq<int>): State {
    var net' := Complete(s.net, b);
    var k := Slot(c, b);
    if RecvRaw(c, k)
    then s.(net := net', grids := SetGrid(s.grids, b.rank, Land(c, GridOf(s, b.rank), k, data)))
    else s.(net := net', staged := s.staged[b := data])
  }

  function Returning(c: Config, s: State, r: nat): State {
    s.(grids := SetGrid(s.grids, r, UnpackFirst(c, s, r, Slots(c))), returned := s.returned + {r})
  }

  ghost function Apply(c: Config, s: State, st: Step): State
    requires Enabled(c, s, st)
  {
    match st
    case PostNext(r) => Posting(c, s, r)
    case InjectSend(id) => s.(net := Inject(s.net, id, SendData(c, s, id)))
    case MatchHeads(t) => s.(net := Match(s.net, t))
    case SendDone(id) => s.(net := Complete(s.net, id))
    case RecvDone(t, j) => Receiving(c, s, s.net.recvm[t][j], s.net.wire[s.net.sentm[t][j]])
    case WaitReturns(r) => Returning(c, s, r)
  }

  /** A run of the exchange: any number of enabled steps, in any order, from the start. */
  ghost predicate Reaches(c: Config, steps: seq<Step>, s: State)
    decreases |steps|
  {
    if steps == [] then s == Init(c)
    else
      var front, last := steps[..|steps| - 1], steps[|steps| - 1];
      exists p :: Reaches(c, front, p) && Enabled(c, p, last) && s == Apply(c, p, last)
  }

  // ---------------------------------------------------------------- matching

  lemma SelectStep(r: nat, log: seq<Op>, send: bool, peer: nat, tag: int, n: nat)
    requires n < |log|
    ensures var front := Select(r, log[..n], send, peer, tag);
      Select(r, log[..n + 1], send, peer, tag)
        == if On(log[n], send, peer, tag) then front + [OpId(r, n)] else front
  {
    assert log[..n + 1][..n] == log[..n];
  }

  /** Entries that are of the other kind select nothing. */
  lemma {:induction false} SelectNone(r: nat, log: seq<Op>, send: bool, peer: nat, tag: int, m: nat, n: nat)
    requires m <= n <= |log|
    requires forall k :: m <= k < n ==> !On(log[k], send, peer, tag)
    ensures Select(r, log[..n], send, peer, tag) == Select(r, log[..m], send, peer, tag)
    decreases n
  {
    if m < n {
      SelectStep(r, log, send, peer, tag, n - 1);
      SelectNone(r, log, send, peer, tag, m, n - 1);
    }
  }

  /** recvs lists the slots of sends, in the same order, as receives. */
  ghost predicate Shifted(m: nat, sends: seq<OpId>, recvs: seq<OpId>) {
    |sends| == |recvs| && forall j :: 0 <= j < |sends| ==> sends[j].idx < m && recvs[j].idx == m + sends[j].idx
  }

  lemma ShiftedStep(m: nat, sends: seq<OpId>, recvs: seq<OpId>, a: OpId, b: OpId)
    requires Shifted(m, sends, recvs) && a.idx < m && b.idx == m + a.idx
    ensures Shifted(m, sends + [a], recvs + [b])
  {}

  lemma {:induction false} SlotsUpTo(m: nat, a: nat, p: seq<Op>, b: nat, q: seq<Op>, n: nat)
    requires |p| == |q| == 2 * m && n <= m
    requires forall k :: 0 <= k < m ==> !On(q[k], false, a, TAG)
    requires forall k :: 0 <= k < m ==> (On(p[k], true, b, TAG) <==> On(q[m + k], false, a, TAG))
    ensures Shifted(m, Select(a, p[..n], true, b, TAG), Select(b, q[..m + n], false, a, TAG))
    decreases n
  {
    if n == 0 {
      SelectNone(b, q, false, a, TAG, 0, m);
    } else {
      var k := n - 1;
      SlotsUpTo(m, a, p, b, q, k);
      SelectStep(a, p, true, b, TAG, k);
      SelectStep(b, q, false, a, TAG, m + k);
      ShiftedStep(m, Select(a, p[..k], true, b, TAG), Select(b, q[..m + k], false, a, TAG),
                  OpId(a, k), OpId(b, m + k));
    }
  }

  /** With one tag, the sends a posts to b and the receives b posts from a are the same slots in the same order. */
  lemma SlotsAgree(c: Config, a: nat, b: nat)
    requires ValidConfig(c) && a < Ranks(c) && b < Ranks(c)
    ensures Shifted(Slots(c), Select(a, Program(c, a), true, b, TAG), Select(b, Program(c, b), false, a, TAG))
  {
    var p, q, m := Program(c, a), Program(c, b), Slots(c);
    forall k | 0 <= k < m ensures On(p[k], true, b, TAG) <==> On(q[m + k], false, a, TAG) {
      assert ValidRoute(c, k, a) && ValidRoute(c, k, b);
    }
    SlotsUpTo(m, a, p, b, q, m);
    assert p[..2 * m] == p && q[..2 * m] == q;
    SelectNone(a, p, true, b, TAG, m, 2 * m);
  }

  // ---------------------------------------------------------------- invariant

  ghost predicate Follows(c: Config, r: nat, log: seq<Op>) {
    |log| <= 2 * Slots(c) && forall k :: 0 <= k < |log| ==> log[k] == OpAt(c, r, k)
  }

  ghost predicate LogsOk(c: Config, n: Net) {
    |n.log| == Ranks(c) && forall r :: 0 <= r < |n.log| ==> Follows(c, r, n.log[r])
  }

  /** m holds, for sends, the data their slots had at the start. */
  ghost predicate StartData(c: Config, m: map<OpId, seq<int>>) {
    forall id :: id in m ==>
      id.rank < Ranks(c) && id.idx < Slots(c) && m[id] == Start(c, id.idx, id.rank)
  }

  /** What slot k of rank r is to be filled with. */
  function Expected(c: Config, r: nat, k: nat): seq<int> {
    Start(c, k, Source(c, k, r))
  }

  ghost predicate StagedOk(c: Config, staged: map<OpId, seq<int>>, done: set<OpId>) {
    && (forall id :: id in staged ==>
          && id.rank < Ranks(c) && Slots(c) <= id.idx < 2 * Slots(c)
          && staged[id] == Expected(c, id.rank, id.idx - Slots(c)))
    && (forall id :: id in done && Slots(c) <= id.idx && !RecvRaw(c, id.idx - Slots(c)) ==> id in staged)
  }

  ghost predicate IsReceived(c: Config, k: nat, a: nat)
    requires ValidConfig(c) && k < Slots(c)
  {
    assert ValidViews(c, k);
    exists i :: InBounds(c.recv[k].extents, i) && Addr(c.recv[k], i) == a
  }

  /** Cells outside the receive views keep their values. */
  ghost predicate Frame(c: Config, r: nat, mem: seq<int>)
    requires ValidConfig(c) && r < Ranks(c)
  {
    && |mem| == c.total
    && forall a :: 0 <= a < |mem| && (forall k :: 0 <= k < Slots(c) ==> !IsReceived(c, k, a)) ==>
         mem[a] == c.init[r][a]
  }

  /** Slot k holds, element by element, the view its source rank sent. */
  ghost predicate Filled(c: Config, r: nat, k: nat, mem: seq<int>)
    requires ValidConfig(c) && r < Ranks(c) && k < Slots(c)
  {
    assert ValidRoute(c, k, r) && ValidViews(c, k);
    var start, sv, rv := c.init[Source(c, k, r)], c.send[k], c.recv[k];
    forall i :: InBounds(rv.extents, i) ==>
      Addr(rv, i) < |mem| && Addr(sv, i) < |start| && mem[Addr(rv, i)] == start[Addr(sv, i)]
  }

  ghost predicate Landed(c: Config, done: set<OpId>, returned: set<nat>, r: nat, k: nat) {
    if RecvRaw(c, k) then OpId(r, Slots(c) + k) in done else r in returned
  }

  ghost predicate GridsOk(c: Config, grids: seq<seq<int>>, done: set<OpId>, returned: set<nat>)
    requires ValidConfig(c)
  {
    && |grids| == Ranks(c)
    && (forall r :: 0 <= r < Ranks(c) ==> Frame(c, r, grids[r]))
    && (forall r, k :: 0 <= r < Ranks(c) && 0 <= k < Slots(c) && Landed(c, done, returned, r, k) ==>
          Filled(c, r, k, grids[r]))
  }

  ghost predicate ReturnedOk(c: Config, s: State) {
    forall r :: r in s.returned ==>
      r < Ranks(c) && r < |s.net.log| && |s.net.log[r]| == 2 * Slots(c) && AllDone(c, s.net.done, r)
  }

  ghost predicate Inv(c: Config, s: State)
    requires ValidConfig(c)
  {
    && LogsOk(c, s.net) && NetInv(s.net)
    && StartData(c, s.packed) && StartData(c, s.net.wire)
    && StagedOk(c, s.staged, s.net.done)
    && GridsOk(c, s.grids, s.net.done, s.returned) && ReturnedOk(c, s)
  }

  lemma PostedOp(c: Config, n: Net, id: OpId)
    requires LogsOk(c, n) && Posted(n, id)
    ensures id.rank < Ranks(c) && id.idx < 2 * Slots(c) && OpOf(n, id) == OpAt(c, id.rank, id.idx)
    ensures id.idx < Slots(c) <==> OpOf(n, id).Send?
  {
    assert Follows(c, id.rank, n.log[id.rank]);
  }

  lemma SelectedOp(c: Config, n: Net, r: nat, send: bool, peer: nat, tag: int, j: nat)
    requires ValidConfig(c) && LogsOk(c, n) && j < |Select(r, LogOf(n, r), send, peer, tag)|
    ensures r < Ranks(c) && tag == TAG && peer < Ranks(c)
    ensures var id := Select(r, LogOf(n, r), send, peer, tag)[j];
      && Posted(n, id) && id.rank == r && (send <==> id.idx < Slots(c))
      && On(OpAt(c, r, id.idx), send, peer, tag)
      && j < |Select(r, Program(c, r), send, peer, tag)| && id == Select(r, Program(c, r), send, peer, tag)[j]
  {
    var l := LogOf(n, r);
    var id := Select(r, l, send, peer, tag)[j];
    SelectMember(r, l, send, peer, tag, id);
    PostedOp(c, n, id);
    assert Follows(c, r, l);
    assert Program(c, r)[..|l|] == l;
    SelectPrefix(r, Program(c, r), |l|, send, peer, tag);
    assert ValidRoute(c, if send then id.idx else id.idx - Slots(c), r);
  }

  /** Every match pairs slot k sent by a rank with slot k of the neighbour that fills it from that rank. */
  lemma MatchedSlots(c: Config, n: Net, t: Stream, j: nat)
    requires ValidConfig(c) && LogsOk(c, n) && Ordered(n, t) && j < |Get(n.recvm, t)|
    ensures j < |Get(n.sentm, t)|
    ensures var a, b := n.sentm[t][j], n.recvm[t][j];
      && Posted(n, a) && Posted(n, b) && a.idx < Slots(c) && b.idx == Slots(c) + a.idx
      && b.rank < Ranks(c) && a.rank == Source(c, a.idx, b.rank) && a.rank < Ranks(c)
  {
    NonOvertaking(n, t, j);
    SelectedOp(c, n, t.src, true, t.dst, t.tag, j);
    SelectedOp(c, n, t.dst, false, t.src, t.tag, j);
    SlotsAgree(c, t.src, t.dst);
  }

  // ---------------------------------------------------------------- effect on grids

  lemma ReadUnchanged(c: Config, r: nat, k: nat, mem: seq<int>)
    requires ValidConfig(c) && r < Ranks(c) && k < Slots(c) && Frame(c, r, mem)
    ensures Read(c, mem, k) == Start(c, k, r)
  {
    assert ValidViews(c, k) && ValidStart(c, k, r);
    var v := c.send[k];
    forall i | InBounds(v.extents, i)
      ensures Addr(v, i) < |mem| && mem[Addr(v, i)] == c.init[r][Addr(v, i)]
    {
      AddrInSpan(v, i);
      forall l | 0 <= l < Slots(c) ensures !IsReceived(c, l, Addr(v, i)) {
        assert ValidViews(c, l) && Apart(c.recv[l], v);
      }
    }
    WireDepends(mem, c.init[r], v, c.layout);
  }

  lemma FilledKept(c: Config, r: nat, k: nat, l: nat, mem: seq<int>, mem': seq<int>)
    requires ValidConfig(c) && r < Ranks(c) && k < Slots(c) && l < Slots(c) && l != k
    requires |mem'| == |mem| && Filled(c, r, l, mem)
    requires forall a :: 0 <= a < |mem| && !IsReceived(c, k, a) ==> mem'[a] == mem[a]
    ensures Filled(c, r, l, mem')
  {
    assert ValidViews(c, k) && ValidViews(c, l) && Apart(c.recv[k], c.recv[l]);
    forall i | InBounds(c.recv[l].extents, i) ensures !IsReceived(c, k, Addr(c.recv[l], i)) {}
  }

  lemma LandFills(c: Config, r: nat, k: nat, mem: seq<int>)
    requires ValidConfig(c) && r < Ranks(c) && k < Slots(c) && Frame(c, r, mem)
    ensures var mem' := Land(c, mem, k, Expected(c, r, k));
      && Frame(c, r, mem') && Filled(c, r, k, mem')
      && forall l :: 0 <= l < Slots(c) && l != k && Filled(c, r, l, mem) ==> Filled(c, r, l, mem')
  {
    assert ValidRoute(c, k, r) && ValidViews(c, k);
    var q, sv, rv := Source(c, k, r), c.send[k], c.recv[k];
    var mem' := Land(c, mem, k, Expected(c, r, k));
    assert ValidStart(c, k, q);
    Delivered(c.init[q], sv, c.layout, mem, rv, c.layout);
    forall a | 0 <= a < |mem| && !IsReceived(c, k, a) ensures mem'[a] == mem[a] {}
    forall l | 0 <= l < Slots(c) && l != k && Filled(c, r, l, mem) ensures Filled(c, r, l, mem') {
      FilledKept(c, r, k, l, mem, mem');
    }
  }
}
