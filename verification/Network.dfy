/**
 Point-to-point messaging between ranks as a transition system, after section 3.5 of MPI 3.1:
 per source, destination and tag, posted sends and posted receives are matched in posting order.
 A send is injected (its data read) at some time after it is posted; a receive completes once
 matched and injected. In synchronous mode a send completes only once matched.
 */
module Network {

  datatype Op = Send(peer: nat, tag: int) | Recv(peer: nat, tag: int)

  /** The idx-th operation a rank posted. */
  datatype OpId = OpId(rank: nat, idx: nat)

  datatype Stream = Stream(src: nat, dst: nat, tag: int)

  type Queues = map<Stream, seq<OpId>>

  datatype Net = Net(
    log: seq<seq<Op>>,             // what each rank has posted so far
    sendq: Queues, recvq: Queues,  // posted operations not yet matched
    sentm: Queues, recvm: Queues,  // matched operations, pair by pair, oldest first
    matched: set<OpId>,
    wire: map<OpId, seq<int>>,     // the data of injected sends
    done: set<OpId>)               // completed operations

  function Get(m: Queues, s: Stream): seq<OpId> {
    if s in m then m[s] else []
  }

  function Empty(ranks: nat): Net {
    Net(seq(ranks, _ => []), map[], map[], map[], map[], {}, map[], {})
  }

  predicate Posted(n: Net, id: OpId) {
    id.rank < |n.log| && id.idx < |n.log[id.rank]|
  }

  function OpOf(n: Net, id: OpId): Op
    requires Posted(n, id)
  {
    n.log[id.rank][id.idx]
  }

  function StreamOf(rank: nat, op: Op): Stream {
    match op
    case Send(p, t) => Stream(rank, p, t)
    case Recv(p, t) => Stream(p, rank, t)
  }

  // ---------------------------------------------------------------- steps

  function Push(m: Queues, s: Stream, id: OpId): Queues {
    m[s := Get(m, s) + [id]]
  }

  function Post(n: Net, r: nat, op: Op): Net
    requires r < |n.log|
  {
    var id, s := OpId(r, |n.log[r]|), StreamOf(r, op);
    var log' := n.log[r := n.log[r] + [op]];
    if op.Send? then n.(log := log', sendq := Push(n.sendq, s, id))
    else n.(log := log', recvq := Push(n.recvq, s, id))
  }

  predicate CanMatch(n: Net, s: Stream) {
    Get(n.sendq, s) != [] && Get(n.recvq, s) != []
  }

  function Match(n: Net, s: Stream): Net
    requires CanMatch(n, s)
  {
    var a, b := n.sendq[s][0], n.recvq[s][0];
    n.(sendq := n.sendq[s := n.sendq[s][1..]], recvq := n.recvq[s := n.recvq[s][1..]],
       sentm := Push(n.sentm, s, a), recvm := Push(n.recvm, s, b), matched := n.matched + {a, b})
  }

  predicate CanInject(n: Net, id: OpId) {
    Posted(n, id) && OpOf(n, id).Send? && id !in n.wire
  }

  function Inject(n: Net, id: OpId, data: seq<int>): Net {
    n.(wire := n.wire[id := data])
  }

  predicate CanCompleteSend(n: Net, id: OpId, sync: bool) {
    id in n.wire && id !in n.done && (sync ==> id in n.matched)
  }

  /** The j-th pair of a stream: its send is injected, its receive not yet complete. */
  predicate CanCompleteRecv(n: Net, s: Stream, j: nat) {
    && j < |Get(n.sentm, s)| && j < |Get(n.recvm, s)|
    && n.sentm[s][j] in n.wire && n.recvm[s][j] !in n.done
  }

  function Complete(n: Net, id: OpId): Net {
    n.(done := n.done + {id})
  }

  // ---------------------------------------------------------------- posting order

  predicate On(op: Op, send: bool, peer: nat, tag: int) {
    op == if send then Send(peer, tag) else Recv(peer, tag)
  }

  /** The sends (or receives) a rank's log posts to one peer under one tag, in order. */
  function Select(r: nat, log: seq<Op>, send: bool, peer: nat, tag: int): seq<OpId> {
    if log == [] then []
    else
      var k := |log| - 1;
      var front := Select(r, log[..k], send, peer, tag);
      if On(log[k], send, peer, tag) then front + [OpId(r, k)] else front
  }

  function LogOf(n: Net, r: nat): seq<Op> {
    if r < |n.log| then n.log[r] else []
  }

  function SendsOn(n: Net, s: Stream): seq<OpId> {
    Select(s.src, LogOf(n, s.src), true, s.dst, s.tag)
  }

  function RecvsOn(n: Net, s: Stream): seq<OpId> {
    Select(s.dst, LogOf(n, s.dst), false, s.src, s.tag)
  }

  lemma {:induction false} SelectMember(r: nat, log: seq<Op>, send: bool, peer: nat, tag: int, id: OpId)
    ensures id in Select(r, log, send, peer, tag)
      <==> id.rank == r && id.idx < |log| && On(log[id.idx], send, peer, tag)
    decreases |log|
  {
    if log != [] {
      SelectMember(r, log[..|log| - 1], send, peer, tag, id);
    }
  }

  /** The j-th operation selected from a longer log is the j-th selected from a shorter one. */
  lemma {:induction false} SelectPrefix(r: nat, log: seq<Op>, n: nat, send: bool, peer: nat, tag: int)
    requires n <= |log|
    ensures Select(r, log[..n], send, peer, tag) <= Select(r, log, send, peer, tag)
    decreases |log|
  {
    if n == |log| {
      assert log[..n] == log;
    } else {
      SelectPrefix(r, log[..|log| - 1], n, send, peer, tag);
      assert log[..|log| - 1][..n] == log[..n];
    }
  }

  lemma SelectAppend(r: nat, log: seq<Op>, op: Op, send: bool, peer: nat, tag: int)
    ensures Select(r, log + [op], send, peer, tag)
      == if On(op, send, peer, tag) then Select(r, log, send, peer, tag) + [OpId(r, |log|)]
         else Select(r, log, send, peer, tag)
  {
    var l := log + [op];
    assert l[..|l| - 1] == log;
  }

  lemma PostStreams(n: Net, r: nat, op: Op, s: Stream)
    requires r < |n.log|
    ensures var n', id := Post(n, r, op), OpId(r, |n.log[r]|);
      && SendsOn(n', s) == (if op.Send? && StreamOf(r, op) == s then SendsOn(n, s) + [id] else SendsOn(n, s))
      && RecvsOn(n', s) == (if op.Recv? && StreamOf(r, op) == s then RecvsOn(n, s) + [id] else RecvsOn(n, s))
  {
    if s.src == r { SelectAppend(r, n.log[r], op, true, s.dst, s.tag); }
    if s.dst == r { SelectAppend(r, n.log[r], op, false, s.src, s.tag); }
  }

  // ---------------------------------------------------------------- invariant

  /** Matched and waiting operations together are exactly the posted ones, in posting order. */
  ghost predicate Ordered(n: Net, s: Stream) {
    && Get(n.sentm, s) + Get(n.sendq, s) == SendsOn(n, s)
    && Get(n.recvm, s) + Get(n.recvq, s) == RecvsOn(n, s)
    && |Get(n.sentm, s)| == |Get(n.recvm, s)|
  }

  ghost predicate InPairs(n: Net, id: OpId, s: Stream) {
    id in Get(n.sentm, s) || id in Get(n.recvm, s)
  }

  /** Matched operations are those in pairs; what is injected or done has been posted. */
  ghost predicate Sets(n: Net) {
    && (forall id :: id in n.matched ==> Posted(n, id) && InPairs(n, id, StreamOf(id.rank, OpOf(n, id))))
    && (forall s, id :: InPairs(n, id, s) ==> id in n.matched)
    && (forall id :: id in n.wire ==> Posted(n, id) && OpOf(n, id).Send?)
    && (forall id :: id in n.done ==> Posted(n, id) && (if OpOf(n, id).Send? then id in n.wire else id in n.matched))
  }

  ghost predicate NetInv(n: Net) {
    (forall s :: Ordered(n, s)) && Sets(n)
  }

  lemma InitInv(ranks: nat)
    ensures NetInv(Empty(ranks))
  {
    var n := Empty(ranks);
    forall s ensures Ordered(n, s) {
      assert LogOf(n, s.src) == [] && LogOf(n, s.dst) == [];
    }
  }

  lemma AppendAssoc(f: seq<OpId>, q: seq<OpId>, id: OpId)
    ensures f + (q + [id]) == f + q + [id]
  {}

  lemma PostOrdered(n: Net, r: nat, op: Op, s: Stream)
    requires r < |n.log| && Ordered(n, s)
    ensures Ordered(Post(n, r, op), s)
  {
    PostStreams(n, r, op, s);
    if StreamOf(r, op) == s {
      AppendAssoc(Get(n.sentm, s), Get(n.sendq, s), OpId(r, |n.log[r]|));
      AppendAssoc(Get(n.recvm, s), Get(n.recvq, s), OpId(r, |n.log[r]|));
    }
  }

  lemma PostInv(n: Net, r: nat, op: Op)
    requires NetInv(n) && r < |n.log|
    ensures NetInv(Post(n, r, op))
  {
    var n' := Post(n, r, op);
    forall s ensures Ordered(n', s) { PostOrdered(n, r, op, s); }
    forall id | Posted(n, id) ensures Posted(n', id) && OpOf(n', id) == OpOf(n, id) {}
    forall id, s ensures InPairs(n', id, s) == InPairs(n, id, s) {}
  }

  lemma HeadStream(n: Net, s: Stream)
    requires Ordered(n, s) && CanMatch(n, s)
    ensures var a, b := n.sendq[s][0], n.recvq[s][0];
      && Posted(n, a) && OpOf(n, a).Send? && StreamOf(a.rank, OpOf(n, a)) == s
      && Posted(n, b) && OpOf(n, b).Recv? && StreamOf(b.rank, OpOf(n, b)) == s
  {
    var k := |Get(n.sentm, s)|;
    assert SendsOn(n, s)[k] == n.sendq[s][0];
    assert RecvsOn(n, s)[k] == n.recvq[s][0];
    SelectMember(s.src, LogOf(n, s.src), true, s.dst, s.tag, n.sendq[s][0]);
    SelectMember(s.dst, LogOf(n, s.dst), false, s.src, s.tag, n.recvq[s][0]);
  }

  lemma MoveHead(f: seq<OpId>, q: seq<OpId>)
    requires q != []
    ensures f + [q[0]] + q[1..] == f + q
  {}

  lemma MatchOrdered(n: Net, s: Stream, t: Stream)
    requires CanMatch(n, s) && Ordered(n, t)
    ensures Ordered(Match(n, s), t)
  {
    if t == s {
      MoveHead(Get(n.sentm, s), n.sendq[s]);
      MoveHead(Get(n.recvm, s), n.recvq[s]);
    }
  }

  lemma MatchPairs(n: Net, s: Stream, id: OpId, t: Stream)
    requires CanMatch(n, s)
    ensures InPairs(Match(n, s), id, t)
      <==> InPairs(n, id, t) || (t == s && (id == n.sendq[s][0] || id == n.recvq[s][0]))
  {}

  lemma MatchSets(n: Net, s: Stream)
    requires Sets(n) && CanMatch(n, s)
    requires var a, b := n.sendq[s][0], n.recvq[s][0];
      && Posted(n, a) && OpOf(n, a).Send? && StreamOf(a.rank, OpOf(n, a)) == s
      && Posted(n, b) && OpOf(n, b).Recv? && StreamOf(b.rank, OpOf(n, b)) == s
    ensures Sets(Match(n, s))
  {
    forall id, t ensures InPairs(Match(n, s), id, t)
      <==> InPairs(n, id, t) || (t == s && (id == n.sendq[s][0] || id == n.recvq[s][0]))
    {
      MatchPairs(n, s, id, t);
    }
  }

  lemma MatchInv(n: Net, s: Stream)
    requires NetInv(n) && CanMatch(n, s)
    ensures NetInv(Match(n, s))
  {
    HeadStream(n, s);
    MatchSets(n, s);
    forall t ensures Ordered(Match(n, s), t) {
      MatchOrdered(n, s, t);
    }
  }

  lemma Quiet(n: Net, n': Net)
    requires forall s :: Ordered(n, s)
    requires n'.log == n.log && n'.sendq == n.sendq && n'.recvq == n.recvq
    requires n'.sentm == n.sentm && n'.recvm == n.recvm
    ensures forall s :: Ordered(n', s)
    ensures forall id, s :: InPairs(n', id, s) <==> InPairs(n, id, s)
  {
    forall s ensures Ordered(n', s) { assert Ordered(n, s); }
  }

  lemma InjectInv(n: Net, id: OpId, data: seq<int>)
    requires NetInv(n) && CanInject(n, id)
    ensures NetInv(Inject(n, id, data))
  {
    Quiet(n, Inject(n, id, data));
  }

  lemma CompleteInv(n: Net, id: OpId)
    requires NetInv(n) && Posted(n, id) && if OpOf(n, id).Send? then id in n.wire else id in n.matched
    ensures NetInv(Complete(n, id))
  {
    Quiet(n, Complete(n, id));
  }

  /** The j-th receive of a stream is matched with its j-th send. */
  lemma NonOvertaking(n: Net, s: Stream, j: nat)
    requires Ordered(n, s) && j < |Get(n.recvm, s)|
    ensures j < |SendsOn(n, s)| && j < |RecvsOn(n, s)| && j < |Get(n.sentm, s)|
    ensures n.sentm[s][j] == SendsOn(n, s)[j] && n.recvm[s][j] == RecvsOn(n, s)[j]
  {
    assert (Get(n.sentm, s) + Get(n.sendq, s))[j] == n.sentm[s][j];
    assert (Get(n.recvm, s) + Get(n.recvq, s))[j] == n.recvm[s][j];
  }

  /** A posted operation that is not matched can be, unless the other side has posted too few. */
  lemma UnmatchedProgress(n: Net, id: OpId)
    requires NetInv(n) && Posted(n, id) && id !in n.matched
    ensures var s := StreamOf(id.rank, OpOf(n, id));
      if OpOf(n, id).Send?
      then |RecvsOn(n, s)| >= |SendsOn(n, s)| ==> CanMatch(n, s)
      else |SendsOn(n, s)| >= |RecvsOn(n, s)| ==> CanMatch(n, s)
  {
    var s := StreamOf(id.rank, OpOf(n, id));
    assert Ordered(n, s) && !InPairs(n, id, s);
    if OpOf(n, id).Send? {
      SelectMember(s.src, LogOf(n, s.src), true, s.dst, s.tag, id);
      assert id in Get(n.sentm, s) + Get(n.sendq, s);
    } else {
      SelectMember(s.dst, LogOf(n, s.dst), false, s.src, s.tag, id);
      assert id in Get(n.recvm, s) + Get(n.recvq, s);
    }
  }

  // ---------------------------------------------------------------- growth

  /** Nothing is taken back. */
  ghost predicate Grows(n: Net, n': Net) {
    && n.matched <= n'.matched && n.wire.Keys <= n'.wire.Keys && n.done <= n'.done
    && forall id :: Posted(n, id) ==> Posted(n', id)
  }

  lemma PostGrows(n: Net, r: nat, op: Op)
    requires r < |n.log|
    ensures Grows(n, Post(n, r, op))
  {}

  lemma MatchGrows(n: Net, s: Stream)
    requires CanMatch(n, s)
    ensures Grows(n, Match(n, s))
  {}

  lemma LocalGrows(n: Net, id: OpId, data: seq<int>)
    ensures Grows(n, Inject(n, id, data)) && Grows(n, Complete(n, id))
  {}
}
