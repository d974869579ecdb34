/** A neighbour exchange never deadlocks and always ends, even if sends complete only when matched. */
module ExchangeProgress {
  import opened Network
  import opened NeighbourExchange
  import opened ExchangeDelivery

  // ---------------------------------------------------------------- a decreasing measure

  /** How many of its stages an operation still has before it. */
  ghost function OpWork(c: Config, s: State, id: OpId): nat {
    (if Posted(s.net, id) then 0 else 1)
    + (if id.idx >= Slots(c) || id in s.net.wire then 0 else 1)
    + (if id in s.net.matched then 0 else 1)
    + (if id in s.net.done then 0 else 1)
  }

  ghost function RankWork(c: Config, s: State, r: nat, n: nat): nat {
    if n == 0 then if r in s.returned then 0 else 1
    else RankWork(c, s, r, n - 1) + OpWork(c, s, OpId(r, n - 1))
  }

  ghost function WorkUpTo(c: Config, s: State, n: nat): nat {
    if n == 0 then 0 else WorkUpTo(c, s, n - 1) + RankWork(c, s, n - 1, 2 * Slots(c))
  }

  ghost function Work(c: Config, s: State): nat {
    WorkUpTo(c, s, Ranks(c))
  }

  ghost predicate NoMore(c: Config, s: State, s': State) {
    s.returned <= s'.returned && forall id :: OpWork(c, s', id) <= OpWork(c, s, id)
  }

  lemma {:induction false} RankWorkMono(c: Config, s: State, s': State, r: nat, n: nat, k: nat)
    requires NoMore(c, s, s')
    ensures RankWork(c, s', r, n) <= RankWork(c, s, r, n)
    ensures k < n && OpWork(c, s', OpId(r, k)) < OpWork(c, s, OpId(r, k)) ==>
      RankWork(c, s', r, n) < RankWork(c, s, r, n)
    ensures r in s'.returned && r !in s.returned ==> RankWork(c, s', r, n) < RankWork(c, s, r, n)
    decreases n
  {
    if n > 0 {
      RankWorkMono(c, s, s', r, n - 1, k);
      assert OpWork(c, s', OpId(r, n - 1)) <= OpWork(c, s, OpId(r, n - 1));
    }
  }

  lemma {:induction false} WorkMono(c: Config, s: State, s': State, n: nat, r: nat, k: nat)
    requires NoMore(c, s, s')
    requires r < n ==>
      || (k < 2 * Slots(c) && OpWork(c, s', OpId(r, k)) < OpWork(c, s, OpId(r, k)))
      || (r in s'.returned && r !in s.returned)
    ensures WorkUpTo(c, s', n) <= WorkUpTo(c, s, n)
    ensures r < n ==> WorkUpTo(c, s', n) < WorkUpTo(c, s, n)
    decreases n
  {
    if n > 0 {
      WorkMono(c, s, s', n - 1, r, k);
      RankWorkMono(c, s, s', n - 1, 2 * Slots(c), k);
    }
  }

  lemma {:induction false} SelectIncreasing(r: nat, log: seq<Op>, send: bool, peer: nat, tag: int, i: nat, j: nat)
    requires i < j < |Select(r, log, send, peer, tag)|
    ensures Select(r, log, send, peer, tag)[i].idx < Select(r, log, send, peer, tag)[j].idx
    decreases |log|
  {
    var k := |log| - 1;
    var front, all := Select(r, log[..k], send, peer, tag), Select(r, log, send, peer, tag);
    if j < |front| {
      SelectIncreasing(r, log[..k], send, peer, tag, i, j);
    } else {
      assert front[i] in front;
      SelectMember(r, log[..k], send, peer, tag, front[i]);
      assert all[i] == front[i];
    }
  }

  /** The send at the head of a queue has not been matched before. */
  lemma HeadUnmatched(n: Net, s: Stream)
    requires NetInv(n) && CanMatch(n, s)
    ensures n.sendq[s][0] !in n.matched
  {
    assert Ordered(n, s);
    HeadStream(n, s);
    var a, m := n.sendq[s][0], Get(n.sentm, s);
    var all := SendsOn(n, s);
    assert all[|m|] == a;
    if a in n.matched {
      assert InPairs(n, a, s);
      if a in m {
        var i :| 0 <= i < |m| && m[i] == a;
        assert all[i] == a;
        SelectIncreasing(s.src, LogOf(n, s.src), true, s.dst, s.tag, i, |m|);
      } else {
        assert a in Get(n.recvm, s) + Get(n.recvq, s);
        SelectMember(s.dst, LogOf(n, s.dst), false, s.src, s.tag, a);
      }
      assert false;
    }
  }

  /** The operation, or the rank, that a step brings forward. */
  ghost function Mover(s: State, st: Step): OpId
    requires st.RecvDone? ==> CanCompleteRecv(s.net, st.s, st.j)
    requires st.MatchHeads? ==> CanMatch(s.net, st.s)
    requires st.PostNext? ==> st.r < |s.net.log|
  {
    match st
    case PostNext(r) => OpId(r, |s.net.log[r]|)
    case InjectSend(id) => id
    case MatchHeads(t) => s.net.sendq[t][0]
    case SendDone(id) => id
    case RecvDone(t, j) => s.net.recvm[t][j]
    case WaitReturns(r) => OpId(r, 0)
  }

  lemma MoverPosted(c: Config, s: State, st: Step)
    requires ValidConfig(c) && Inv(c, s) && Enabled(c, s, st) && !st.WaitReturns? && !st.PostNext?
    ensures Posted(s.net, Mover(s, st)) && Mover(s, st).rank < Ranks(c) && Mover(s, st).idx < 2 * Slots(c)
    ensures st.InjectSend? ==> Mover(s, st).idx < Slots(c)
  {
    match st
    case InjectSend(id) => PostedOp(c, s.net, id);
    case MatchHeads(t) =>
      HeadStream(s.net, t);
      PostedOp(c, s.net, s.net.sendq[t][0]);
    case SendDone(id) => PostedOp(c, s.net, id);
    case RecvDone(t, j) =>
      MatchedSlots(c, s.net, t, j);
      PostedOp(c, s.net, s.net.recvm[t][j]);
  }

  lemma StepGrows(c: Config, s: State, st: Step)
    requires Enabled(c, s, st)
    ensures Grows(s.net, Apply(c, s, st).net) && s.returned <= Apply(c, s, st).returned
  {
    match st
    case PostNext(r) => PostGrows(s.net, r, OpAt(c, r, |s.net.log[r]|));
    case InjectSend(id) => LocalGrows(s.net, id, SendData(c, s, id));
    case MatchHeads(t) => MatchGrows(s.net, t);
    case SendDone(id) => LocalGrows(s.net, id, []);
    case RecvDone(t, j) => LocalGrows(s.net, s.net.recvm[t][j], []);
    case WaitReturns(r) =>
  }

  lemma GrowsNoMore(c: Config, s: State, s': State)
    requires Grows(s.net, s'.net) && s.returned <= s'.returned
    ensures NoMore(c, s, s')
  {}

  lemma PosterMoves(c: Config, s: State, st: Step)
    requires ValidConfig(c) && Inv(c, s) && Enabled(c, s, st) && st.PostNext?
    ensures OpWork(c, Apply(c, s, st), Mover(s, st)) < OpWork(c, s, Mover(s, st))
  {}

  lemma MatchedMoves(c: Config, s: State, st: Step)
    requires ValidConfig(c) && Inv(c, s) && Enabled(c, s, st) && st.MatchHeads?
    ensures OpWork(c, Apply(c, s, st), Mover(s, st)) < OpWork(c, s, Mover(s, st))
  {
    MoverPosted(c, s, st);
    HeadUnmatched(s.net, st.s);
  }

  lemma InjectMoves(c: Config, s: State, st: Step)
    requires ValidConfig(c) && Inv(c, s) && Enabled(c, s, st) && st.InjectSend?
    ensures OpWork(c, Apply(c, s, st), Mover(s, st)) < OpWork(c, s, Mover(s, st))
  {
    MoverPosted(c, s, st);
  }

  lemma CompletionMoves(c: Config, s: State, st: Step)
    requires ValidConfig(c) && Inv(c, s) && Enabled(c, s, st) && (st.SendDone? || st.RecvDone?)
    ensures OpWork(c, Apply(c, s, st), Mover(s, st)) < OpWork(c, s, Mover(s, st))
  {
    MoverPosted(c, s, st);
  }

  lemma MoverMoves(c: Config, s: State, st: Step)
    requires ValidConfig(c) && Inv(c, s) && Enabled(c, s, st) && !st.WaitReturns?
    ensures OpWork(c, Apply(c, s, st), Mover(s, st)) < OpWork(c, s, Mover(s, st))
  {
    if st.PostNext? {
      PosterMoves(c, s, st);
    } else if st.MatchHeads? {
      MatchedMoves(c, s, st);
    } else if st.InjectSend? {
      InjectMoves(c, s, st);
    } else {
      CompletionMoves(c, s, st);
    }
  }

  /** Every step uses up work. */
  lemma StepWorks(c: Config, s: State, st: Step)
    requires ValidConfig(c) && Inv(c, s) && Enabled(c, s, st)
    ensures Work(c, Apply(c, s, st)) < Work(c, s)
  {
    var s', id := Apply(c, s, st), Mover(s, st);
    StepGrows(c, s, st);
    GrowsNoMore(c, s, s');
    if !st.WaitReturns? {
      MoverMoves(c, s, st);
      if !st.PostNext? { MoverPosted(c, s, st); }
    }
    WorkMono(c, s, s', Ranks(c), id.rank, id.idx);
  }

  /** No run is longer than the work there is at the start. */
  lemma {:induction false} Terminates(c: Config, steps: seq<Step>, s: State)
    requires ValidConfig(c) && Reaches(c, steps, s)
    ensures |steps| + Work(c, s) <= Work(c, Init(c))
    decreases |steps|
  {
    if steps != [] {
      var front, last := steps[..|steps| - 1], steps[|steps| - 1];
      var p :| Reaches(c, front, p) && Enabled(c, p, last) && s == Apply(c, p, last);
      Terminates(c, front, p);
      ReachableOk(c, front, p);
      StepWorks(c, p, last);
    }
  }

  // ---------------------------------------------------------------- no deadlock

  /** Once everything is posted, both sides of every stream have posted equally many operations. */
  lemma StreamsBalanced(c: Config, n: Net, a: nat, b: nat)
    requires ValidConfig(c) && LogsOk(c, n) && a < Ranks(c) && b < Ranks(c)
    requires forall r :: 0 <= r < |n.log| ==> |n.log[r]| == 2 * Slots(c)
    ensures |SendsOn(n, Stream(a, b, TAG))| == |RecvsOn(n, Stream(a, b, TAG))|
  {
    assert Follows(c, a, n.log[a]) && Follows(c, b, n.log[b]);
    assert n.log[a] == Program(c, a) && n.log[b] == Program(c, b);
    SlotsAgree(c, a, b);
  }

  lemma UnmatchedEnabled(c: Config, n: Net, id: OpId, t: Stream)
    requires ValidConfig(c) && LogsOk(c, n) && NetInv(n)
    requires forall r :: 0 <= r < |n.log| ==> |n.log[r]| == 2 * Slots(c)
    requires id.rank < Ranks(c) && id.idx < 2 * Slots(c) && id !in n.matched
    requires t == StreamOf(id.rank, OpAt(c, id.rank, id.idx))
    ensures CanMatch(n, t)
  {
    PostedOp(c, n, id);
    UnmatchedProgress(n, id);
    assert ValidRoute(c, if id.idx < Slots(c) then id.idx else id.idx - Slots(c), id.rank);
    StreamsBalanced(c, n, t.src, t.dst);
  }

  lemma MatchedRecv(c: Config, s: State, id: OpId) returns (t: Stream, j: nat)
    requires ValidConfig(c) && Inv(c, s)
    requires id in s.net.matched && id.idx >= Slots(c)
    ensures j < |Get(s.net.recvm, t)| && j < |Get(s.net.sentm, t)| && s.net.recvm[t][j] == id
  {
    PostedOp(c, s.net, id);
    t := StreamOf(id.rank, OpOf(s.net, id));
    assert Ordered(s.net, t) && InPairs(s.net, id, t);
    if id in Get(s.net.sentm, t) {
      assert id in Get(s.net.sentm, t) + Get(s.net.sendq, t);
      SelectMember(t.src, LogOf(s.net, t.src), true, t.dst, t.tag, id);
      assert false;
    }
    j :| 0 <= j < |Get(s.net.recvm, t)| && s.net.recvm[t][j] == id;
  }

  /** Once all is matched and injected, what is not complete can be completed. */
  lemma Completion(c: Config, s: State, id: OpId) returns (st: Step)
    requires ValidConfig(c) && Inv(c, s) && id.rank < Ranks(c) && id.idx < 2 * Slots(c) && id !in s.net.done
    requires Posted(s.net, id)
    requires forall q: nat, k: nat :: q < Ranks(c) && k < 2 * Slots(c) ==> OpId(q, k) in s.net.matched
    requires forall q: nat, k: nat :: q < Ranks(c) && k < Slots(c) ==> OpId(q, k) in s.net.wire
    ensures Enabled(c, s, st)
  {
    if id.idx < Slots(c) {
      PostedOp(c, s.net, id);
      return SendDone(id);
    }
    var t, j := MatchedRecv(c, s, id);
    MatchedSlots(c, s.net, t, j);
    return RecvDone(t, j);
  }

  /** While a rank has not returned, some step is enabled, in synchronous mode too. */
  lemma Progress(c: Config, s: State, r: nat) returns (st: Step)
    requires ValidConfig(c) && Inv(c, s) && r < Ranks(c) && r !in s.returned
    ensures Enabled(c, s, st)
  {
    if q: nat :| q < |s.net.log| && |s.net.log[q]| < 2 * Slots(c) {
      return PostNext(q);
    }
    forall q | 0 <= q < |s.net.log| ensures |s.net.log[q]| == 2 * Slots(c) {
      assert Follows(c, q, s.net.log[q]);
    }
    if q: nat, k: nat :| q < Ranks(c) && k < 2 * Slots(c) && OpId(q, k) !in s.net.matched {
      UnmatchedEnabled(c, s.net, OpId(q, k), StreamOf(q, OpAt(c, q, k)));
      return MatchHeads(StreamOf(q, OpAt(c, q, k)));
    }
    if q: nat, k: nat :| q < Ranks(c) && k < Slots(c) && OpId(q, k) !in s.net.wire {
      PostedOp(c, s.net, OpId(q, k));
      return InjectSend(OpId(q, k));
    }
    if AllDone(c, s.net.done, r) {
      return WaitReturns(r);
    }
    var k: nat :| k < 2 * Slots(c) && OpId(r, k) !in s.net.done;
    st := Completion(c, s, OpId(r, k));
  }

  /** A run that cannot go on has every rank back from its wait. */
  lemma NoDeadlock(c: Config, steps: seq<Step>, s: State)
    requires ValidConfig(c) && Reaches(c, steps, s)
    requires forall st :: !Enabled(c, s, st)
    ensures forall r :: 0 <= r < Ranks(c) ==> r in s.returned
  {
    ReachableOk(c, steps, s);
    forall r | 0 <= r < Ranks(c) ensures r in s.returned {
      if r !in s.returned {
        var st := Progress(c, s, r);
        assert false;
      }
    }
  }

  lemma Extend(c: Config, steps: seq<Step>, s: State, st: Step)
    requires Reaches(c, steps, s) && Enabled(c, s, st)
    ensures Reaches(c, steps + [st], Apply(c, s, st))
  {
    var all := steps + [st];
    assert all[..|all| - 1] == steps;
  }

  lemma GoOn(c: Config, steps: seq<Step>, s: State, r: nat) returns (st: Step, next: State)
    requires ValidConfig(c) && Reaches(c, steps, s) && r < Ranks(c) && r !in s.returned
    ensures Reaches(c, steps + [st], next) && Work(c, next) < Work(c, s)
  {
    ReachableOk(c, steps, s);
    st := Progress(c, s, r);
    next := Apply(c, s, st);
    StepWorks(c, s, st);
    Extend(c, steps, s, st);
  }

  ghost predicate AllReturned(c: Config, s: State) {
    forall r :: 0 <= r < Ranks(c) ==> r in s.returned
  }

  lemma {:induction false} CompletesWithin(c: Config, steps: seq<Step>, s: State, work: nat)
      returns (all: seq<Step>, s': State)
    requires ValidConfig(c) && Reaches(c, steps, s) && Work(c, s) <= work
    ensures steps <= all && Reaches(c, all, s') && AllReturned(c, s')
    decreases work
  {
    if AllReturned(c, s) {
      return steps, s;
    }
    var r: nat :| r < Ranks(c) && r !in s.returned;
    var st, next := GoOn(c, steps, s, r);
    all, s' := CompletesWithin(c, steps + [st], next, work - 1);
  }

  /** Every run can be continued to one in which every rank is back from its wait. */
  lemma Completes(c: Config, steps: seq<Step>, s: State) returns (all: seq<Step>, s': State)
    requires ValidConfig(c) && Reaches(c, steps, s)
    ensures steps <= all && Reaches(c, all, s') && AllReturned(c, s')
  {
    all, s' := CompletesWithin(c, steps, s, Work(c, s));
  }
}
