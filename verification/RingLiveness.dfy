/** Cycles of a ring end: a measure decreases inside them, and any number of cycles can always be completed. */
module RingLiveness {
  import opened Network
  import opened Pigeonhole
  import opened Ring
  import opened RingSafety
  import opened RingProgress
  import P = ExchangeProgress

  // ---------------------------------------------------------------- a decreasing measure

  /** How many of its stages a posted operation still has before it. */
  ghost function OpWork(n: Net, id: OpId): nat {
    if !Posted(n, id) then 0
    else
      (if OpOf(n, id).Send? && id !in n.wire then 1 else 0)
      + (if id in n.matched then 0 else 1)
      + (if id in n.done then 0 else 1)
  }

  ghost function LogWork(n: Net, r: nat, len: nat): nat {
    if len == 0 then 0 else LogWork(n, r, len - 1) + OpWork(n, OpId(r, len - 1))
  }

  ghost function RankWork(s: State, r: nat): nat {
    if r < |s.peers| then
      4 * (|s.peers[r].toSend| + |s.peers[r].toRecv|) + (if s.peers[r].active then 1 else 0)
      + LogWork(s.net, r, |LogOf(s.net, r)|)
    else 0
  }

  ghost function WorkUpTo(s: State, n: nat): nat {
    if n == 0 then 0 else WorkUpTo(s, n - 1) + RankWork(s, n - 1)
  }

  ghost function Work(c: Config, s: State): nat {
    WorkUpTo(s, c.ranks)
  }

  lemma {:induction false} WorkUpToMono(s: State, s': State, n: nat, r: nat)
    requires forall q: nat :: RankWork(s', q) <= RankWork(s, q)
    requires RankWork(s', r) < RankWork(s, r)
    ensures WorkUpTo(s', n) <= WorkUpTo(s, n) && (r < n ==> WorkUpTo(s', n) < WorkUpTo(s, n))
    decreases n
  {
    if n > 0 {
      WorkUpToMono(s, s', n - 1, r);
      assert RankWork(s', n - 1) <= RankWork(s, n - 1);
    }
  }

  /** An operation's stages are used up one by one. */
  ghost predicate NoMore(n: Net, n': Net) {
    n'.log == n.log && forall id :: OpWork(n', id) <= OpWork(n, id)
  }

  lemma {:induction false} LogWorkMono(n: Net, n': Net, r: nat, len: nat, id: OpId)
    requires NoMore(n, n') && OpWork(n', id) < OpWork(n, id)
    ensures LogWork(n', r, len) <= LogWork(n, r, len)
    ensures id.rank == r && id.idx < len ==> LogWork(n', r, len) < LogWork(n, r, len)
    decreases len
  {
    if len > 0 {
      LogWorkMono(n, n', r, len - 1, id);
      assert OpWork(n', OpId(r, len - 1)) <= OpWork(n, OpId(r, len - 1));
    }
  }

  ghost predicate SamePlans(s: State, s': State) {
    |s'.peers| == |s.peers| && forall q {:trigger s'.peers[q]} :: 0 <= q < |s.peers| ==>
      s'.peers[q].toSend == s.peers[q].toSend && s'.peers[q].toRecv == s.peers[q].toRecv
      && s'.peers[q].active == s.peers[q].active && s'.peers[q].cycle == s.peers[q].cycle
  }

  /** A network step on operation id uses up work. */
  lemma NetStepWorks(c: Config, s: State, s': State, id: OpId)
    requires SamePlans(s, s') && NoMore(s.net, s'.net) && OpWork(s'.net, id) < OpWork(s.net, id)
    requires |s.peers| == |s.net.log| == c.ranks
    ensures Work(c, s') < Work(c, s)
  {
    var r := id.rank;
    assert Posted(s.net, id);
    forall q: nat ensures RankWork(s', q) <= RankWork(s, q) && (q == r ==> RankWork(s', q) < RankWork(s, q)) {
      if q < |s.peers| {
        LogWorkMono(s.net, s'.net, q, |LogOf(s.net, q)|, id);
        assert s'.peers[q].toSend == s.peers[q].toSend;
      }
    }
    WorkUpToMono(s, s', c.ranks, r);
  }

  lemma InjectWorks(n: Net, id: OpId, data: seq<int>)
    requires CanInject(n, id)
    ensures NoMore(n, Inject(n, id, data)) && OpWork(Inject(n, id, data), id) < OpWork(n, id)
  {}

  lemma MatchWorks(n: Net, t: Stream)
    requires NetInv(n) && CanMatch(n, t)
    ensures NoMore(n, Match(n, t)) && OpWork(Match(n, t), n.sendq[t][0]) < OpWork(n, n.sendq[t][0])
  {
    P.HeadUnmatched(n, t);
    HeadStream(n, t);
  }

  lemma CompleteWorks(n: Net, id: OpId)
    requires Posted(n, id) && id !in n.done
    ensures NoMore(n, Complete(n, id)) && OpWork(Complete(n, id), id) < OpWork(n, id)
  {}

  lemma RecvPosted(n: Net, t: Stream, j: nat)
    requires NetInv(n) && CanCompleteRecv(n, t, j)
    ensures Posted(n, n.recvm[t][j])
  {
    assert InPairs(n, n.recvm[t][j], t);
  }

  lemma NetworkStepWorks(c: Config, s: State, st: Step)
    requires ValidConfig(c) && Inv(c, s) && Enabled(c, s, st)
    requires st.InjectSend? || st.MatchHeads? || st.SendDone? || st.RecvDone?
    ensures Work(c, Apply(c, s, st)) < Work(c, s) && SamePlans(s, Apply(c, s, st))
  {
    var s' := Apply(c, s, st);
    match st
    case InjectSend(id) =>
      InjectWorks(s.net, id, Reading(s, id));
      NetStepWorks(c, s, s', id);
    case MatchHeads(t) =>
      MatchWorks(s.net, t);
      NetStepWorks(c, s, s', s.net.sendq[t][0]);
    case SendDone(id) =>
      CompleteWorks(s.net, id);
      NetStepWorks(c, s, s', id);
    case RecvDone(t, j) =>
      RecvPosted(s.net, t, j);
      CompleteWorks(s.net, s.net.recvm[t][j]);
      NetStepWorks(c, s, s', s.net.recvm[t][j]);
  }

  lemma {:induction false} LogWorkPost(n: Net, r: nat, op: Op, q: nat, len: nat)
    requires r < |n.log| && len <= |LogOf(n, q)|
    ensures LogWork(Post(n, r, op), q, len) <= LogWork(n, q, len)
    decreases len
  {
    if len > 0 { LogWorkPost(n, r, op, q, len - 1); }
  }

  lemma PostWorks(n: Net, r: nat, op: Op, q: nat)
    requires r < |n.log|
    ensures LogWork(Post(n, r, op), q, |LogOf(Post(n, r, op), q)|)
      <= LogWork(n, q, |LogOf(n, q)|) + if q == r then 3 else 0
  {
    LogWorkPost(n, r, op, q, |LogOf(n, q)|);
  }

  lemma LessOne(todo: set<nat>, k: nat)
    requires k in todo
    ensures |todo - {k}| == |todo| - 1
  {}

  lemma BeginWorks(c: Config, s: State, r: nat, k: nat, send: bool)
    requires ValidConfig(c) && Inv(c, s) && Enabled(c, s, if send then BeginSend(r, k) else BeginRecv(r, k))
    ensures Work(c, if send then BeginningSend(c, s, r, k) else BeginningRecv(c, s, r, k)) < Work(c, s)
  {
    var s' := if send then BeginningSend(c, s, r, k) else BeginningRecv(c, s, r, k);
    var op := if send then Send(Succ(c, r), c.tag) else Recv(Pred(c, r), c.tag);
    LessOne(if send then s.peers[r].toSend else s.peers[r].toRecv, k);
    forall q: nat ensures RankWork(s', q) <= RankWork(s, q) && (q == r ==> RankWork(s', q) < RankWork(s, q)) {
      PostWorks(s.net, r, op, q);
    }
    WorkUpToMono(s, s', c.ranks, r);
  }

  lemma ReturnWorks(c: Config, s: State, r: nat)
    requires ValidConfig(c) && Inv(c, s) && Enabled(c, s, WaitReturns(r))
    ensures Work(c, Apply(c, s, WaitReturns(r))) < Work(c, s)
  {
    WorkUpToMono(s, Apply(c, s, WaitReturns(r)), c.ranks, r);
  }

  /** Every step inside a cycle uses up work, so between two starts there are only finitely many. */
  lemma InnerWorks(c: Config, s: State, st: Step)
    requires ValidConfig(c) && Inv(c, s) && Enabled(c, s, st) && Inner(st)
    ensures Work(c, Apply(c, s, st)) < Work(c, s)
    ensures forall q :: 0 <= q < |s.peers| ==>
      |Apply(c, s, st).peers| == |s.peers| && Apply(c, s, st).peers[q].cycle == s.peers[q].cycle
  {
    match st
    case BeginSend(r, k) => BeginWorks(c, s, r, k, true);
    case BeginRecv(r, k) => BeginWorks(c, s, r, k, false);
    case WaitReturns(r) => ReturnWorks(c, s, r);
    case InjectSend(_) => NetworkStepWorks(c, s, st);
    case MatchHeads(_) => NetworkStepWorks(c, s, st);
    case SendDone(_) => NetworkStepWorks(c, s, st);
    case RecvDone(_, _) => NetworkStepWorks(c, s, st);
  }

  // ---------------------------------------------------------------- completing cycles

  /** How many starts the ranks still have before all have made `goal`. */
  ghost function Missing(s: State, goal: nat, n: nat): nat {
    if n == 0 then 0
    else
      Missing(s, goal, n - 1)
      + if n - 1 < |s.peers| && s.peers[n - 1].cycle < goal then goal - s.peers[n - 1].cycle else 0
  }

  ghost predicate Within(s: State, goal: nat) {
    forall q :: 0 <= q < |s.peers| ==> s.peers[q].cycle <= goal
  }

  /** Every rank has completed exactly `goal` cycles and is idle. */
  ghost predicate AllAt(s: State, goal: nat) {
    forall q :: 0 <= q < |s.peers| ==> s.peers[q].cycle == goal && !s.peers[q].active
  }

  lemma {:induction false} MissingSame(s: State, s': State, goal: nat, n: nat)
    requires |s'.peers| == |s.peers| && forall q :: 0 <= q < |s.peers| ==> s'.peers[q].cycle == s.peers[q].cycle
    ensures Missing(s', goal, n) == Missing(s, goal, n)
    decreases n
  {
    if n > 0 { MissingSame(s, s', goal, n - 1); }
  }

  lemma {:induction false} MissingLess(s: State, s': State, goal: nat, n: nat, r: nat)
    requires |s'.peers| == |s.peers| && r < |s.peers|
    requires s.peers[r].cycle < goal && s'.peers[r].cycle == s.peers[r].cycle + 1
    requires forall q :: 0 <= q < |s.peers| && q != r ==> s'.peers[q].cycle == s.peers[q].cycle
    ensures Missing(s', goal, n) == Missing(s, goal, n) - if r < n then 1 else 0
    decreases n
  {
    if n > 0 { MissingLess(s, s', goal, n - 1, r); }
  }

  lemma Extend(c: Config, steps: seq<Step>, s: State, st: Step)
    requires ValidConfig(c) && Reaches(c, steps, s) && Enabled(c, s, st)
    ensures Reaches(c, steps + [st], Apply(c, s, st))
  {
    var all := steps + [st];
    assert all[..|all| - 1] == steps;
  }

  /** Unless all is done, the rank furthest behind can be moved on: started, or its cycle advanced. */
  lemma Advance(c: Config, s: State, goal: nat) returns (st: Step)
    requires ValidConfig(c) && Inv(c, s) && Within(s, goal) && !AllAt(s, goal)
    ensures Enabled(c, s, st) && Within(Apply(c, s, st), goal)
    ensures var s' := Apply(c, s, st);
      || Missing(s', goal, c.ranks) < Missing(s, goal, c.ranks)
      || (Missing(s', goal, c.ranks) == Missing(s, goal, c.ranks) && Work(c, s') < Work(c, s))
  {
    var r := FurthestBehind(s, c.ranks);
    if s.peers[r].cycle == goal {
      r :| 0 <= r < |s.peers| && !(s.peers[r].cycle == goal && !s.peers[r].active);
    }
    if s.peers[r].active {
      st := Progress(c, s, r);
      InnerWorks(c, s, st);
      MissingSame(s, Apply(c, s, st), goal, c.ranks);
    } else {
      st := Start(r);
      MissingLess(s, Apply(c, s, st), goal, c.ranks, r);
    }
  }

  lemma GoOn(c: Config, steps: seq<Step>, s: State, goal: nat) returns (st: Step, next: State)
    requires ValidConfig(c) && Reaches(c, steps, s) && Within(s, goal) && !AllAt(s, goal)
    ensures Reaches(c, steps + [st], next) && Within(next, goal)
    ensures Missing(next, goal, c.ranks) < Missing(s, goal, c.ranks)
      || (Missing(next, goal, c.ranks) == Missing(s, goal, c.ranks) && Work(c, next) < Work(c, s))
  {
    ReachableOk(c, steps, s);
    st := Advance(c, s, goal);
    next := Apply(c, s, st);
    Extend(c, steps, s, st);
  }

  lemma {:induction false} CompletesWithin(c: Config, steps: seq<Step>, s: State, goal: nat, missing: nat, work: nat)
      returns (all: seq<Step>, s': State)
    requires ValidConfig(c) && Reaches(c, steps, s) && Within(s, goal)
    requires missing == Missing(s, goal, c.ranks) && work == Work(c, s)
    ensures steps <= all && Reaches(c, all, s') && AllAt(s', goal)
    decreases missing, work
  {
    if AllAt(s, goal) {
      return steps, s;
    }
    var st, next := GoOn(c, steps, s, goal);
    all, s' := CompletesWithin(c, steps + [st], next, goal, Missing(next, goal, c.ranks), Work(c, next));
  }

  /**
   Whatever has happened so far, the ring can be run on until every rank has completed any number
   of cycles no rank is past yet, even if every send completes only when matched.
   */
  lemma CyclesComplete(c: Config, steps: seq<Step>, s: State, goal: nat) returns (all: seq<Step>, s': State)
    requires ValidConfig(c) && Reaches(c, steps, s) && Within(s, goal)
    ensures steps <= all && Reaches(c, all, s') && AllAt(s', goal)
  {
    all, s' := CompletesWithin(c, steps, s, goal, Missing(s, goal, c.ranks), Work(c, s));
  }
}
