/** What every reachable state of every interleaving of a neighbour exchange guarantees. */
module ExchangeDelivery {
  import opened MixedRadix
  import opened StridedView
  import opened Network
  import opened NeighbourExchange

  lemma InitOk(c: Config)
    requires ValidConfig(c)
    ensures Inv(c, Init(c))
  {
    InitInv(Ranks(c));
  }

  /** Completing sends lands nothing. */
  lemma GridsKept(c: Config, grids: seq<seq<int>>, done: set<OpId>, done': set<OpId>, returned: set<nat>)
    requires ValidConfig(c) && GridsOk(c, grids, done, returned)
    requires forall id :: id in done' && id !in done ==> id.idx < Slots(c)
    ensures GridsOk(c, grids, done', returned)
  {
    forall r, k | 0 <= r < Ranks(c) && 0 <= k < Slots(c) && Landed(c, done', returned, r, k)
      ensures Filled(c, r, k, grids[r])
    {
      assert Landed(c, done, returned, r, k);
    }
  }

  lemma StagedKept(c: Config, staged: map<OpId, seq<int>>, done: set<OpId>, done': set<OpId>)
    requires StagedOk(c, staged, done)
    requires forall id :: id in done' && id !in done ==> id.idx < Slots(c)
    ensures StagedOk(c, staged, done')
  {}

  lemma ReturnedKept(c: Config, s: State, s': State)
    requires ReturnedOk(c, s) && s.net.done <= s'.net.done
    requires |s'.net.log| == |s.net.log|
    requires forall r :: 0 <= r < |s.net.log| && |s.net.log[r]| == 2 * Slots(c) ==> |s'.net.log[r]| == 2 * Slots(c)
    requires forall r :: r in s'.returned && r !in s.returned ==>
      r < Ranks(c) && r < |s.net.log| && |s.net.log[r]| == 2 * Slots(c) && AllDone(c, s'.net.done, r)
    ensures ReturnedOk(c, s')
  {
    forall r | r in s'.returned ensures AllDone(c, s'.net.done, r) {
      if r in s.returned { assert AllDone(c, s.net.done, r); }
    }
  }

  /** Steps that touch no grid and complete no receive keep what is known about the grids. */
  lemma QuietOk(c: Config, s: State, s': State)
    requires ValidConfig(c) && Inv(c, s) && LogsOk(c, s'.net) && NetInv(s'.net)
    requires s'.grids == s.grids && s'.staged == s.staged && s'.returned == s.returned
    requires StartData(c, s'.packed) && StartData(c, s'.net.wire)
    requires forall r :: 0 <= r < Ranks(c) && |s.net.log[r]| == 2 * Slots(c) ==> |s'.net.log[r]| == 2 * Slots(c)
    requires s.net.done <= s'.net.done && forall id :: id in s'.net.done && id !in s.net.done ==> id.idx < Slots(c)
    ensures Inv(c, s')
  {
    GridsKept(c, s.grids, s.net.done, s'.net.done, s.returned);
    StagedKept(c, s.staged, s.net.done, s'.net.done);
    ReturnedKept(c, s, s');
  }

  lemma PostLogs(c: Config, n: Net, r: nat)
    requires LogsOk(c, n) && r < Ranks(c) && |n.log[r]| < 2 * Slots(c)
    ensures LogsOk(c, Post(n, r, OpAt(c, r, |n.log[r]|)))
  {
    var n' := Post(n, r, OpAt(c, r, |n.log[r]|));
    forall q | 0 <= q < |n'.log| ensures Follows(c, q, n'.log[q]) {
      assert Follows(c, q, n.log[q]);
    }
  }

  lemma PostPacked(c: Config, s: State, r: nat)
    requires ValidConfig(c) && Inv(c, s) && Enabled(c, s, PostNext(r))
    ensures StartData(c, Posting(c, s, r).packed)
  {
    var k := |s.net.log[r]|;
    if k < Slots(c) {
      ReadUnchanged(c, r, k, s.grids[r]);
    }
  }

  lemma PostOk(c: Config, s: State, r: nat)
    requires ValidConfig(c) && Inv(c, s) && Enabled(c, s, PostNext(r))
    ensures Inv(c, Posting(c, s, r))
  {
    var s' := Posting(c, s, r);
    PostInv(s.net, r, OpAt(c, r, |s.net.log[r]|));
    PostLogs(c, s.net, r);
    PostPacked(c, s, r);
    QuietOk(c, s, s');
  }

  lemma InjectOk(c: Config, s: State, id: OpId)
    requires ValidConfig(c) && Inv(c, s) && Enabled(c, s, InjectSend(id))
    ensures Inv(c, Apply(c, s, InjectSend(id)))
  {
    PostedOp(c, s.net, id);
    var s' := Apply(c, s, InjectSend(id));
    ReadUnchanged(c, id.rank, id.idx, s.grids[id.rank]);
    InjectInv(s.net, id, s'.net.wire[id]);
    QuietOk(c, s, s');
  }

  lemma MatchOk(c: Config, s: State, t: Stream)
    requires ValidConfig(c) && Inv(c, s) && Enabled(c, s, MatchHeads(t))
    ensures Inv(c, Apply(c, s, MatchHeads(t)))
  {
    MatchInv(s.net, t);
    QuietOk(c, s, Apply(c, s, MatchHeads(t)));
  }

  lemma SendDoneOk(c: Config, s: State, id: OpId)
    requires ValidConfig(c) && Inv(c, s) && Enabled(c, s, SendDone(id))
    ensures Inv(c, Apply(c, s, SendDone(id)))
  {
    CompleteInv(s.net, id);
    QuietOk(c, s, Apply(c, s, SendDone(id)));
  }

  /** What arrives for a receive is what its slot is to be filled with. */
  lemma Arriving(c: Config, s: State, t: Stream, j: nat)
    requires ValidConfig(c) && LogsOk(c, s.net) && NetInv(s.net) && StartData(c, s.net.wire)
    requires CanCompleteRecv(s.net, t, j)
    ensures var a, b := s.net.sentm[t][j], s.net.recvm[t][j];
      && a.idx < Slots(c) && b.idx == Slots(c) + a.idx && b.rank < Ranks(c)
      && s.net.wire[a] == Expected(c, b.rank, a.idx)
      && NetInv(Complete(s.net, b)) && LogsOk(c, Complete(s.net, b))
  {
    MatchedSlots(c, s.net, t, j);
    var a, b := s.net.sentm[t][j], s.net.recvm[t][j];
    PostedOp(c, s.net, b);
    assert InPairs(s.net, b, t);
    CompleteInv(s.net, b);
  }

  lemma StagedStep(c: Config, staged: map<OpId, seq<int>>, done: set<OpId>, r: nat, k: nat)
    requires StagedOk(c, staged, done) && r < Ranks(c) && k < Slots(c)
    ensures StagedOk(c, staged[OpId(r, Slots(c) + k) := Expected(c, r, k)], done + {OpId(r, Slots(c) + k)})
    ensures RecvRaw(c, k) ==> StagedOk(c, staged, done + {OpId(r, Slots(c) + k)})
  {}

  lemma LandStep(c: Config, grids: seq<seq<int>>, done: set<OpId>, returned: set<nat>, r: nat, k: nat)
    requires ValidConfig(c) && GridsOk(c, grids, done, returned) && r < Ranks(c) && k < Slots(c)
    ensures GridsOk(c, grids[r := Land(c, grids[r], k, Expected(c, r, k))], done + {OpId(r, Slots(c) + k)}, returned)
    ensures !RecvRaw(c, k) ==> GridsOk(c, grids, done + {OpId(r, Slots(c) + k)}, returned)
  {
    LandFills(c, r, k, grids[r]);
    var grids', done' := grids[r := Land(c, grids[r], k, Expected(c, r, k))], done + {OpId(r, Slots(c) + k)};
    forall q, l | 0 <= q < Ranks(c) && 0 <= l < Slots(c) && Landed(c, done', returned, q, l)
      ensures Filled(c, q, l, grids'[q])
      ensures !RecvRaw(c, k) ==> Filled(c, q, l, grids[q])
    {
      if !(q == r && l == k) || !RecvRaw(c, k) {
        assert Landed(c, done, returned, q, l);
      }
    }
  }

  lemma ReceivedOk(c: Config, s: State, b: OpId, data: seq<int>, k: nat)
    requires ValidConfig(c) && Inv(c, s) && b.rank < Ranks(c) && k < Slots(c)
    requires b.idx == Slots(c) + k && data == Expected(c, b.rank, k)
    requires NetInv(Complete(s.net, b)) && LogsOk(c, Complete(s.net, b))
    ensures Inv(c, Receiving(c, s, b, data))
  {
    var r, s' := b.rank, Receiving(c, s, b, data);
    assert b == OpId(r, Slots(c) + k);
    StagedStep(c, s.staged, s.net.done, r, k);
    LandStep(c, s.grids, s.net.done, s.returned, r, k);
    assert s'.net == Complete(s.net, b) && s'.packed == s.packed && s'.returned == s.returned;
    ReturnedKept(c, s, s');
    if RecvRaw(c, k) {
      assert s'.grids == s.grids[r := Land(c, s.grids[r], k, data)] && s'.staged == s.staged;
    } else {
      assert s'.grids == s.grids && s'.staged == s.staged[b := data];
    }
  }

  lemma RecvDoneOk(c: Config, s: State, t: Stream, j: nat)
    requires ValidConfig(c) && Inv(c, s) && CanCompleteRecv(s.net, t, j)
    ensures Inv(c, Receiving(c, s, s.net.recvm[t][j], s.net.wire[s.net.sentm[t][j]]))
  {
    Arriving(c, s, t, j);
    ReceivedOk(c, s, s.net.recvm[t][j], s.net.wire[s.net.sentm[t][j]], s.net.sentm[t][j].idx);
  }

  lemma StagedData(c: Config, staged: map<OpId, seq<int>>, done: set<OpId>, r: nat, k: nat)
    requires StagedOk(c, staged, done) && OpId(r, Slots(c) + k) in done && !RecvRaw(c, k)
    ensures OpId(r, Slots(c) + k) in staged && staged[OpId(r, Slots(c) + k)] == Expected(c, r, k)
  {}

  lemma UnpackStep(c: Config, s: State, r: nat, k: nat)
    requires !RecvRaw(c, k) ==> OpId(r, Slots(c) + k) in s.staged && s.staged[OpId(r, Slots(c) + k)] == Expected(c, r, k)
    ensures UnpackFirst(c, s, r, k + 1)
      == if RecvRaw(c, k) then UnpackFirst(c, s, r, k) else Land(c, UnpackFirst(c, s, r, k), k, Expected(c, r, k))
  {}

  /** The slots received in place, and the first n of the others, are filled. */
  ghost predicate FilledFirst(c: Config, r: nat, n: nat, mem: seq<int>)
    requires ValidConfig(c) && r < Ranks(c)
  {
    Frame(c, r, mem) && forall l :: 0 <= l < Slots(c) && (l < n || RecvRaw(c, l)) ==> Filled(c, r, l, mem)
  }

  lemma LandNext(c: Config, r: nat, n: nat, mem: seq<int>)
    requires ValidConfig(c) && r < Ranks(c) && n < Slots(c) && FilledFirst(c, r, n, mem)
    ensures FilledFirst(c, r, n + 1, Land(c, mem, n, Expected(c, r, n)))
    ensures RecvRaw(c, n) ==> FilledFirst(c, r, n + 1, mem)
  {
    LandFills(c, r, n, mem);
  }

  lemma UnpackNext(c: Config, s: State, r: nat, n: nat, next: nat)
    requires ValidConfig(c) && StagedOk(c, s.staged, s.net.done) && r < Ranks(c) && n < Slots(c) && next == n + 1
    requires AllDone(c, s.net.done, r) && FilledFirst(c, r, n, UnpackFirst(c, s, r, n))
    ensures FilledFirst(c, r, next, UnpackFirst(c, s, r, next))
  {
    assert OpId(r, Slots(c) + n) in s.net.done;
    if !RecvRaw(c, n) { StagedData(c, s.staged, s.net.done, r, n); }
    UnpackStep(c, s, r, n);
    LandNext(c, r, n, UnpackFirst(c, s, r, n));
  }

  lemma {:induction false} UnpackFills(c: Config, s: State, r: nat, n: nat)
    requires ValidConfig(c) && StagedOk(c, s.staged, s.net.done) && r < Ranks(c) && n <= Slots(c)
    requires AllDone(c, s.net.done, r) && FilledFirst(c, r, 0, GridOf(s, r))
    ensures FilledFirst(c, r, n, UnpackFirst(c, s, r, n))
    decreases n
  {
    if n > 0 {
      UnpackFills(c, s, r, n - 1);
      UnpackNext(c, s, r, n - 1, n);
    }
  }

  lemma ReturnGrids(c: Config, s: State, r: nat)
    requires ValidConfig(c) && StagedOk(c, s.staged, s.net.done) && r < Ranks(c)
    requires GridsOk(c, s.grids, s.net.done, s.returned) && AllDone(c, s.net.done, r)
    ensures GridsOk(c, s.grids[r := UnpackFirst(c, s, r, Slots(c))], s.net.done, s.returned + {r})
  {
    forall l | 0 <= l < Slots(c) && RecvRaw(c, l) ensures Filled(c, r, l, GridOf(s, r)) {
      assert OpId(r, Slots(c) + l) in s.net.done;
      assert Landed(c, s.net.done, s.returned, r, l);
    }
    UnpackFills(c, s, r, Slots(c));
    var grids' := s.grids[r := UnpackFirst(c, s, r, Slots(c))];
    forall q, l | 0 <= q < Ranks(c) && 0 <= l < Slots(c) && Landed(c, s.net.done, s.returned + {r}, q, l)
      ensures Filled(c, q, l, grids'[q])
    {
      if q != r { assert Landed(c, s.net.done, s.returned, q, l); }
    }
  }

  lemma ReturnOk(c: Config, s: State, r: nat)
    requires ValidConfig(c) && Inv(c, s) && Enabled(c, s, WaitReturns(r))
    ensures Inv(c, Returning(c, s, r))
  {
    ReturnGrids(c, s, r);
    ReturnedKept(c, s, Returning(c, s, r));
  }

  /** Every step of every rank and of the network keeps the invariant. */
  lemma StepOk(c: Config, s: State, st: Step)
    requires ValidConfig(c) && Inv(c, s) && Enabled(c, s, st)
    ensures Inv(c, Apply(c, s, st))
  {
    match st
    case PostNext(r) => PostOk(c, s, r);
    case InjectSend(id) => InjectOk(c, s, id);
    case MatchHeads(t) => MatchOk(c, s, t);
    case SendDone(id) => SendDoneOk(c, s, id);
    case RecvDone(t, j) => RecvDoneOk(c, s, t, j);
    case WaitReturns(r) => ReturnOk(c, s, r);
  }

  lemma {:induction false} ReachableOk(c: Config, steps: seq<Step>, s: State)
    requires ValidConfig(c) && Reaches(c, steps, s)
    ensures Inv(c, s)
    decreases |steps|
  {
    if steps == [] {
      InitOk(c);
    } else {
      var front, last := steps[..|steps| - 1], steps[|steps| - 1];
      var p :| Reaches(c, front, p) && Enabled(c, p, last) && s == Apply(c, p, last);
      ReachableOk(c, front, p);
      StepOk(c, p, last);
    }
  }

  /** Once a rank's wait has returned, every slot holds what its source rank had in the send view at the start. */
  lemma ExchangeDelivered(c: Config, steps: seq<Step>, s: State, r: nat, k: nat)
    requires ValidConfig(c) && Reaches(c, steps, s) && r in s.returned && k < Slots(c)
    ensures r < Ranks(c) && r < |s.grids| && Filled(c, r, k, s.grids[r])
  {
    ReachableOk(c, steps, s);
    assert AllDone(c, s.net.done, r);
    assert OpId(r, Slots(c) + k) in s.net.done;
    assert Landed(c, s.net.done, s.returned, r, k);
  }

  ghost predicate AllFilled(c: Config, r: nat, mem: seq<int>)
    requires ValidConfig(c) && r < Ranks(c)
  {
    forall k :: 0 <= k < Slots(c) ==> Filled(c, r, k, mem)
  }

  lemma AllDelivered(c: Config, steps: seq<Step>, s: State, r: nat)
    requires ValidConfig(c) && Reaches(c, steps, s) && r in s.returned
    ensures r < Ranks(c) && r < |s.grids| && AllFilled(c, r, s.grids[r])
  {
    ReachableOk(c, steps, s);
    forall k | 0 <= k < Slots(c) ensures Filled(c, r, k, s.grids[r]) {
      ExchangeDelivered(c, steps, s, r, k);
    }
  }

  /** Cells outside the receive views are never touched. */
  lemma ExchangeFrame(c: Config, steps: seq<Step>, s: State, r: nat, a: nat)
    requires ValidConfig(c) && Reaches(c, steps, s) && r < Ranks(c) && a < c.total
    requires forall k :: 0 <= k < Slots(c) ==> !IsReceived(c, k, a)
    ensures r < |s.grids| && |s.grids[r]| == c.total && s.grids[r][a] == c.init[r][a]
  {
    ReachableOk(c, steps, s);
    assert Frame(c, r, s.grids[r]);
  }
}
