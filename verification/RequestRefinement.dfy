/**
 The request objects behind the runs: starting a send, a receive or a reduction is a launch whose
 callbacks hold every managed buffer the library was given, and what the methods of a request do to
 it is what the steps do to its counterpart.
 */
module RequestRefinement {
  import opened Common
  import opened MixedRadix
  import opened StridedView
  import opened Pigeonhole
  import R = Requests
  import M = RequestRuns
  import N = RequestSteps
  import P2P = PointToPoint
  import D = Reduce

  /** The number each array goes by in a run. */
  type Names = map<array<int>, nat>

  ghost predicate Named(cbs: seq<R.Callback>, names: Names) {
    forall k :: 0 <= k < |cbs| ==> R.Arrays(cbs[k]) <= names.Keys
  }

  ghost function NamesOf(arrays: set<array<int>>, names: Names): (r: set<nat>)
    requires arrays <= names.Keys
    ensures forall a :: a in arrays ==> names[a] in r
  {
    set a | a in arrays :: names[a]
  }

  /** What each callback of an object keeps alive. */
  ghost function Captured(cbs: seq<R.Callback>, names: Names): (r: seq<set<nat>>)
    requires Named(cbs, names)
    ensures |r| == |cbs| && forall k :: 0 <= k < |r| ==> r[k] == NamesOf(R.Arrays(cbs[k]), names)
  {
    if cbs == [] then []
    else Captured(cbs[..|cbs| - 1], names) + [NamesOf(R.Arrays(cbs[|cbs| - 1]), names)]
  }

  function HeldBy(cbs: seq<M.Callback>): (r: seq<set<nat>>)
    ensures |r| == |cbs| && forall k :: 0 <= k < |r| ==> r[k] == cbs[k].held
  {
    if cbs == [] then [] else HeldBy(cbs[..|cbs| - 1]) + [cbs[|cbs| - 1].held]
  }

  /** What the library says of a request object. */
  datatype Status = Inactive | UnderWay | Done

  function StatusOf(req: R.Request): Status
    reads req`handle, req.handle
  {
    if req.handle == null then Inactive else if req.handle.complete then Done else UnderWay
  }

  /** Request r of the run has a handle to an operation of this status, and callbacks that hold what these capture. */
  ghost predicate Stands(status: Status, cbs: seq<R.Callback>, s: M.State, r: nat, names: Names) {
    && r in s.reqs && Named(cbs, names)
    && (status == Inactive <==> s.reqs[r].handle == None)
    && (status != Inactive ==>
          s.reqs[r].handle.value < |s.ops| && (s.ops[s.reqs[r].handle.value].complete <==> status == Done))
    && HeldBy(s.reqs[r].callbacks) == Captured(cbs, names)
  }

  ghost predicate Agrees(req: R.Request, s: M.State, r: nat, names: Names)
    reads req, req.handle
  {
    Stands(StatusOf(req), req.callbacks, s, r, names)
  }

  /** Request r of the run stands for the object. */
  ghost predicate Matches(req: R.Request, s: M.State, r: nat, names: Names)
    reads req, req.handle
  {
    M.Usable(s, r) && Agrees(req, s, r, names)
  }

  // ---------------------------------------------------------------- starting an operation

  /** Every one of the arrays is captured by a callback. */
  ghost predicate AllHeld(cbs: seq<R.Callback>, given: set<array<int>>) {
    forall a :: a in given ==> exists k :: 0 <= k < |cbs| && a in R.Arrays(cbs[k])
  }

  lemma HeldAt(cbs: seq<R.Callback>, k: nat, a: array<int>)
    requires k < |cbs| && a in R.Arrays(cbs[k])
    ensures AllHeld(cbs, {a})
  {}

  /** Constructing request r and launching an operation with these buffers makes it stand for the object. */
  ghost predicate Launches(req: R.Request, given: set<array<int>>, s: M.State, r: nat, names: Names)
    requires Named(req.callbacks, names) && given <= names.Keys
    reads req, req.handle
  {
    var m, st := M.Constructed(s, r), M.Launch(r, NamesOf(given, names), Captured(req.callbacks, names));
    && M.Enabled(s, M.Construct(r)) && M.Enabled(m, st)
    && Matches(req, M.Apply(m, st), r, names)
  }

  lemma RegisterHeld(s: M.State, r: nat, held: set<nat>)
    requires r in s.reqs
    ensures var q, q' := s.reqs[r], M.Register(s, r, held).reqs[r];
      && q'.handle == q.handle && q'.usable == q.usable
      && HeldBy(q'.callbacks) == HeldBy(q.callbacks) + [held]
  {
    var q := s.reqs[r];
    assert (q.callbacks + [M.NextCallback(s, r, held)])[..|q.callbacks|] == q.callbacks;
  }

  lemma {:induction false} RegisteredHeld(s: M.State, r: nat, holds: seq<set<nat>>)
    requires r in s.reqs
    ensures var s' := M.RegisterAll(s, r, holds);
      && s'.ops == s.ops && s'.reqs[r].handle == s.reqs[r].handle && s'.reqs[r].usable == s.reqs[r].usable
      && HeldBy(s'.reqs[r].callbacks) == HeldBy(s.reqs[r].callbacks) + holds
    decreases |holds|
  {
    if holds != [] {
      var front, last := holds[..|holds| - 1], holds[|holds| - 1];
      RegisteredHeld(s, r, front);
      RegisterHeld(M.RegisterAll(s, r, front), r, last);
      assert holds == front + [last];
    }
  }

  lemma CapturedCovers(cbs: seq<R.Callback>, given: set<array<int>>, names: Names)
    requires Named(cbs, names) && given <= names.Keys && AllHeld(cbs, given)
    ensures M.Covers(Captured(cbs, names), NamesOf(given, names))
  {
    forall b | b in NamesOf(given, names) ensures exists k :: 0 <= k < |cbs| && b in Captured(cbs, names)[k] {
      var a :| a in given && names[a] == b;
      var k :| 0 <= k < |cbs| && a in R.Arrays(cbs[k]);
      assert b in Captured(cbs, names)[k];
    }
  }

  lemma LaunchMatches(req: R.Request, given: set<array<int>>, s: M.State, r: nat, names: Names)
    requires r !in s.reqs && req.handle != null && !req.handle.complete
    requires Named(req.callbacks, names) && given <= names.Keys && AllHeld(req.callbacks, given)
    ensures Launches(req, given, s, r, names)
  {
    var holds := Captured(req.callbacks, names);
    var m := M.Begin(M.Constructed(s, r), r, NamesOf(given, names));
    CapturedCovers(req.callbacks, given, names);
    RegisteredHeld(m, r, holds);
    assert HeldBy(m.reqs[r].callbacks) + holds == holds;
  }

  /** The managed buffers a send gives to the library. */
  function SendGiven(sv: View, buf: array<int>, managed: bool): set<array<int>>
    requires Valid(sv)
  {
    if Contiguous(sv) && !managed then {} else {buf}
  }

  lemma SentHeld(sv: View, buf: array<int>, mem: array<int>, managed: bool)
    requires Valid(sv) && (Contiguous(sv) ==> buf == mem)
    ensures AllHeld(P2P.Sent(sv, buf, mem, managed), SendGiven(sv, buf, managed))
  {
    var cbs := P2P.Sent(sv, buf, mem, managed);
    if !(Contiguous(sv) && !managed) {
      assert cbs[0] == R.Retain(buf);
      HeldAt(cbs, 0, buf);
    }
  }

  method Isend(mem: array<int>, sv: View, layout: Layout, managed: bool, ghost s: M.State, ghost r: nat)
      returns (req: R.Request)
    requires Fits(sv, mem.Length) && r !in s.reqs
    ensures req.handle != null
    ensures forall names | Named(req.callbacks, names) && SendGiven(sv, req.handle.buf, managed) <= names.Keys ::
      Launches(req, SendGiven(sv, req.handle.buf, managed), s, r, names)
    ensures managed ==> AllHeld(req.callbacks, {mem})
  {
    req := P2P.Isend(mem, sv, layout, managed);
    ghost var given := SendGiven(sv, req.handle.buf, managed);
    SentHeld(sv, req.handle.buf, mem, managed);
    if managed { HeldAt(req.callbacks, |req.callbacks| - 1, mem); }
    forall names | Named(req.callbacks, names) && given <= names.Keys ensures Launches(req, given, s, r, names) {
      LaunchMatches(req, given, s, r, names);
    }
  }

  /** The managed buffers a receive gives to the library: the view, or the staging buffer. */
  function RecvGiven(rv: View, buf: array<int>, managed: bool): set<array<int>>
    requires Valid(rv)
  {
    if Contiguous(rv) && !managed then {} else {buf}
  }

  method Irecv(mem: array<int>, rv: View, layout: Layout, managed: bool, ghost s: M.State, ghost r: nat)
      returns (req: R.Request)
    requires Fits(rv, mem.Length) && r !in s.reqs
    ensures req.handle != null
    ensures forall names | Named(req.callbacks, names) && RecvGiven(rv, req.handle.buf, managed) <= names.Keys ::
      Launches(req, RecvGiven(rv, req.handle.buf, managed), s, r, names)
    ensures !Contiguous(rv) ==> AllHeld(req.callbacks, {mem, req.handle.buf})
  {
    req := P2P.Irecv(mem, rv, layout, managed);
    ghost var given := RecvGiven(rv, req.handle.buf, managed);
    if given != {} {
      assert req.handle.buf in R.Arrays(req.callbacks[0]);
      HeldAt(req.callbacks, 0, req.handle.buf);
    }
    forall names | Named(req.callbacks, names) && given <= names.Keys ensures Launches(req, given, s, r, names) {
      LaunchMatches(req, given, s, r, names);
    }
  }

  /** The managed buffers a reduction gives to the library, for sending and for receiving. */
  function ReduceGiven(sv: View, sbuf: array<int>, rv: View, rbuf: array<int>, role: D.Role,
                       managedSend: bool, managedRecv: bool): set<array<int>>
    requires Valid(sv) && Valid(rv)
  {
    SendGiven(sv, sbuf, managedSend) + if D.Staged(rv, role) || managedRecv then {rbuf} else {}
  }

  lemma HeldJoin(xs: seq<R.Callback>, ys: seq<R.Callback>, a: set<array<int>>, b: set<array<int>>)
    requires AllHeld(xs, a) && AllHeld(ys, b)
    ensures AllHeld(xs + ys, a + b)
  {
    var all := xs + ys;
    forall x | x in a + b ensures exists k :: 0 <= k < |all| && x in R.Arrays(all[k]) {
      if x in a {
        var k :| 0 <= k < |xs| && x in R.Arrays(xs[k]);
        assert x in R.Arrays(all[k]);
      } else {
        var k :| 0 <= k < |ys| && x in R.Arrays(ys[k]);
        assert x in R.Arrays(all[|xs| + k]);
      }
    }
  }

  lemma ReducedHeld(sv: View, sbuf: array<int>, smem: array<int>, rv: View, rl: Layout, rbuf: array<int>, rmem: array<int>,
                    role: D.Role, managedSend: bool, managedRecv: bool)
    requires Valid(sv) && Valid(rv) && (Contiguous(sv) ==> sbuf == smem) && (!D.Staged(rv, role) ==> rbuf == rmem)
    ensures AllHeld((if D.Staged(rv, role) then [R.Unpack(rmem, rv, rl, rbuf)] else [])
                    + D.Retained(sv, sbuf, smem, rmem, managedSend, managedRecv),
                    ReduceGiven(sv, sbuf, rv, rbuf, role, managedSend, managedRecv))
  {
    var first := if D.Staged(rv, role) then [R.Unpack(rmem, rv, rl, rbuf)] else [];
    var last := if managedRecv then [R.Retain(rmem)] else [];
    var recv := if managedRecv then {rmem} else {};
    var staged := if D.Staged(rv, role) then {rbuf} else {};
    SentHeld(sv, sbuf, smem, managedSend);
    if D.Staged(rv, role) { HeldAt(first, 0, rbuf); }
    if managedRecv { HeldAt(last, 0, rmem); }
    HeldJoin(P2P.Sent(sv, sbuf, smem, managedSend), last, SendGiven(sv, sbuf, managedSend), recv);
    HeldJoin(first, P2P.Sent(sv, sbuf, smem, managedSend) + last, staged, SendGiven(sv, sbuf, managedSend) + recv);
    assert ReduceGiven(sv, sbuf, rv, rbuf, role, managedSend, managedRecv)
        <= staged + (SendGiven(sv, sbuf, managedSend) + recv);
  }

  method Ireduce(smem: array<int>, sv: View, sl: Layout, rmem: array<int>, rv: View, rl: Layout, role: D.Role,
                 managedSend: bool, managedRecv: bool, ghost s: M.State, ghost r: nat)
      returns (req: R.Request, given: R.Operation)
    requires D.Suitable(sv, smem.Length, rv, rmem.Length, role) && r !in s.reqs
    ensures req.handle != null
    ensures var buffers := ReduceGiven(sv, given.buf, rv, req.handle.buf, role, managedSend, managedRecv);
      forall names | Named(req.callbacks, names) && buffers <= names.Keys :: Launches(req, buffers, s, r, names)
  {
    req, given := D.Ireduce(smem, sv, sl, rmem, rv, rl, role, managedSend, managedRecv);
    ghost var buffers := ReduceGiven(sv, given.buf, rv, req.handle.buf, role, managedSend, managedRecv);
    ReducedHeld(sv, given.buf, smem, rv, rl, req.handle.buf, rmem, role, managedSend, managedRecv);
    forall names | Named(req.callbacks, names) && buffers <= names.Keys ensures Launches(req, buffers, s, r, names) {
      LaunchMatches(req, buffers, s, r, names);
    }
  }

  // ---------------------------------------------------------------- the other methods

  lemma RegisterStands(status: Status, cbs: seq<R.Callback>, cb: R.Callback, s: M.State, r: nat, names: Names)
    requires M.Usable(s, r) && Stands(status, cbs, s, r, names) && R.Arrays(cb) <= names.Keys
    ensures var s' := M.Register(s, r, NamesOf(R.Arrays(cb), names));
      M.Usable(s', r) && Stands(status, cbs + [cb], s', r, names)
  {
    RegisterHeld(s, r, NamesOf(R.Arrays(cb), names));
    assert (cbs + [cb])[..|cbs|] == cbs;
  }

  method AddCallback(req: R.Request, cb: R.Callback, ghost s: M.State, ghost r: nat, ghost names: Names)
    requires Matches(req, s, r, names) && R.Arrays(cb) <= names.Keys
    modifies req`callbacks
    ensures M.Enabled(s, M.AddCallback(r, NamesOf(R.Arrays(cb), names)))
    ensures Matches(req, M.Apply(s, M.AddCallback(r, NamesOf(R.Arrays(cb), names))), r, names)
  {
    RegisterStands(StatusOf(req), req.callbacks, cb, s, r, names);
    req.AddCallback(cb);
  }

  method ExtendViewLifetime(req: R.Request, held: array<int>, managed: bool,
                            ghost s: M.State, ghost r: nat, ghost names: Names)
    requires Matches(req, s, r, names) && held in names
    modifies req`callbacks
    ensures M.Enabled(s, M.ExtendViewLifetime(r, names[held], managed))
    ensures Matches(req, M.Apply(s, M.ExtendViewLifetime(r, names[held], managed)), r, names)
  {
    if managed { RegisterStands(StatusOf(req), req.callbacks, R.Retain(held), s, r, names); }
    req.ExtendViewLifetime(held, managed);
    assert NamesOf(R.Arrays(R.Retain(held)), names) == {names[held]};
  }

  method Wait(req: R.Request, ghost world: set<array<int>>, ghost s: M.State, ghost r: nat, ghost names: Names)
    requires Matches(req, s, r, names) && M.Enabled(s, M.Wait(r)) && R.CanRun(req.callbacks, world)
    modifies req, R.AllWritten(req.callbacks)
    ensures Matches(req, M.Apply(s, M.Wait(r)), r, names)
    ensures R.Snap(world) == R.RunAll(old(req.callbacks), old(R.Snap(world)))
  {
    req.Wait(world);
  }

  method Test(req: R.Request, ghost world: set<array<int>>, ghost s: M.State, ghost r: nat, ghost names: Names)
      returns (completed: bool)
    requires Matches(req, s, r, names) && R.CanRun(req.callbacks, world)
    modifies req, R.AllWritten(req.callbacks)
    ensures M.Enabled(s, M.Test(r)) && Matches(req, M.Apply(s, M.Test(r)), r, names)
    ensures completed <==> M.Finished(s, r)
  {
    completed := req.Test(world);
  }

  // ---------------------------------------------------------------- several requests

  ghost predicate AllMatch(reqs: seq<R.Request>, s: M.State, rs: seq<nat>, names: Names)
    reads reqs, set q | q in reqs && q.handle != null :: q.handle
  {
    |reqs| == |rs| && forall k :: 0 <= k < |reqs| ==> Matches(reqs[k], s, rs[k], names)
  }

  ghost predicate AllAgree(reqs: seq<R.Request>, s: M.State, rs: seq<nat>, names: Names)
    reads reqs, set q | q in reqs && q.handle != null :: q.handle
  {
    |reqs| == |rs| && forall k :: 0 <= k < |reqs| ==> Agrees(reqs[k], s, rs[k], names)
  }

  ghost predicate StatusesAre(reqs: seq<R.Request>, statuses: seq<Status>)
    reads (set r | r in reqs)`handle, set q | q in reqs && q.handle != null :: q.handle
  {
    |statuses| == |reqs| && forall k :: 0 <= k < |reqs| ==> StatusOf(reqs[k]) == statuses[k]
  }

  lemma {:induction false} Statuses(reqs: seq<R.Request>) returns (statuses: seq<Status>)
    ensures StatusesAre(reqs, statuses)
    decreases |reqs|
  {
    statuses := [];
    if reqs != [] {
      var n := |reqs| - 1;
      statuses := Statuses(reqs[..n]);
      statuses := statuses + [StatusOf(reqs[n])];
    }
  }

  ghost predicate AllStand(statuses: seq<Status>, lists: seq<seq<R.Callback>>, s: M.State, rs: seq<nat>, names: Names) {
    && |statuses| == |lists| == |rs|
    && forall k :: 0 <= k < |rs| ==> Stands(statuses[k], lists[k], s, rs[k], names)
  }

  lemma StandingAgrees(reqs: seq<R.Request>, statuses: seq<Status>, s: M.State, rs: seq<nat>, names: Names)
    requires StatusesAre(reqs, statuses) && AllStand(statuses, R.Lists(reqs), s, rs, names)
    ensures AllAgree(reqs, s, rs, names)
  {
    forall k | 0 <= k < |reqs| ensures Agrees(reqs[k], s, rs[k], names) {
      assert Stands(statuses[k], R.Lists(reqs)[k], s, rs[k], names);
    }
  }

  lemma MatchingStands(reqs: seq<R.Request>, statuses: seq<Status>, s: M.State, rs: seq<nat>, names: Names)
    requires StatusesAre(reqs, statuses) && AllMatch(reqs, s, rs, names)
    ensures AllStand(statuses, R.Lists(reqs), s, rs, names) && forall k :: 0 <= k < |rs| ==> M.Usable(s, rs[k])
  {
    forall k | 0 <= k < |rs| ensures M.Usable(s, rs[k]) && Stands(statuses[k], R.Lists(reqs)[k], s, rs[k], names) {
      assert Matches(reqs[k], s, rs[k], names);
    }
  }

  lemma ClearedStands(status: Status, cbs: seq<R.Callback>, s: M.State, s': M.State, r: nat, names: Names)
    requires Stands(status, cbs, s, r, names) && r in s'.reqs && s'.ops == s.ops && s'.reqs[r] == N.Completed(s.reqs[r])
    ensures Stands(status, [], s', r, names)
  {}

  lemma AllFinished(reqs: seq<R.Request>, s: M.State, rs: seq<nat>, names: Names)
    requires AllMatch(reqs, s, rs, names) && forall r :: r in rs ==> M.Finished(s, r)
    ensures forall q :: q in reqs ==> q.handle != null ==> q.handle.complete
  {
    forall q | q in reqs ensures q.handle != null ==> q.handle.complete {
      var k :| 0 <= k < |reqs| && reqs[k] == q;
      assert Matches(reqs[k], s, rs[k], names) && rs[k] in rs;
    }
  }

  /** All lists are empty. */
  predicate NoneLeft(lists: seq<seq<R.Callback>>) {
    forall k :: 0 <= k < |lists| ==> lists[k] == []
  }

  lemma WaitAllStands(statuses: seq<Status>, lists: seq<seq<R.Callback>>, lists': seq<seq<R.Callback>>,
                      s: M.State, rs: seq<nat>, names: Names)
    requires M.Enabled(s, M.WaitAll(rs)) && AllStand(statuses, lists, s, rs, names)
    requires |lists'| == |lists| && NoneLeft(lists')
    ensures AllStand(statuses, lists', M.Apply(s, M.WaitAll(rs)), rs, names)
  {
    var _ := N.WaitAllStep(s, rs);
    forall k | 0 <= k < |rs| ensures Stands(statuses[k], lists'[k], M.Apply(s, M.WaitAll(rs)), rs[k], names) {
      assert rs[k] in rs;
      ClearedStands(statuses[k], lists[k], s, M.Apply(s, M.WaitAll(rs)), rs[k], names);
    }
  }

  /** What wait_all leaves of the objects: their statuses, and no callbacks. */
  method RunAllLists(reqs: seq<R.Request>, ghost world: set<array<int>>, ghost statuses: seq<Status>)
    requires R.DistinctRequests(reqs) && R.Runnable(R.Lists(reqs), world) && StatusesAre(reqs, statuses)
    requires forall q :: q in reqs ==> q.handle != null ==> q.handle.complete
    modifies (set r | r in reqs)`callbacks, R.AllWritten(R.Flatten(R.Lists(reqs)))
    ensures StatusesAre(reqs, statuses) && NoneLeft(R.Lists(reqs))
    ensures R.CanRun(old(R.Flatten(R.Lists(reqs))), world)
    ensures R.Snap(world) == R.RunAll(old(R.Flatten(R.Lists(reqs))), old(R.Snap(world)))
  {
    R.WaitAll(reqs, world);
    forall k | 0 <= k < |reqs| ensures R.Lists(reqs)[k] == [] { assert reqs[k] in reqs; }
  }

  /** wait_all on the objects is the waiting step of the runs; the handles it leaves are stale. */
  method WaitAll(reqs: seq<R.Request>, ghost world: set<array<int>>,
                 ghost s: M.State, ghost rs: seq<nat>, ghost names: Names)
    requires R.DistinctRequests(reqs) && AllMatch(reqs, s, rs, names) && M.Enabled(s, M.WaitAll(rs))
    requires R.Runnable(R.Lists(reqs), world)
    modifies (set r | r in reqs)`callbacks, R.AllWritten(R.Flatten(R.Lists(reqs)))
    ensures AllAgree(reqs, M.Apply(s, M.WaitAll(rs)), rs, names)
    ensures R.CanRun(old(R.Flatten(R.Lists(reqs))), world)
    ensures R.Snap(world) == R.RunAll(old(R.Flatten(R.Lists(reqs))), old(R.Snap(world)))
  {
    ghost var lists := R.Lists(reqs);
    ghost var statuses := Statuses(reqs);
    AllFinished(reqs, s, rs, names);
    MatchingStands(reqs, statuses, s, rs, names);
    RunAllLists(reqs, world, statuses);
    WaitAllStands(statuses, lists, R.Lists(reqs), s, rs, names);
    StandingAgrees(reqs, statuses, M.Apply(s, M.WaitAll(rs)), rs, names);
  }

  predicate NoneActive(statuses: seq<Status>) {
    forall k :: 0 <= k < |statuses| ==> statuses[k] == Inactive
  }

  lemma IdleStatuses(reqs: seq<R.Request>, statuses: seq<Status>)
    requires StatusesAre(reqs, statuses)
    ensures R.Idle(reqs) <==> NoneActive(statuses)
  {
    if NoneActive(statuses) {
      forall q | q in reqs ensures q.handle == null {
        var k :| 0 <= k < |reqs| && reqs[k] == q;
        assert StatusOf(reqs[k]) == statuses[k];
      }
    }
    if R.Idle(reqs) {
      forall k | 0 <= k < |statuses| ensures statuses[k] == Inactive {
        assert reqs[k] in reqs && StatusOf(reqs[k]) == statuses[k];
      }
    }
  }

  /** What wait_any leaves of the objects: their statuses, and one list cleared. */
  method RunOneList(reqs: seq<R.Request>, ghost world: set<array<int>>, ghost statuses: seq<Status>)
      returns (index: Option<nat>)
    requires R.DistinctRequests(reqs) && R.Runnable(R.Lists(reqs), world) && StatusesAre(reqs, statuses)
    requires !R.Idle(reqs) ==> exists q :: q in reqs && R.Finished(q)
    modifies (set r | r in reqs)`callbacks, R.AllWritten(R.Flatten(R.Lists(reqs)))
    ensures StatusesAre(reqs, statuses)
    ensures index == None <==> NoneActive(statuses)
    ensures index == None ==> R.Lists(reqs) == old(R.Lists(reqs))
    ensures index.Some? ==>
      && index.value < |statuses| && statuses[index.value] == Done
      && R.Lists(reqs) == old(R.Lists(reqs))[index.value := []]
  {
    IdleStatuses(reqs, statuses);
    index := R.WaitAny(reqs, world);
  }

  lemma WaitAnyStands(statuses: seq<Status>, lists: seq<seq<R.Callback>>, s: M.State, rs: seq<nat>, k: nat, names: Names)
    requires AllStand(statuses, lists, s, rs, names) && M.Enabled(s, M.WaitAny(rs, k))
    ensures AllStand(statuses, lists[k := []], M.Apply(s, M.WaitAny(rs, k)), rs, names)
  {
    var s' := M.Apply(s, M.WaitAny(rs, k));
    N.WaitAnyStep(s, rs, k);
    forall j | 0 <= j < |rs| ensures Stands(statuses[j], lists[k := []][j], s', rs[j], names) {
      if j == k { ClearedStands(statuses[j], lists[j], s, s', rs[j], names); }
    }
  }

  lemma PickedEnabled(statuses: seq<Status>, lists: seq<seq<R.Callback>>, s: M.State, rs: seq<nat>, k: nat, names: Names)
    requires AllStand(statuses, lists, s, rs, names) && Distinct(rs) && forall j :: 0 <= j < |rs| ==> M.Usable(s, rs[j])
    requires k < |rs| && statuses[k] == Done
    ensures M.Enabled(s, M.WaitAny(rs, k))
  {}

  lemma NoneStands(statuses: seq<Status>, lists: seq<seq<R.Callback>>, s: M.State, rs: seq<nat>, names: Names)
    requires AllStand(statuses, lists, s, rs, names)
    ensures NoneActive(statuses) <==> forall k :: 0 <= k < |rs| ==> s.reqs[rs[k]].handle == None
  {
    forall k | 0 <= k < |rs| ensures statuses[k] == Inactive <==> s.reqs[rs[k]].handle == None {
      assert Stands(statuses[k], lists[k], s, rs[k], names);
    }
  }

  /** wait_any on the objects is the step for the request it picks; it picks none only if none stands for an operation. */
  method WaitAny(reqs: seq<R.Request>, ghost world: set<array<int>>,
                 ghost s: M.State, ghost rs: seq<nat>, ghost names: Names)
      returns (index: Option<nat>)
    requires R.DistinctRequests(reqs) && Distinct(rs) && AllMatch(reqs, s, rs, names)
    requires !R.Idle(reqs) ==> exists q :: q in reqs && R.Finished(q)
    requires R.Runnable(R.Lists(reqs), world)
    modifies (set r | r in reqs)`callbacks, R.AllWritten(R.Flatten(R.Lists(reqs)))
    ensures index == None <==> forall k :: 0 <= k < |rs| ==> s.reqs[rs[k]].handle == None
    ensures index == None ==> AllAgree(reqs, s, rs, names)
    ensures index.Some? ==>
      && M.Enabled(s, M.WaitAny(rs, index.value))
      && AllAgree(reqs, M.Apply(s, M.WaitAny(rs, index.value)), rs, names)
  {
    ghost var lists := R.Lists(reqs);
    ghost var statuses := Statuses(reqs);
    MatchingStands(reqs, statuses, s, rs, names);
    NoneStands(statuses, lists, s, rs, names);
    index := RunOneList(reqs, world, statuses);
    if index.Some? {
      PickedEnabled(statuses, lists, s, rs, index.value, names);
      WaitAnyStands(statuses, lists, s, rs, index.value, names);
      StandingAgrees(reqs, statuses, M.Apply(s, M.WaitAny(rs, index.value)), rs, names);
    } else {
      StandingAgrees(reqs, statuses, s, rs, names);
    }
  }
}
