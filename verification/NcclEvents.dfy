/**
 The CUDA events of NCCL requests: created when the state of a stream is captured, destroyed when
 another is captured or the request is destroyed. The defaulted moves copy the event, so the
 moved-from request keeps it, and a request assigned over forgets its own.
 */
module NcclEvents {
  import opened Common

  /** The CUDA runtime: how many events were created, and which were destroyed, in order. */
  datatype Runtime = Runtime(created: nat, destroyed: seq<nat>)

  class Cuda {
    var state: Runtime

    constructor ()
      ensures state == Runtime(0, [])
    {
      state := Runtime(0, []);
    }

    method EventCreate() returns (event: nat)
      modifies this
      ensures event == old(state).created && state == old(state).(created := old(state).created + 1)
    {
      event := state.created;
      state := state.(created := state.created + 1);
    }

    method EventDestroy(event: nat)
      modifies this
      ensures state == old(state).(destroyed := old(state).destroyed + [event])
    {
      state := state.(destroyed := state.destroyed + [event]);
    }
  }

  function Destroyed(event: Option<nat>, m: Runtime): Runtime {
    if event.Some? then m.(destroyed := m.destroyed + [event.value]) else m
  }

  class Request {
    var event: Option<nat>

    constructor ()
      ensures event == None
    {
      event := None;
    }

    constructor Move(other: Request)
      ensures event == other.event
    {
      event := other.event;
    }

    method Assign(other: Request)
      modifies this
      ensures event == old(other.event)
    {
      event := other.event;
    }

    method CaptureStreamState(cuda: Cuda)
      modifies this, cuda
      ensures event == Some(old(cuda.state).created)
      ensures cuda.state == Destroyed(old(event), old(cuda.state)).(created := old(cuda.state).created + 1)
    {
      if event.Some? {
        cuda.EventDestroy(event.value);
      }
      var fresh_ := cuda.EventCreate();
      event := Some(fresh_);
    }

    /** The destructor. */
    method Destroy(cuda: Cuda)
      modifies cuda
      ensures cuda.state == Destroyed(event, old(cuda.state)) && event == old(event)
    {
      if event.Some? {
        cuda.EventDestroy(event.value);
      }
    }
  }

  // ---------------------------------------------------------------- whole runs

  type Events = map<nat, Option<nat>>

  /** copied, overwritten: (history) the events of requests when they were moved from, or assigned over. */
  datatype State = State(requests: Events, cuda: Runtime, copied: seq<nat>, overwritten: seq<nat>)

  datatype Step =
    | Construct(r: nat)
    | Capture(r: nat)
    | MoveConstruct(from: nat, to: nat)
    | MoveAssign(from: nat, to: nat)
    | Destroy(r: nat)

  function Init(): State {
    State(map[], Runtime(0, []), [], [])
  }

  predicate Enabled(s: State, st: Step) {
    match st
    case Construct(r) => r !in s.requests
    case Capture(r) => r in s.requests
    case MoveConstruct(from, to) => from in s.requests && to !in s.requests
    case MoveAssign(from, to) => from in s.requests && to in s.requests
    case Destroy(r) => r in s.requests
  }

  /** The list with the event added, if there is one. */
  function Noted(log: seq<nat>, event: Option<nat>): seq<nat> {
    if event.Some? then log + [event.value] else log
  }

  /** Each step does to the request and the runtime what the member of the class does. */
  function Apply(s: State, st: Step): State
    requires Enabled(s, st)
  {
    var rs, m := s.requests, s.cuda;
    match st
    case Construct(r) => s.(requests := rs[r := None])
    case Capture(r) =>
      s.(requests := rs[r := Some(m.created)], cuda := Destroyed(rs[r], m).(created := m.created + 1))
    case MoveConstruct(from, to) => s.(requests := rs[to := rs[from]], copied := Noted(s.copied, rs[from]))
    case MoveAssign(from, to) =>
      s.(requests := rs[to := rs[from]], copied := Noted(s.copied, rs[from]),
         overwritten := Noted(s.overwritten, rs[to]))
    case Destroy(r) => s.(requests := rs - {r}, cuda := Destroyed(rs[r], m))
  }

  ghost predicate Reaches(steps: seq<Step>, s: State)
    decreases |steps|
  {
    if steps == [] then s == Init()
    else
      var front, last := steps[..|steps| - 1], steps[|steps| - 1];
      exists p :: Reaches(front, p) && Enabled(p, last) && s == Apply(p, last)
  }

  // ---------------------------------------------------------------- conservation

  /** The requests that hold event e. */
  function Holders(rs: Events, e: nat): set<nat> {
    set r | r in rs && rs[r] == Some(e)
  }

  function One(b: bool): nat {
    if b then 1 else 0
  }

  /** Holders and destructions of an event, and its losses, balance its creation and its copies. */
  ghost predicate Balanced(s: State, e: nat) {
    |Holders(s.requests, e)| + Count(s.cuda.destroyed, e) + Count(s.overwritten, e)
      == One(e < s.cuda.created) + Count(s.copied, e)
  }

  /** Only events that were created are held or were copied. */
  ghost predicate Known(s: State) {
    && (forall r :: r in s.requests && s.requests[r].Some? ==> s.requests[r].value < s.cuda.created)
    && (forall e :: e in s.copied ==> e < s.cuda.created)
  }

  lemma HoldersWithout(rs: Events, r: nat, e: nat)
    requires r in rs
    ensures |Holders(rs - {r}, e)| == |Holders(rs, e)| - One(rs[r] == Some(e))
  {
    if rs[r] == Some(e) {
      assert Holders(rs, e) == Holders(rs - {r}, e) + {r};
    } else {
      assert Holders(rs, e) == Holders(rs - {r}, e);
    }
  }

  lemma HoldersNew(rs: Events, r: nat, v: Option<nat>, e: nat)
    requires r !in rs
    ensures |Holders(rs[r := v], e)| == |Holders(rs, e)| + One(v == Some(e))
  {
    HoldersWithout(rs[r := v], r, e);
    assert rs[r := v] - {r} == rs;
  }

  lemma HoldersPut(rs: Events, r: nat, v: Option<nat>, e: nat)
    requires r in rs
    ensures |Holders(rs[r := v], e)| == |Holders(rs, e)| - One(rs[r] == Some(e)) + One(v == Some(e))
  {
    HoldersWithout(rs, r, e);
    HoldersWithout(rs[r := v], r, e);
    assert rs[r := v] - {r} == rs - {r};
  }

  lemma NotedCount(log: seq<nat>, event: Option<nat>, e: nat)
    ensures Count(Noted(log, event), e) == Count(log, e) + One(event == Some(e))
  {
    if event.Some? { CountSnoc(log, e, event.value); }
  }

  lemma DestroyedCount(event: Option<nat>, m: Runtime, e: nat)
    ensures Count(Destroyed(event, m).destroyed, e) == Count(m.destroyed, e) + One(event == Some(e))
  {
    NotedCount(m.destroyed, event, e);
  }

  lemma StepBalanced(s: State, st: Step, e: nat)
    requires Balanced(s, e) && Enabled(s, st)
    ensures Balanced(Apply(s, st), e)
  {
    var rs := s.requests;
    match st
    case Construct(r) => HoldersNew(rs, r, None, e);
    case Capture(r) =>
      HoldersPut(rs, r, Some(s.cuda.created), e);
      DestroyedCount(rs[r], s.cuda, e);
    case MoveConstruct(from, to) =>
      HoldersNew(rs, to, rs[from], e);
      NotedCount(s.copied, rs[from], e);
    case MoveAssign(from, to) =>
      HoldersPut(rs, to, rs[from], e);
      NotedCount(s.copied, rs[from], e);
      NotedCount(s.overwritten, rs[to], e);
    case Destroy(r) =>
      HoldersWithout(rs, r, e);
      DestroyedCount(rs[r], s.cuda, e);
  }

  lemma StepKnown(s: State, st: Step)
    requires Known(s) && Enabled(s, st)
    ensures Known(Apply(s, st))
  {}

  /** In every run the events balance. */
  lemma {:induction false} RunBalanced(steps: seq<Step>, s: State, e: nat)
    requires Reaches(steps, s)
    ensures Balanced(s, e) && Known(s)
    decreases |steps|
  {
    if steps == [] {
      assert Holders(s.requests, e) == {};
    } else {
      var front, last := steps[..|steps| - 1], steps[|steps| - 1];
      var p :| Reaches(front, p) && Enabled(p, last) && s == Apply(p, last);
      RunBalanced(front, p, e);
      StepBalanced(p, last, e);
      StepKnown(p, last);
    }
  }

  // ---------------------------------------------------------------- what it means

  /** Every event that was created has been destroyed exactly once. */
  ghost predicate EachOnce(s: State) {
    forall e: nat :: e < s.cuda.created ==> Count(s.cuda.destroyed, e) == 1
  }

  /** Once all requests are gone an event was destroyed once, once more per copy, once less per overwrite. */
  lemma DestroyedTimes(steps: seq<Step>, s: State, e: nat)
    requires Reaches(steps, s) && s.requests == map[]
    ensures Count(s.cuda.destroyed, e) == One(e < s.cuda.created) + Count(s.copied, e) - Count(s.overwritten, e)
  {
    RunBalanced(steps, s, e);
    assert Holders(s.requests, e) == {};
  }

  /** So each event was destroyed exactly once iff each was overwritten as often as it was copied. */
  lemma OnceTheorem(steps: seq<Step>, s: State)
    requires Reaches(steps, s) && s.requests == map[]
    ensures EachOnce(s) <==> forall e: nat :: e < s.cuda.created ==> Count(s.copied, e) == Count(s.overwritten, e)
  {
    forall e: nat ensures Count(s.cuda.destroyed, e)
      == One(e < s.cuda.created) + Count(s.copied, e) - Count(s.overwritten, e)
    {
      DestroyedTimes(steps, s, e);
    }
  }

  ghost predicate NoAssigns(steps: seq<Step>) {
    forall k :: 0 <= k < |steps| ==> !steps[k].MoveAssign?
  }

  /** The step moves a request that holds an event. */
  predicate MovesFrom(s: State, st: Step) {
    (st.MoveConstruct? || st.MoveAssign?) && st.from in s.requests && s.requests[st.from].Some?
  }

  /** Step k of the run moves a request while it holds an event. */
  ghost predicate MovesHeld(steps: seq<Step>, k: nat) {
    k < |steps| && exists p :: Reaches(steps[..k], p) && MovesFrom(p, steps[k])
  }

  /** A list of steps leads to one state only. */
  lemma {:induction false} Unique(steps: seq<Step>, s: State, t: State)
    requires Reaches(steps, s) && Reaches(steps, t)
    ensures s == t
    decreases |steps|
  {
    if steps != [] {
      var front, last := steps[..|steps| - 1], steps[|steps| - 1];
      var p :| Reaches(front, p) && Enabled(p, last) && s == Apply(p, last);
      var q :| Reaches(front, q) && Enabled(q, last) && t == Apply(q, last);
      Unique(front, p, q);
    }
  }

  lemma MovesHeldFront(steps: seq<Step>, k: nat)
    requires k + 1 < |steps|
    ensures MovesHeld(steps[..|steps| - 1], k) <==> MovesHeld(steps, k)
  {
    assert steps[..|steps| - 1][..k] == steps[..k];
  }

  /** The record of copies is empty exactly if no step moved a request that held an event. */
  lemma {:induction false} CopiedMeans(steps: seq<Step>, s: State)
    requires Reaches(steps, s)
    ensures s.copied == [] <==> forall k: nat :: !MovesHeld(steps, k)
    decreases |steps|
  {
    if steps != [] {
      var n := |steps| - 1;
      var front, last := steps[..n], steps[n];
      var p :| Reaches(front, p) && Enabled(p, last) && s == Apply(p, last);
      CopiedMeans(front, p);
      LastMove(steps, p);
      forall k: nat | k < n ensures MovesHeld(front, k) <==> MovesHeld(steps, k) { MovesHeldFront(steps, k); }
    }
  }

  lemma LastMove(steps: seq<Step>, p: State)
    requires steps != [] && Reaches(steps[..|steps| - 1], p) && Enabled(p, steps[|steps| - 1])
    ensures MovesHeld(steps, |steps| - 1) <==> MovesFrom(p, steps[|steps| - 1])
  {
    var n := |steps| - 1;
    if q :| Reaches(steps[..n], q) && MovesFrom(q, steps[n]) { Unique(steps[..n], p, q); }
  }

  lemma {:induction false} NothingOverwritten(steps: seq<Step>, s: State)
    requires Reaches(steps, s) && NoAssigns(steps)
    ensures s.overwritten == []
    decreases |steps|
  {
    if steps != [] {
      var front, last := steps[..|steps| - 1], steps[|steps| - 1];
      var p :| Reaches(front, p) && Enabled(p, last) && s == Apply(p, last);
      NothingOverwritten(front, p);
    }
  }

  /**
   In runs without move assignment, once all requests are gone, each event was destroyed exactly
   once iff no step moved a request while it held an event. Moving an empty request is harmless.
   */
  lemma MoveTheorem(steps: seq<Step>, s: State)
    requires Reaches(steps, s) && s.requests == map[] && NoAssigns(steps)
    ensures EachOnce(s) <==> forall k: nat :: !MovesHeld(steps, k)
  {
    OnceTheorem(steps, s);
    NothingOverwritten(steps, s);
    CopiedMeans(steps, s);
    RunBalanced(steps, s, 0);
    if s.copied != [] { assert s.copied[0] in s.copied && Count(s.copied, s.copied[0]) > 0; }
  }

  ghost predicate NoMoves(steps: seq<Step>) {
    forall k :: 0 <= k < |steps| ==> !steps[k].MoveConstruct? && !steps[k].MoveAssign?
  }

  /** Without moves no event is destroyed twice, at any time, and in the end each was destroyed exactly once. */
  lemma EventsDestroyedOnce(steps: seq<Step>, s: State, e: nat)
    requires Reaches(steps, s) && NoMoves(steps)
    ensures Count(s.cuda.destroyed, e) <= One(e < s.cuda.created)
    ensures s.requests == map[] ==> Count(s.cuda.destroyed, e) == One(e < s.cuda.created)
  {
    RunBalanced(steps, s, e);
    CopiedMeans(steps, s);
    NothingOverwritten(steps, s);
    forall k: nat ensures !MovesHeld(steps, k) {}
    if s.requests == map[] { DestroyedTimes(steps, s, e); }
  }

  // ---------------------------------------------------------------- two runs

  lemma Extend(steps: seq<Step>, s: State, st: Step) returns (s': State)
    requires Reaches(steps, s) && Enabled(s, st)
    ensures s' == Apply(s, st) && Reaches(steps + [st], s')
  {
    var all := steps + [st];
    assert all[..|all| - 1] == steps;
    s' := Apply(s, st);
  }

  lemma Captured() returns (steps: seq<Step>, s: State)
    ensures Reaches(steps, s) && s == State(map[0 := Some(0)], Runtime(1, []), [], [])
  {
    steps, s := [], Init();
    s := Extend(steps, s, Construct(0));
    steps := steps + [Construct(0)];
    s := Extend(steps, s, Capture(0));
    steps := steps + [Capture(0)];
  }

  /** A moved request and its source both destroy the event. */
  lemma MovedEventTwice() returns (steps: seq<Step>, s: State)
    ensures Reaches(steps, s) && s.requests == map[] && Count(s.cuda.destroyed, 0) == 2
  {
    steps, s := Captured();
    s := Extend(steps, s, MoveConstruct(0, 1));
    steps := steps + [MoveConstruct(0, 1)];
    s := Extend(steps, s, Destroy(0));
    steps := steps + [Destroy(0)];
    s := Extend(steps, s, Destroy(1));
    steps := steps + [Destroy(1)];
    assert s.cuda.destroyed == [0, 0];
  }

  /** A request that is assigned over never destroys its event. */
  lemma AssignedEventLost() returns (steps: seq<Step>, s: State)
    ensures Reaches(steps, s) && s.requests == map[] && s.cuda.created == 1 && Count(s.cuda.destroyed, 0) == 0
  {
    steps, s := Captured();
    s := Extend(steps, s, Construct(1));
    steps := steps + [Construct(1)];
    s := Extend(steps, s, MoveAssign(1, 0));
    steps := steps + [MoveAssign(1, 0)];
    s := Extend(steps, s, Destroy(0));
    steps := steps + [Destroy(0)];
    s := Extend(steps, s, Destroy(1));
    steps := steps + [Destroy(1)];
  }
}
