/**
 Whole runs over any number of requests: launching operations, registering callbacks, moving and
 destroying requests, and completing them by wait, test, wait_all and wait_any. A request whose
 handle has gone stale (moved from, or completed through a copy of its handle) is not usable.
 */
module RequestRuns {
  import opened Common
  import opened Pigeonhole

  /**
   The serial-th callback registered in the run, the list it was put on, the operation its request
   stood for then, and the managed buffers it keeps alive.
   */
  datatype Callback = Callback(serial: nat, list: nat, op: Option<nat>, held: set<nat>)

  /** A request has a list of its own; when the request is moved the list goes along. */
  datatype Req = Req(handle: Option<nat>, usable: bool, list: nat, callbacks: seq<Callback>)

  /** buffers: the managed buffers the library was given. */
  datatype Operation = Operation(buffers: set<nat>, complete: bool)

  /** What became of a registered callback. */
  datatype Fate = Pending(r: nat) | Executed | Dropped

  /** A callback that ran, and the operation its request stood for when it ran. */
  datatype Ran = Ran(cb: Callback, op: Option<nat>)

  /** log: the callbacks that ran, in order; fates: (history) by serial number; lists: how many there have been. */
  datatype State = State(reqs: map<nat, Req>, ops: seq<Operation>, log: seq<Ran>, fates: seq<Fate>, lists: nat)

  datatype Step =
    | Construct(r: nat)
    | Launch(r: nat, given: set<nat>, holds: seq<set<nat>>)
    | AddCallback(r: nat, held: set<nat>)
    | ExtendViewLifetime(r: nat, buffer: nat, managed: bool)
    | MoveConstruct(src: nat, dst: nat)
    | MoveAssign(src: nat, dst: nat)
    | Destroy(r: nat)
    | OperationCompletes(op: nat)
    | Wait(r: nat)
    | Test(r: nat)
    | WaitAll(rs: seq<nat>)
    | WaitAny(rs: seq<nat>, k: nat)

  function Init(): State {
    State(map[], [], [], [], 0)
  }

  predicate Usable(s: State, r: nat) {
    r in s.reqs && s.reqs[r].usable
  }

  /** The library finds the request inactive or its operation complete. */
  predicate Finished(s: State, r: nat) {
    r in s.reqs && (s.reqs[r].handle.Some? ==> s.reqs[r].handle.value < |s.ops| && s.ops[s.reqs[r].handle.value].complete)
  }

  /** Each of the buffers is among those held. */
  predicate Covers(holds: seq<set<nat>>, given: set<nat>) {
    forall b :: b in given ==> exists k :: 0 <= k < |holds| && b in holds[k]
  }

  ghost predicate Enabled(s: State, st: Step) {
    match st
    case Construct(r) => r !in s.reqs
    case Launch(r, given, holds) => Usable(s, r) && s.reqs[r].handle == None && Covers(holds, given)
    case AddCallback(r, _) => Usable(s, r)
    case ExtendViewLifetime(r, _, _) => Usable(s, r)
    case MoveConstruct(src, dst) => Usable(s, src) && dst !in s.reqs
    case MoveAssign(src, dst) => Usable(s, src) && dst in s.reqs && src != dst
    case Destroy(r) => r in s.reqs
    case OperationCompletes(op) => op < |s.ops|
    case Wait(r) => Usable(s, r) && Finished(s, r)
    case Test(r) => Usable(s, r)
    case WaitAll(rs) => Distinct(rs) && forall r :: r in rs ==> Usable(s, r) && Finished(s, r)
    case WaitAny(rs, k) =>
      && Distinct(rs) && (forall r :: r in rs ==> Usable(s, r))
      && k < |rs| && Usable(s, rs[k]) && s.reqs[rs[k]].handle.Some? && Finished(s, rs[k])
  }

  // ---------------------------------------------------------------- the parts of a step

  function NextCallback(s: State, r: nat, held: set<nat>): Callback
    requires r in s.reqs
  {
    Callback(|s.fates|, s.reqs[r].list, s.reqs[r].handle, held)
  }

  function Register(s: State, r: nat, held: set<nat>): State
    requires r in s.reqs
  {
    var q := s.reqs[r];
    s.(reqs := s.reqs[r := q.(callbacks := q.callbacks + [NextCallback(s, r, held)])], fates := s.fates + [Pending(r)])
  }

  function RegisterAll(s: State, r: nat, holds: seq<set<nat>>): (s': State)
    requires r in s.reqs
    ensures r in s'.reqs
  {
    if holds == [] then s
    else Register(RegisterAll(s, r, holds[..|holds| - 1]), r, holds[|holds| - 1])
  }

  /** The MPI call: the request gets the handle of a new operation on the given buffers. */
  function Begin(s: State, r: nat, given: set<nat>): State
    requires r in s.reqs
  {
    s.(ops := s.ops + [Operation(given, false)], reqs := s.reqs[r := s.reqs[r].(handle := Some(|s.ops|))])
  }

  function Entries(cbs: seq<Callback>, op: Option<nat>): (r: seq<Ran>)
    ensures |r| == |cbs| && forall k :: 0 <= k < |r| ==> r[k] == Ran(cbs[k], op)
  {
    if cbs == [] then [] else [Ran(cbs[0], op)] + Entries(cbs[1..], op)
  }

  /** Runs the callbacks of a request and clears the list; the handle is nulled, or left stale. */
  function Execute(s: State, r: nat, stale: bool): State
    requires r in s.reqs
  {
    var q := s.reqs[r];
    var handle := if stale then q.handle else None;
    s.(reqs := s.reqs[r := Req(handle, q.usable && handle == None, q.list, [])],
       log := s.log + Entries(q.callbacks, q.handle), fates := Replaced(s.fates, Pending(r), Executed))
  }

  function ExecuteAll(s: State, rs: seq<nat>): (s': State)
    requires forall r :: r in rs ==> r in s.reqs
    ensures s'.reqs.Keys == s.reqs.Keys
  {
    if rs == [] then s else Execute(ExecuteAll(s, rs[..|rs| - 1]), rs[|rs| - 1], true)
  }

  /** A request loses its callbacks without running them. */
  function Discard(s: State, r: nat): State
    requires r in s.reqs
  {
    s.(reqs := s.reqs[r := Req(s.reqs[r].handle, false, s.reqs[r].list, [])],
       fates := Replaced(s.fates, Pending(r), Dropped))
  }

  function Remove(s: State, r: nat): State {
    s.(reqs := s.reqs - {r})
  }

  /** The list moves and the source gets a new one; the handle is copied, which leaves the source's own copy stale. */
  function Move(s: State, src: nat, dst: nat): State
    requires src in s.reqs
  {
    var q := s.reqs[src];
    s.(reqs := s.reqs[dst := q][src := Req(q.handle, q.usable && q.handle == None, s.lists, [])],
       fates := Replaced(s.fates, Pending(src), Pending(dst)), lists := s.lists + 1)
  }

  function Constructed(s: State, r: nat): State {
    s.(reqs := s.reqs[r := Req(None, true, s.lists, [])], lists := s.lists + 1)
  }

  ghost function Apply(s: State, st: Step): State
    requires Enabled(s, st)
  {
    match st
    case Construct(r) => Constructed(s, r)
    case Launch(r, given, holds) => RegisterAll(Begin(s, r, given), r, holds)
    case AddCallback(r, held) => Register(s, r, held)
    case ExtendViewLifetime(r, buffer, managed) => if managed then Register(s, r, {buffer}) else s
    case MoveConstruct(src, dst) => Move(s, src, dst)
    case MoveAssign(src, dst) => Move(Discard(s, dst), src, dst)
    case Destroy(r) => Remove(Discard(s, r), r)
    case OperationCompletes(op) => s.(ops := s.ops[op := s.ops[op].(complete := true)])
    case Wait(r) => Execute(s, r, false)
    case Test(r) => if Finished(s, r) then Execute(s, r, false) else s
    case WaitAll(rs) => ExecuteAll(s, rs)
    case WaitAny(rs, k) => Execute(s, rs[k], true)
  }

  ghost predicate Reaches(steps: seq<Step>, s: State)
    decreases |steps|
  {
    if steps == [] then s == Init()
    else
      var front, last := steps[..|steps| - 1], steps[|steps| - 1];
      exists p :: Reaches(front, p) && Enabled(p, last) && s == Apply(p, last)
  }

  // ---------------------------------------------------------------- invariant

  ghost predicate Increasing(cbs: seq<Callback>) {
    forall i, j :: 0 <= i < j < |cbs| ==> cbs[i].serial < cbs[j].serial
  }

  /** The pending callbacks of a request, in registration order, all for the operation it stands for. */
  ghost predicate ListOk(q: Req, r: nat, fates: seq<Fate>) {
    && Increasing(q.callbacks)
    && (forall k {:trigger q.callbacks[k]} :: 0 <= k < |q.callbacks| ==>
          && q.callbacks[k].serial < |fates| && fates[q.callbacks[k].serial] == Pending(r)
          && q.callbacks[k].list == q.list
          && (q.callbacks[k].op.Some? ==> q.usable && q.callbacks[k].op == q.handle))
  }

  predicate Holds(cbs: seq<Callback>, b: nat) {
    exists k :: 0 <= k < |cbs| && b in cbs[k].held
  }

  /** Every buffer the library was given is held by the request that stands for the operation. */
  ghost predicate BuffersHeld(s: State, r: nat) {
    Usable(s, r) && s.reqs[r].handle.Some? && s.reqs[r].handle.value < |s.ops| ==>
      forall b :: b in s.ops[s.reqs[r].handle.value].buffers ==> Holds(s.reqs[r].callbacks, b)
  }

  /** A callback that ran is so recorded; the operation it ran for is complete, and is the one it was registered for. */
  ghost predicate RanAt(e: Ran, ops: seq<Operation>, fates: seq<Fate>, lists: nat) {
    && e.cb.serial < |fates| && fates[e.cb.serial] == Executed && e.cb.list < lists
    && (e.op.Some? ==> e.op.value < |ops| && ops[e.op.value].complete)
    && (e.cb.op.Some? ==> e.op == e.cb.op)
  }

  ghost predicate AllRan(log: seq<Ran>, ops: seq<Operation>, fates: seq<Fate>, lists: nat) {
    forall k {:trigger log[k]} :: 0 <= k < |log| ==> RanAt(log[k], ops, fates, lists)
  }

  /** Each callback once, those of one list in registration order, and so those run for one operation. */
  ghost predicate InOrder(a: Ran, b: Ran) {
    && a.cb.serial != b.cb.serial
    && (a.cb.list == b.cb.list ==> a.cb.serial < b.cb.serial)
    && (a.op.Some? && a.op == b.op ==> a.cb.serial < b.cb.serial)
  }

  ghost predicate LogOrder(log: seq<Ran>) {
    forall i, j :: 0 <= i < j < |log| ==> InOrder(log[i], log[j])
  }

  /** An operation whose callbacks have run belongs to no usable request any more. */
  ghost predicate Retired(log: seq<Ran>, q: Req) {
    q.usable && q.handle.Some? ==> forall k :: 0 <= k < |log| ==> log[k].op != q.handle
  }

  /** What ran from a list was registered before what is still on it. */
  ghost predicate RanBefore(log: seq<Ran>, q: Req) {
    forall k, m :: 0 <= k < |log| && 0 <= m < |q.callbacks| && log[k].cb.list == q.list ==>
      log[k].cb.serial < q.callbacks[m].serial
  }

  ghost predicate ReqOk(s: State, r: nat) {
    r in s.reqs ==>
      && ListOk(s.reqs[r], r, s.fates) && Retired(s.log, s.reqs[r]) && RanBefore(s.log, s.reqs[r])
      && s.reqs[r].list < s.lists
      && (s.reqs[r].usable && s.reqs[r].handle.Some? ==> s.reqs[r].handle.value < |s.ops|)
  }

  /** No two requests have the same list, and no two usable ones stand for the same operation. */
  ghost predicate Owned(s: State, r: nat, q: nat) {
    && (r in s.reqs && q in s.reqs && s.reqs[r].list == s.reqs[q].list ==> r == q)
    && (Usable(s, r) && Usable(s, q) && s.reqs[r].handle.Some? && s.reqs[r].handle == s.reqs[q].handle ==> r == q)
  }

  predicate OnList(cbs: seq<Callback>, serial: nat) {
    exists i :: 0 <= i < |cbs| && cbs[i].serial == serial
  }

  predicate InLog(log: seq<Ran>, serial: nat) {
    exists i :: 0 <= i < |log| && log[i].cb.serial == serial
  }

  /** A callback recorded as pending is on its request's list, one recorded as executed is in the log. */
  ghost predicate FateOk(s: State, k: nat) {
    k < |s.fates| ==>
      && (s.fates[k].Pending? ==> s.fates[k].r in s.reqs && OnList(s.reqs[s.fates[k].r].callbacks, k))
      && (s.fates[k].Executed? ==> InLog(s.log, k))
  }

  ghost predicate Core(s: State) {
    && (forall r :: ReqOk(s, r))
    && (forall r, q :: Owned(s, r, q))
    && (forall k :: FateOk(s, k))
    && AllRan(s.log, s.ops, s.fates, s.lists) && LogOrder(s.log)
  }

  ghost predicate Inv(s: State) {
    Core(s) && forall r :: BuffersHeld(s, r)
  }

  // ---------------------------------------------------------------- registering

  lemma HoldsMore(cbs: seq<Callback>, cb: Callback, b: nat)
    ensures Holds(cbs, b) ==> Holds(cbs + [cb], b)
    ensures b in cb.held ==> Holds(cbs + [cb], b)
  {
    var all := cbs + [cb];
    if k :| 0 <= k < |cbs| && b in cbs[k].held { assert b in all[k].held; }
    assert all[|cbs|] == cb;
  }

  lemma OnListMore(cbs: seq<Callback>, more: seq<Callback>, serial: nat)
    ensures OnList(cbs + more, serial) <==> OnList(cbs, serial) || OnList(more, serial)
  {
    var all := cbs + more;
    if i :| 0 <= i < |cbs| && cbs[i].serial == serial { assert all[i].serial == serial; }
    if i :| 0 <= i < |more| && more[i].serial == serial { assert all[|cbs| + i].serial == serial; }
    if i :| 0 <= i < |all| && all[i].serial == serial {
      if i < |cbs| { assert cbs[i].serial == serial; } else { assert more[i - |cbs|].serial == serial; }
    }
  }

  lemma RegisterList(q: Req, r: nat, fates: seq<Fate>, cb: Callback)
    requires ListOk(q, r, fates) && q.usable && cb.serial == |fates| && cb.op == q.handle && cb.list == q.list
    ensures ListOk(q.(callbacks := q.callbacks + [cb]), r, fates + [Pending(r)])
  {}

  lemma RegisterCore(s: State, r: nat, held: set<nat>)
    requires Core(s) && Usable(s, r)
    ensures Core(Register(s, r, held))
  {
    var s' := Register(s, r, held);
    forall q ensures ReqOk(s', q) {
      assert ReqOk(s, q);
      if q == r { RegisterList(s.reqs[r], r, s.fates, NextCallback(s, r, held)); }
    }
    forall q, t ensures Owned(s', q, t) { assert Owned(s, q, t); }
    forall k ensures FateOk(s', k) {
      assert FateOk(s, k);
      OnListMore(s.reqs[r].callbacks, [NextCallback(s, r, held)], k);
      if k == |s.fates| { assert [NextCallback(s, r, held)][0].serial == k; }
    }
  }

  lemma RegisterBuffers(s: State, r: nat, held: set<nat>, q: nat)
    requires Usable(s, r) && BuffersHeld(s, q)
    ensures BuffersHeld(Register(s, r, held), q)
  {
    if q == r {
      forall b ensures Holds(s.reqs[r].callbacks, b) ==> Holds(Register(s, r, held).reqs[r].callbacks, b) {
        HoldsMore(s.reqs[r].callbacks, NextCallback(s, r, held), b);
      }
    }
  }

  lemma RegisterOk(s: State, r: nat, held: set<nat>)
    requires Inv(s) && Usable(s, r)
    ensures Inv(Register(s, r, held))
  {
    RegisterCore(s, r, held);
    forall q ensures BuffersHeld(Register(s, r, held), q) { RegisterBuffers(s, r, held, q); }
  }

  // ---------------------------------------------------------------- launching

  lemma BeginCore(s: State, r: nat, given: set<nat>)
    requires Core(s) && Usable(s, r) && s.reqs[r].handle == None
    ensures Core(Begin(s, r, given))
  {
    var s' := Begin(s, r, given);
    assert ReqOk(s, r);
    forall q ensures ReqOk(s', q) { assert ReqOk(s, q); }
    forall q, t ensures Owned(s', q, t) { assert Owned(s, q, t) && ReqOk(s, q) && ReqOk(s, t); }
    forall k ensures FateOk(s', k) { assert FateOk(s, k); }
  }

  /** Registering holders one by one makes the request hold all they hold. */
  lemma {:induction false} RegisterAllOk(s: State, r: nat, holds: seq<set<nat>>)
    requires Core(s) && Usable(s, r)
    requires forall q :: q != r ==> BuffersHeld(s, q)
    ensures var s' := RegisterAll(s, r, holds);
      && Core(s') && Usable(s', r) && s'.ops == s.ops && s'.reqs[r].handle == s.reqs[r].handle
      && (forall q :: q != r ==> BuffersHeld(s', q))
      && (forall b, k :: 0 <= k < |holds| && b in holds[k] ==> Holds(s'.reqs[r].callbacks, b))
    decreases |holds|
  {
    if holds != [] {
      var front, last := holds[..|holds| - 1], holds[|holds| - 1];
      RegisterAllOk(s, r, front);
      var m := RegisterAll(s, r, front);
      RegisterCore(m, r, last);
      var s' := Register(m, r, last);
      forall q | q != r ensures BuffersHeld(s', q) { RegisterBuffers(m, r, last, q); }
      forall b, k | 0 <= k < |holds| && b in holds[k] ensures Holds(s'.reqs[r].callbacks, b) {
        HoldsMore(m.reqs[r].callbacks, NextCallback(m, r, last), b);
        assert k < |front| ==> b in front[k];
      }
    }
  }

  lemma LaunchOk(s: State, r: nat, given: set<nat>, holds: seq<set<nat>>)
    requires Inv(s) && Usable(s, r) && s.reqs[r].handle == None && Covers(holds, given)
    ensures Inv(RegisterAll(Begin(s, r, given), r, holds))
  {
    var m := Begin(s, r, given);
    BeginCore(s, r, given);
    forall q | q != r ensures BuffersHeld(m, q) { assert BuffersHeld(s, q) && ReqOk(s, q); }
    RegisterAllOk(m, r, holds);
    var s' := RegisterAll(m, r, holds);
    forall q ensures BuffersHeld(s', q) {}
  }

  // ---------------------------------------------------------------- completing

  lemma ExecuteOrder(s: State, r: nat, stale: bool, i: nat, j: nat)
    requires Core(s) && Usable(s, r) && i < j < |Execute(s, r, stale).log|
    ensures InOrder(Execute(s, r, stale).log[i], Execute(s, r, stale).log[j])
  {
    var q, log := s.reqs[r], Execute(s, r, stale).log;
    assert ReqOk(s, r);
    if j < |s.log| {
      assert InOrder(s.log[i], s.log[j]);
    } else if i < |s.log| {
      assert RanAt(s.log[i], s.ops, s.fates, s.lists);
      assert log[j] == Ran(q.callbacks[j - |s.log|], q.handle);
    } else {
      assert log[i].cb == q.callbacks[i - |s.log|] && log[j].cb == q.callbacks[j - |s.log|];
    }
  }

  lemma ExecuteLog(s: State, r: nat, stale: bool)
    requires Core(s) && Usable(s, r) && Finished(s, r)
    ensures var s' := Execute(s, r, stale); AllRan(s'.log, s'.ops, s'.fates, s'.lists) && LogOrder(s'.log)
  {
    var q, s' := s.reqs[r], Execute(s, r, stale);
    assert ReqOk(s, r);
    forall k | 0 <= k < |s'.log| ensures RanAt(s'.log[k], s'.ops, s'.fates, s'.lists) {
      if k < |s.log| {
        assert RanAt(s.log[k], s.ops, s.fates, s.lists);
      } else {
        assert s'.log[k] == Ran(q.callbacks[k - |s.log|], q.handle);
      }
    }
    forall i, j | 0 <= i < j < |s'.log| ensures InOrder(s'.log[i], s'.log[j]) {
      ExecuteOrder(s, r, stale, i, j);
    }
  }

  lemma ExecuteReqs(s: State, r: nat, stale: bool, q: nat)
    requires Core(s) && Usable(s, r)
    ensures ReqOk(Execute(s, r, stale), q)
  {
    var s' := Execute(s, r, stale);
    assert ReqOk(s, q) && ReqOk(s, r) && Owned(s, q, r);
    forall k | |s.log| <= k < |s'.log| ensures s'.log[k].op == s.reqs[r].handle && s'.log[k].cb.list == s.reqs[r].list {
      assert s'.log[k] == Ran(s.reqs[r].callbacks[k - |s.log|], s.reqs[r].handle);
    }
  }

  lemma InLogMore(log: seq<Ran>, cbs: seq<Callback>, op: Option<nat>, serial: nat)
    ensures InLog(log + Entries(cbs, op), serial) <==> InLog(log, serial) || OnList(cbs, serial)
  {
    var more := Entries(cbs, op);
    var all := log + more;
    if i :| 0 <= i < |log| && log[i].cb.serial == serial { assert all[i].cb.serial == serial; }
    if i :| 0 <= i < |cbs| && cbs[i].serial == serial { assert all[|log| + i].cb == cbs[i]; }
    if i :| 0 <= i < |all| && all[i].cb.serial == serial {
      if i < |log| { assert log[i].cb.serial == serial; } else { assert more[i - |log|].cb == cbs[i - |log|]; }
    }
  }

  lemma ExecuteFate(s: State, r: nat, stale: bool, k: nat)
    requires Core(s) && Usable(s, r)
    ensures FateOk(Execute(s, r, stale), k)
  {
    assert FateOk(s, k);
    InLogMore(s.log, s.reqs[r].callbacks, s.reqs[r].handle, k);
  }

  lemma ExecuteOk(s: State, r: nat, stale: bool)
    requires Inv(s) && Usable(s, r) && Finished(s, r)
    ensures Inv(Execute(s, r, stale))
  {
    var s' := Execute(s, r, stale);
    ExecuteLog(s, r, stale);
    forall q ensures ReqOk(s', q) { ExecuteReqs(s, r, stale, q); }
    forall q, t ensures Owned(s', q, t) { assert Owned(s, q, t); }
    forall k ensures FateOk(s', k) { ExecuteFate(s, r, stale, k); }
    forall q ensures BuffersHeld(s', q) { assert BuffersHeld(s, q); }
  }

  lemma {:induction false} ExecuteAllOk(s: State, rs: seq<nat>)
    requires Inv(s) && Distinct(rs) && forall r :: r in rs ==> Usable(s, r) && Finished(s, r)
    ensures forall r :: r in rs ==> r in s.reqs
    ensures var s' := ExecuteAll(s, rs);
      && Inv(s') && s'.ops == s.ops
      && forall r :: r in s.reqs && r !in rs ==> s'.reqs[r] == s.reqs[r]
    decreases |rs|
  {
    if rs != [] {
      var front, last := rs[..|rs| - 1], rs[|rs| - 1];
      assert forall r :: r in front ==> r in rs;
      assert last in rs && last !in front;
      ExecuteAllOk(s, front);
      ExecuteOk(ExecuteAll(s, front), last, true);
    }
  }

  // ---------------------------------------------------------------- moving and dropping

  lemma DiscardOk(s: State, r: nat)
    requires Inv(s) && r in s.reqs
    ensures Inv(Discard(s, r)) && forall k :: 0 <= k < |s.fates| ==> Discard(s, r).fates[k] != Pending(r)
  {
    var s' := Discard(s, r);
    forall q ensures ReqOk(s', q) { assert ReqOk(s, q); }
    forall q, t ensures Owned(s', q, t) { assert Owned(s, q, t); }
    forall k ensures FateOk(s', k) { assert FateOk(s, k); }
    forall q ensures BuffersHeld(s', q) { assert BuffersHeld(s, q); }
    assert AllRan(s'.log, s'.ops, s'.fates, s'.lists) by {
      forall k | 0 <= k < |s.log| ensures RanAt(s'.log[k], s'.ops, s'.fates, s'.lists) {
        assert RanAt(s.log[k], s.ops, s.fates, s.lists);
      }
    }
  }

  lemma RemoveOk(s: State, r: nat)
    requires Inv(s) && r in s.reqs && forall k :: 0 <= k < |s.fates| ==> s.fates[k] != Pending(r)
    ensures Inv(Remove(s, r))
  {
    var s' := Remove(s, r);
    forall q ensures ReqOk(s', q) { assert ReqOk(s, q); }
    forall q, t ensures Owned(s', q, t) { assert Owned(s, q, t); }
    forall k ensures FateOk(s', k) { assert FateOk(s, k); }
    forall q ensures BuffersHeld(s', q) { assert BuffersHeld(s, q); }
  }

  /** The target of a move has no callbacks of its own (left). */
  lemma MoveOk(s: State, src: nat, dst: nat)
    requires Inv(s) && Usable(s, src) && src != dst
    requires forall k :: 0 <= k < |s.fates| ==> s.fates[k] != Pending(dst)
    ensures Inv(Move(s, src, dst))
  {
    var s' := Move(s, src, dst);
    assert ReqOk(s, src);
    forall q ensures ReqOk(s', q) { assert ReqOk(s, q); }
    forall q, t ensures Owned(s', q, t) {
      assert Owned(s, q, t) && Owned(s, q, src) && Owned(s, src, t) && ReqOk(s, q) && ReqOk(s, t);
    }
    forall k ensures FateOk(s', k) { assert FateOk(s, k); }
    forall q ensures BuffersHeld(s', q) { assert BuffersHeld(s, q) && BuffersHeld(s, src); }
    assert AllRan(s'.log, s'.ops, s'.fates, s'.lists) by {
      forall k | 0 <= k < |s.log| ensures RanAt(s'.log[k], s'.ops, s'.fates, s'.lists) {
        assert RanAt(s.log[k], s.ops, s.fates, s.lists);
      }
    }
  }

  lemma NotYet(s: State, r: nat)
    requires Core(s) && r !in s.reqs
    ensures forall k :: 0 <= k < |s.fates| ==> s.fates[k] != Pending(r)
  {
    forall k | 0 <= k < |s.fates| ensures s.fates[k] != Pending(r) { assert FateOk(s, k); }
  }

  // ---------------------------------------------------------------- every run

  lemma ConstructOk(s: State, r: nat)
    requires Inv(s) && r !in s.reqs
    ensures Inv(Constructed(s, r))
  {
    var s' := Constructed(s, r);
    NotYet(s, r);
    forall q ensures ReqOk(s', q) {
      assert ReqOk(s, q);
    }
    forall q, t ensures Owned(s', q, t) { assert Owned(s, q, t) && ReqOk(s, q) && ReqOk(s, t); }
    forall k ensures FateOk(s', k) { assert FateOk(s, k); }
    forall q ensures BuffersHeld(s', q) { assert BuffersHeld(s, q); }
    forall k | 0 <= k < |s.log| ensures RanAt(s'.log[k], s'.ops, s'.fates, s'.lists) {
      assert RanAt(s.log[k], s.ops, s.fates, s.lists);
    }
  }

  lemma CompletesOk(s: State, op: nat)
    requires Inv(s) && op < |s.ops|
    ensures Inv(s.(ops := s.ops[op := s.ops[op].(complete := true)]))
  {
    var s' := s.(ops := s.ops[op := s.ops[op].(complete := true)]);
    forall q ensures ReqOk(s', q) { assert ReqOk(s, q); }
    forall q, t ensures Owned(s', q, t) { assert Owned(s, q, t); }
    forall k ensures FateOk(s', k) { assert FateOk(s, k); }
    forall q ensures BuffersHeld(s', q) { assert BuffersHeld(s, q); }
  }

  lemma StepOk(s: State, st: Step)
    requires Inv(s) && Enabled(s, st)
    ensures Inv(Apply(s, st))
  {
    match st
    case Construct(r) => ConstructOk(s, r);
    case Launch(r, given, holds) => LaunchOk(s, r, given, holds);
    case AddCallback(r, held) => RegisterOk(s, r, held);
    case ExtendViewLifetime(r, buffer, managed) => if managed { RegisterOk(s, r, {buffer}); }
    case MoveConstruct(src, dst) => NotYet(s, dst); MoveOk(s, src, dst);
    case MoveAssign(src, dst) => DiscardOk(s, dst); MoveOk(Discard(s, dst), src, dst);
    case Destroy(r) => DiscardOk(s, r); RemoveOk(Discard(s, r), r);
    case OperationCompletes(op) => CompletesOk(s, op);
    case Wait(r) => ExecuteOk(s, r, false);
    case Test(r) => if Finished(s, r) { ExecuteOk(s, r, false); }
    case WaitAll(rs) => ExecuteAllOk(s, rs);
    case WaitAny(rs, k) => ExecuteOk(s, rs[k], true);
  }

  lemma {:induction false} ReachableOk(steps: seq<Step>, s: State)
    requires Reaches(steps, s)
    ensures Inv(s)
    decreases |steps|
  {
    if steps != [] {
      var front, last := steps[..|steps| - 1], steps[|steps| - 1];
      var p :| Reaches(front, p) && Enabled(p, last) && s == Apply(p, last);
      ReachableOk(front, p);
      StepOk(p, last);
    }
  }

  // ---------------------------------------------------------------- what it means

  /**
   In every run each callback runs at most once, those of one list in the order they were registered,
   wherever the list has been moved in between; the operation the request stood for then is complete,
   and is the one it stood for at registration if there was one. The callbacks run for one operation
   also run in registration order.
   */
  lemma CallbacksRunOnce(steps: seq<Step>, s: State, i: nat, j: nat)
    requires Reaches(steps, s) && i < j < |s.log|
    ensures s.log[i].cb.serial != s.log[j].cb.serial
    ensures s.log[i].cb.list == s.log[j].cb.list ==> s.log[i].cb.serial < s.log[j].cb.serial
    ensures s.log[i].op.Some? && s.log[i].op == s.log[j].op ==> s.log[i].cb.serial < s.log[j].cb.serial
  {
    ReachableOk(steps, s);
    assert InOrder(s.log[i], s.log[j]);
  }

  lemma RanAfterCompletion(steps: seq<Step>, s: State, i: nat)
    requires Reaches(steps, s) && i < |s.log|
    ensures s.log[i].op.Some? ==> s.log[i].op.value < |s.ops| && s.ops[s.log[i].op.value].complete
    ensures s.log[i].cb.op.Some? ==> s.log[i].op == s.log[i].cb.op
  {
    ReachableOk(steps, s);
    assert RanAt(s.log[i], s.ops, s.fates, s.lists);
  }

  /** A registered callback has run, or waits on exactly one request, or went with its request: never two of these. */
  lemma EveryCallbackAccounted(steps: seq<Step>, s: State, k: nat)
    requires Reaches(steps, s) && k < |s.fates|
    ensures InLog(s.log, k) <==> s.fates[k] == Executed
    ensures forall r :: r in s.reqs ==> (OnList(s.reqs[r].callbacks, k) <==> s.fates[k] == Pending(r))
    ensures s.fates[k].Pending? ==> s.fates[k].r in s.reqs
  {
    ReachableOk(steps, s);
    assert FateOk(s, k);
    if i :| 0 <= i < |s.log| && s.log[i].cb.serial == k { assert RanAt(s.log[i], s.ops, s.fates, s.lists); }
    forall r | r in s.reqs ensures OnList(s.reqs[r].callbacks, k) <==> s.fates[k] == Pending(r) {
      assert ReqOk(s, r);
    }
  }

  /** While a request stands for an operation, each managed buffer the library was given is on its callback list. */
  lemma BuffersStay(steps: seq<Step>, s: State, r: nat, b: nat)
    requires Reaches(steps, s) && Usable(s, r) && s.reqs[r].handle.Some?
    ensures s.reqs[r].handle.value < |s.ops|
    ensures b in s.ops[s.reqs[r].handle.value].buffers ==> Holds(s.reqs[r].callbacks, b)
  {
    ReachableOk(steps, s);
    assert ReqOk(s, r) && BuffersHeld(s, r);
  }

  lemma {:induction false} WaitAllClears(s: State, rs: seq<nat>, r: nat)
    requires (forall q :: q in rs ==> q in s.reqs) && r in s.reqs
    ensures ExecuteAll(s, rs).reqs[r].callbacks == if r in rs then [] else s.reqs[r].callbacks
    ensures ExecuteAll(s, rs).reqs[r].handle == s.reqs[r].handle
    decreases |rs|
  {
    if rs != [] {
      var front, last := rs[..|rs| - 1], rs[|rs| - 1];
      assert rs == front + [last];
      WaitAllClears(s, front, r);
    }
  }

  lemma NextLogged(s: State, m: State, r: nat, lists: seq<Ran>)
    requires r in s.reqs && r in m.reqs && m.log == s.log + lists
    requires m.reqs[r].callbacks == s.reqs[r].callbacks && m.reqs[r].handle == s.reqs[r].handle
    ensures Execute(m, r, true).log == s.log + (lists + Entries(s.reqs[r].callbacks, s.reqs[r].handle))
  {}

  lemma {:induction false} ExecuteAllLog(s: State, rs: seq<nat>)
    requires Distinct(rs) && forall r :: r in rs ==> r in s.reqs
    ensures ExecuteAll(s, rs).log == s.log + ListsOf(s, rs)
    decreases |rs|
  {
    if rs != [] {
      var front, last := rs[..|rs| - 1], rs[|rs| - 1];
      assert forall r :: r in front ==> r in rs;
      ExecuteAllLog(s, front);
      WaitAllClears(s, front, last);
      NextLogged(s, ExecuteAll(s, front), last, ListsOf(s, front));
    }
  }

  function ListsOf(s: State, rs: seq<nat>): seq<Ran>
    requires forall r :: r in rs ==> r in s.reqs
  {
    if rs == [] then []
    else
      var last := s.reqs[rs[|rs| - 1]];
      ListsOf(s, rs[..|rs| - 1]) + Entries(last.callbacks, last.handle)
  }

  /** wait_all runs everything pending on the requests it is given, one list after the other. */
  lemma WaitAllRuns(s: State, rs: seq<nat>)
    requires Enabled(s, WaitAll(rs))
    ensures (forall r :: r in rs ==> r in s.reqs) && Apply(s, WaitAll(rs)).log == s.log + ListsOf(s, rs)
  {
    ExecuteAllLog(s, rs);
  }

  lemma Extend(steps: seq<Step>, s: State, st: Step) returns (s': State)
    requires Reaches(steps, s) && Enabled(s, st)
    ensures s' == Apply(s, st) && Reaches(steps + [st], s')
  {
    var all := steps + [st];
    assert all[..|all| - 1] == steps;
    s' := Apply(s, st);
  }

  /** A usable request can always be finished: once its operation completes, a wait runs everything pending on it. */
  lemma CanFinish(steps: seq<Step>, s: State, r: nat) returns (more: seq<Step>, s': State)
    requires Reaches(steps, s) && Usable(s, r)
    ensures Reaches(steps + more, s') && |more| <= 2 && Usable(s', r)
    ensures s'.log == s.log + Entries(s.reqs[r].callbacks, s.reqs[r].handle)
    ensures s'.reqs[r] == Req(None, true, s.reqs[r].list, [])
  {
    ReachableOk(steps, s);
    assert ReqOk(s, r);
    if Finished(s, r) {
      more := [Wait(r)];
      s' := Extend(steps, s, Wait(r));
    } else {
      var done := OperationCompletes(s.reqs[r].handle.value);
      var m := Extend(steps, s, done);
      s' := Extend(steps + [done], m, Wait(r));
      more := [done, Wait(r)];
      assert steps + [done] + [Wait(r)] == steps + more;
    }
  }
}
