/**
 The completion engine: a request holds a handle of the MPI library and the callbacks
 to run once the operation is complete.
 */
module Requests {
  import opened Common
  import opened MixedRadix
  import opened StridedView
  import opened Packer

  /** The MPI library's side of a request: the buffer it was given and whether it is done with it. */
  class Operation {
    const buf: array<int>
    const off: nat
    const count: int
    const sends: bool
    var complete: bool

    constructor (buf: array<int>, off: nat, count: int, sends: bool)
      requires off + count <= buf.Length
      ensures this.buf == buf && this.off == off && this.count == count && this.sends == sends && !complete
    {
      this.buf, this.off, this.count, this.sends, this.complete := buf, off, count, sends, false;
    }

    ghost predicate Valid() {
      off + count <= buf.Length
    }

    /** The library refuses a negative count. */
    predicate Accepted() {
      count >= 0
    }

    ghost function Data(): seq<int>
      requires Valid() && Accepted()
      reads buf
    {
      buf[off..off + count]
    }
  }

  /** A captured view, kept alive until completion, or the deferred unpacking of a staging buffer. */
  datatype Callback =
    | Retain(held: array<int>)
    | Unpack(dst: array<int>, view: View, layout: Layout, src: array<int>)

  function Arrays(cb: Callback): set<array<int>> {
    match cb
    case Retain(a) => {a}
    case Unpack(d, _, _, s) => {d, s}
  }

  function Written(cb: Callback): set<array<int>> {
    match cb
    case Retain(_) => {}
    case Unpack(d, _, _, _) => {d}
  }

  ghost predicate WellFormed(cb: Callback) {
    cb.Unpack? ==> Fits(cb.view, cb.dst.Length) && cb.src.Length == Size(cb.view) && cb.src != cb.dst
  }

  /** The callbacks are well formed and touch arrays of `world` only. */
  ghost predicate CanRun(cbs: seq<Callback>, world: set<array<int>>) {
    forall k :: 0 <= k < |cbs| ==> WellFormed(cbs[k]) && Arrays(cbs[k]) <= world
  }

  function AllWritten(cbs: seq<Callback>): (r: set<array<int>>)
    ensures forall k :: 0 <= k < |cbs| ==> Written(cbs[k]) <= r
  {
    set cb, a | cb in cbs && a in Written(cb) :: a
  }

  /** The contents of a set of arrays. */
  type Store = map<array<int>, seq<int>>

  ghost predicate Sized(m: Store) {
    forall a :: a in m ==> |m[a]| == a.Length
  }

  ghost function Snap(arrays: set<array<int>>): (m: Store)
    reads arrays
    ensures m.Keys == arrays && Sized(m)
    ensures forall a :: a in arrays ==> m[a] == a[..]
  {
    map a | a in arrays :: a[..]
  }

  ghost function RunOne(cb: Callback, m: Store): (r: Store)
    requires WellFormed(cb) && Arrays(cb) <= m.Keys && Sized(m)
    ensures r.Keys == m.Keys && Sized(r)
  {
    match cb
    case Retain(_) => m
    case Unpack(d, v, l, s) => m[d := Scatter(m[d], v, l, m[s])]
  }

  /** What running callbacks one after the other does to memory. */
  ghost function RunAll(cbs: seq<Callback>, m: Store): (r: Store)
    requires CanRun(cbs, m.Keys) && Sized(m)
    ensures r.Keys == m.Keys && Sized(r)
  {
    if cbs == [] then m
    else
      var init, last := cbs[..|cbs| - 1], cbs[|cbs| - 1];
      RunOne(last, RunAll(init, m))
  }

  lemma CanRunParts(xs: seq<Callback>, ys: seq<Callback>, world: set<array<int>>)
    requires CanRun(xs + ys, world)
    ensures CanRun(xs, world) && CanRun(ys, world)
  {
    var all := xs + ys;
    forall k | 0 <= k < |xs| ensures WellFormed(xs[k]) && Arrays(xs[k]) <= world { assert all[k] == xs[k]; }
    forall k | 0 <= k < |ys| ensures WellFormed(ys[k]) && Arrays(ys[k]) <= world { assert all[|xs| + k] == ys[k]; }
  }

  lemma {:induction false} RunAppend(xs: seq<Callback>, ys: seq<Callback>, m: Store)
    requires CanRun(xs + ys, m.Keys) && Sized(m)
    ensures CanRun(xs, m.Keys) && CanRun(ys, m.Keys)
    ensures RunAll(xs + ys, m) == RunAll(ys, RunAll(xs, m))
    decreases |ys|
  {
    var all := xs + ys;
    CanRunParts(xs, ys, m.Keys);
    if ys == [] {
      assert xs + ys == xs;
    } else {
      var init := ys[..|ys| - 1];
      assert all[..|all| - 1] == xs + init;
      RunAppend(xs, init, m);
    }
  }

  /** Callbacks that only keep views alive change nothing. */
  lemma {:induction false} RunRetains(cbs: seq<Callback>, m: Store)
    requires CanRun(cbs, m.Keys) && Sized(m)
    requires forall cb :: cb in cbs ==> cb.Retain?
    ensures RunAll(cbs, m) == m
    decreases |cbs|
  {
    if cbs != [] {
      var init := cbs[..|cbs| - 1];
      RunRetains(init, m);
    }
  }

  lemma RunStep(cbs: seq<Callback>, k: nat, m: Store)
    requires k < |cbs| && CanRun(cbs, m.Keys) && Sized(m)
    ensures CanRun(cbs[..k], m.Keys)
    ensures CanRun(cbs[..k + 1], m.Keys)
    ensures RunAll(cbs[..k + 1], m) == RunOne(cbs[k], RunAll(cbs[..k], m))
  {
    assert cbs[..k + 1][..k] == cbs[..k];
  }

  method RunCallback(cb: Callback, ghost world: set<array<int>>)
    requires WellFormed(cb) && Arrays(cb) <= world
    modifies Written(cb)
    ensures Snap(world) == RunOne(cb, old(Snap(world)))
  {
    match cb {
      case Retain(_) =>
      case Unpack(d, v, l, s) =>
        UnpackInto(d, v, l, s);
    }
  }

  class Request {
    var handle: Operation?
    var callbacks: seq<Callback>

    constructor ()
      ensures handle == null && callbacks == []
    {
      handle, callbacks := null, [];
    }

    method AddCallback(cb: Callback)
      modifies `callbacks
      ensures callbacks == old(callbacks) + [cb]
    {
      callbacks := callbacks + [cb];
    }

    /** Views that do not own their allocation are not captured. */
    method ExtendViewLifetime(held: array<int>, managed: bool)
      modifies `callbacks
      ensures callbacks == old(callbacks) + if managed then [Retain(held)] else []
    {
      if managed {
        AddCallback(Retain(held));
      }
    }

    method ExecuteAllCallbacks(ghost world: set<array<int>>)
      requires CanRun(callbacks, world)
      modifies `callbacks, AllWritten(callbacks)
      ensures callbacks == []
      ensures Snap(world) == RunAll(old(callbacks), old(Snap(world)))
    {
      ghost var before := Snap(world);
      assert callbacks[..0] == [];
      for k := 0 to |callbacks|
        invariant callbacks == old(callbacks)
        invariant CanRun(callbacks[..k], world)
        invariant Snap(world) == RunAll(callbacks[..k], before)
      {
        RunStep(callbacks, k, before);
        RunCallback(callbacks[k], world);
      }
      assert callbacks[..|callbacks|] == callbacks;
      callbacks := [];
    }

    /** MPI_Wait returns only once the operation is complete, and nulls the handle. */
    method Wait(ghost world: set<array<int>>)
      requires handle != null ==> handle.complete
      requires CanRun(callbacks, world)
      modifies this, AllWritten(callbacks)
      ensures handle == null && callbacks == []
      ensures Snap(world) == RunAll(old(callbacks), old(Snap(world)))
    {
      handle := null;
      ExecuteAllCallbacks(world);
    }

    method Test(ghost world: set<array<int>>) returns (completed: bool)
      requires CanRun(callbacks, world)
      modifies this, AllWritten(callbacks)
      ensures completed <==> old(handle == null || handle.complete)
      ensures completed ==> handle == null && callbacks == []
      ensures !completed ==> handle == old(handle) && callbacks == old(callbacks)
      ensures Snap(world) == if completed then RunAll(old(callbacks), old(Snap(world))) else old(Snap(world))
    {
      completed := handle == null || handle.complete;
      if completed {
        handle := null;
        ExecuteAllCallbacks(world);
      }
    }
  }

  ghost predicate DistinctRequests(reqs: seq<Request>) {
    forall a, b :: 0 <= a < b < |reqs| ==> reqs[a] != reqs[b]
  }

  ghost function Lists(reqs: seq<Request>): (r: seq<seq<Callback>>)
    reads reqs
    ensures |r| == |reqs| && forall k :: 0 <= k < |r| ==> r[k] == reqs[k].callbacks
  {
    if reqs == [] then [] else Lists(reqs[..|reqs| - 1]) + [reqs[|reqs| - 1].callbacks]
  }

  function Flatten(lists: seq<seq<Callback>>): seq<Callback> {
    if lists == [] then [] else Flatten(lists[..|lists| - 1]) + lists[|lists| - 1]
  }

  /** The lists one after the other, in order. */
  lemma {:induction false} FlattenAppend(xs: seq<seq<Callback>>, ys: seq<seq<Callback>>, last: seq<Callback>)
    ensures Flatten(xs + ys) == Flatten(xs) + Flatten(ys) && Flatten([last]) == last && Flatten([]) == []
    decreases |ys|
  {
    assert [last][..0] == [];
    if ys == [] {
      assert xs + ys == xs;
    } else {
      var front := ys[..|ys| - 1];
      assert (xs + ys)[..|xs + ys| - 1] == xs + front;
      FlattenAppend(xs, front, last);
    }
  }

  lemma {:induction false} InFlatten(lists: seq<seq<Callback>>, cb: Callback)
    ensures cb in Flatten(lists) <==> exists k :: 0 <= k < |lists| && cb in lists[k]
    decreases |lists|
  {
    if lists != [] {
      var init := lists[..|lists| - 1];
      InFlatten(init, cb);
      if k :| 0 <= k < |init| && cb in init[k] { assert cb in lists[k]; }
      if cb in lists[|lists| - 1] { }
    }
  }

  ghost predicate Runnable(lists: seq<seq<Callback>>, world: set<array<int>>) {
    forall k :: 0 <= k < |lists| ==> CanRun(lists[k], world)
  }

  lemma FlattenRunnable(lists: seq<seq<Callback>>, world: set<array<int>>)
    requires Runnable(lists, world)
    ensures CanRun(Flatten(lists), world)
    ensures forall k :: 0 <= k < |lists| ==> AllWritten(lists[k]) <= AllWritten(Flatten(lists))
  {
    forall cb | cb in Flatten(lists) ensures WellFormed(cb) && Arrays(cb) <= world {
      InFlatten(lists, cb);
    }
    forall k | 0 <= k < |lists| ensures AllWritten(lists[k]) <= AllWritten(Flatten(lists)) {
      forall cb | cb in lists[k] ensures cb in Flatten(lists) { InFlatten(lists, cb); }
    }
  }

  lemma FlattenStep(lists: seq<seq<Callback>>, k: nat, m: Store)
    requires k < |lists| && Runnable(lists, m.Keys) && Sized(m)
    ensures Runnable(lists[..k], m.Keys) && Runnable(lists[..k + 1], m.Keys)
    ensures CanRun(Flatten(lists[..k]), m.Keys)
    ensures CanRun(Flatten(lists[..k + 1]), m.Keys)
    ensures RunAll(Flatten(lists[..k + 1]), m) == RunAll(lists[k], RunAll(Flatten(lists[..k]), m))
  {
    FlattenRunnable(lists[..k], m.Keys);
    FlattenRunnable(lists[..k + 1], m.Keys);
    assert lists[..k + 1][..k] == lists[..k];
    RunAppend(Flatten(lists[..k]), lists[k], m);
  }

  /** Runs the callbacks of one request of several. */
  method RunListed(reqs: seq<Request>, k: nat, req: Request, ghost world: set<array<int>>)
    requires DistinctRequests(reqs) && k < |reqs| && req == reqs[k] && CanRun(req.callbacks, world)
    modifies req`callbacks, AllWritten(req.callbacks)
    ensures Lists(reqs) == old(Lists(reqs))[k := []]
    ensures Snap(world) == RunAll(old(req.callbacks), old(Snap(world)))
  {
    req.ExecuteAllCallbacks(world);
    forall j | 0 <= j < |reqs| ensures Lists(reqs)[j] == old(Lists(reqs))[k := []][j] {
      assert j != k ==> reqs[j] != req;
    }
  }

  /** The first n lists have been run and cleared. */
  ghost predicate Ran(lists: seq<seq<Callback>>, n: nat, now: seq<seq<Callback>>, before: Store, m: Store)
    requires n <= |lists|
  {
    && |now| == |lists| && (forall k :: 0 <= k < |lists| ==> now[k] == if k < n then [] else lists[k])
    && Sized(before) && Runnable(lists, before.Keys)
    && CanRun(Flatten(lists[..n]), before.Keys) && m == RunAll(Flatten(lists[..n]), before)
  }

  lemma RanNext(lists: seq<seq<Callback>>, k: nat, now: seq<seq<Callback>>, before: Store, m: Store)
    requires k < |lists| && Ran(lists, k, now, before, m)
    ensures Ran(lists, k + 1, now[k := []], before, RunAll(lists[k], m))
  {
    FlattenStep(lists, k, before);
  }

  /**
   MPI_Waitall is given copies of the handles: it returns once all are complete, and
   the requests keep the handles it consumed.
   */
  method WaitAll(reqs: seq<Request>, ghost world: set<array<int>>)
    requires DistinctRequests(reqs)
    requires forall r :: r in reqs ==> r.handle != null ==> r.handle.complete
    requires Runnable(Lists(reqs), world)
    modifies (set r | r in reqs)`callbacks, AllWritten(Flatten(Lists(reqs)))
    ensures forall r :: r in reqs ==> r.callbacks == []
    ensures CanRun(old(Flatten(Lists(reqs))), world)
    ensures Snap(world) == RunAll(old(Flatten(Lists(reqs))), old(Snap(world)))
  {
    ghost var lists, before := Lists(reqs), Snap(world);
    FlattenRunnable(lists, world);
    if reqs == [] {
      return;
    }
    assert lists[..0] == [];
    for k := 0 to |reqs|
      invariant Ran(lists, k, Lists(reqs), before, Snap(world))
    {
      var req := reqs[k];
      RanNext(lists, k, Lists(reqs), before, Snap(world));
      assert Lists(reqs)[k] == lists[k] == req.callbacks;
      RunListed(reqs, k, req, world);
    }
    assert lists[..|reqs|] == lists;
    forall r | r in reqs ensures r.callbacks == [] {
      var k :| 0 <= k < |reqs| && reqs[k] == r;
      assert Lists(reqs)[k] == [];
    }
  }

  predicate Idle(reqs: seq<Request>)
    reads (set r | r in reqs)`handle
  {
    forall r :: r in reqs ==> r.handle == null
  }

  predicate Finished(r: Request)
    reads r`handle, r.handle
  {
    r.handle != null && r.handle.complete
  }

  /** MPI_Waitany picks any request that is complete, or reports that none is active. */
  method Pick(reqs: seq<Request>) returns (index: Option<nat>)
    requires !Idle(reqs) ==> exists r :: r in reqs && Finished(r)
    ensures index == None <==> Idle(reqs)
    ensures index.Some? ==> index.value < |reqs| && Finished(reqs[index.value])
  {
    if Idle(reqs) {
      return None;
    }
    var k :| 0 <= k < |reqs| && Finished(reqs[k]);
    index := Some(k);
  }

  /** Only the k-th list has been run and cleared. */
  ghost predicate RanOne(lists: seq<seq<Callback>>, k: nat, now: seq<seq<Callback>>, before: Store, m: Store) {
    && k < |lists| && now == lists[k := []]
    && Sized(before) && CanRun(lists[k], before.Keys) && m == RunAll(lists[k], before)
  }

  /** Completes one request. */
  method WaitAny(reqs: seq<Request>, ghost world: set<array<int>>) returns (index: Option<nat>)
    requires DistinctRequests(reqs)
    requires !Idle(reqs) ==> exists r :: r in reqs && Finished(r)
    requires Runnable(Lists(reqs), world)
    modifies (set r | r in reqs)`callbacks, AllWritten(Flatten(Lists(reqs)))
    ensures index == None <==> old(Idle(reqs))
    ensures index == None ==> Lists(reqs) == old(Lists(reqs)) && Snap(world) == old(Snap(world))
    ensures index.Some? ==>
      && index.value < |reqs| && old(Finished(reqs[index.value]))
      && RanOne(old(Lists(reqs)), index.value, Lists(reqs), old(Snap(world)), Snap(world))
  {
    FlattenRunnable(Lists(reqs), world);
    index := Pick(reqs);
    if index.Some? {
      var req := reqs[index.value];
      assert Lists(reqs)[index.value] == req.callbacks;
      RunListed(reqs, index.value, req, world);
    }
  }
}
