/**
 Completion of NCCL requests by polling. The environment is a schedule: the event of request i is
 complete from tick at[i] on, and every query takes one tick.
 */
module NcclWait {
  import opened Common
  import opened Pigeonhole

  /** One callback run: by which request, and when. */
  datatype Ran = Ran(request: nat, callback: int, tick: nat)

  /** credits: how far the loop's counter has been decremented; counted: the requests it was for. */
  datatype Poll = Poll(tick: nat, lists: seq<seq<int>>, log: seq<Ran>, credits: nat, counted: set<nat>)

  function Entries(request: nat, callbacks: seq<int>, tick: nat): (r: seq<Ran>)
    ensures |r| == |callbacks|
  {
    if callbacks == [] then []
    else Entries(request, callbacks[..|callbacks| - 1], tick) + [Ran(request, callbacks[|callbacks| - 1], tick)]
  }

  /** Runs the callbacks of a request, which are then forgotten. */
  function Execute(p: Poll, i: nat): Poll
    requires i < |p.lists|
  {
    p.(lists := p.lists[i := []], log := p.log + Entries(i, p.lists[i], p.tick))
  }

  /** One query. The written loop counts every success, the intended one the first per request. */
  function Query(once: bool, at: seq<nat>, p: Poll, i: nat): (r: Poll)
    requires i < |at| == |p.lists|
    ensures |r.lists| == |p.lists| && r.tick == p.tick + 1
  {
    var q := p.(tick := p.tick + 1);
    if at[i] > p.tick then q
    else
      var e := Execute(p, i).(tick := p.tick + 1, counted := p.counted + {i});
      if once && i in p.counted then e else e.(credits := p.credits + 1)
  }

  /** Queries of the first k requests, in order. */
  function Pass(once: bool, at: seq<nat>, p: Poll, k: nat): (r: Poll)
    requires k <= |at| == |p.lists|
    ensures |r.lists| == |p.lists| && r.tick == p.tick + k
  {
    if k == 0 then p else Query(once, at, Pass(once, at, p, k - 1), k - 1)
  }

  function Latest(at: seq<nat>): (r: nat)
    ensures forall i :: 0 <= i < |at| ==> at[i] <= r
  {
    if at == [] then 0
    else
      var m, n := Latest(at[..|at| - 1]), |at| - 1;
      if at[n] > m then at[n] else m
  }

  predicate Tallied(once: bool, n: nat, p: Poll) {
    && (forall i :: i in p.counted ==> i < n)
    && (once ==> p.credits == |p.counted|)
  }

  lemma {:induction false} PassTallied(once: bool, at: seq<nat>, p: Poll, k: nat)
    requires k <= |at| == |p.lists| && Tallied(once, |at|, p)
    ensures var r := Pass(once, at, p, k);
      Tallied(once, |at|, r) && p.credits <= r.credits && p.counted <= r.counted
    decreases k
  {
    if k > 0 {
      PassTallied(once, at, p, k - 1);
      QueryTallied(once, at, Pass(once, at, p, k - 1), k - 1);
    }
  }

  lemma QueryTallied(once: bool, at: seq<nat>, p: Poll, i: nat)
    requires i < |at| == |p.lists| && Tallied(once, |at|, p)
    ensures var r := Query(once, at, p, i);
      Tallied(once, |at|, r) && p.credits <= r.credits && p.counted <= r.counted
  {
    if i in p.counted {
      assert p.counted + {i} == p.counted;
    } else {
      assert |p.counted + {i}| == |p.counted| + 1;
    }
  }

  /** Once every event is complete a pass sees all of them. */
  lemma {:induction false} PassCounts(once: bool, at: seq<nat>, p: Poll, k: nat)
    requires k <= |at| == |p.lists| && Latest(at) <= p.tick
    ensures forall i: nat :: i < k ==> i in Pass(once, at, p, k).counted
    ensures !once ==> Pass(once, at, p, k).credits == p.credits + k
    decreases k
  {
    if k > 0 { PassCounts(once, at, p, k - 1); }
  }

  lemma PassProgress(once: bool, at: seq<nat>, p: Poll)
    requires at != [] && |at| == |p.lists| && Tallied(once, |at|, p) && p.credits < |at| && Latest(at) <= p.tick
    ensures p.credits < Pass(once, at, p, |at|).credits
  {
    var r := Pass(once, at, p, |at|);
    PassTallied(once, at, p, |at|);
    PassCounts(once, at, p, |at|);
    if once {
      RangeCard(|at|);
      assert r.counted == Range(|at|);
    }
  }

  function Left(at: seq<nat>, tick: nat): nat {
    if Latest(at) <= tick then 0 else Latest(at) - tick
  }

  /** The polling loop: passes over all requests until the counter is used up. */
  function Loop(once: bool, at: seq<nat>, p: Poll): (r: Poll)
    requires |at| == |p.lists| && Tallied(once, |at|, p)
    ensures |r.lists| == |p.lists|
    decreases Left(at, p.tick), if p.credits >= |at| then 0 else |at| - p.credits
  {
    if p.credits >= |at| then p
    else
      PassTallied(once, at, p, |at|);
      if Left(at, p.tick) == 0 then PassProgress(once, at, p); Loop(once, at, Pass(once, at, p, |at|))
      else Loop(once, at, Pass(once, at, p, |at|))
  }

  function Begin(lists: seq<seq<int>>): Poll {
    Poll(0, lists, [], 0, {})
  }

  // ---------------------------------------------------------------- the loops, in place

  class Request {
    var callbacks: seq<int>

    constructor ()
      ensures callbacks == []
    {
      callbacks := [];
    }

    method AddCallback(cb: int)
      modifies this
      ensures callbacks == old(callbacks) + [cb]
    {
      callbacks := callbacks + [cb];
    }

    /** The callbacks run, in order; `log` is the record of what ran before. */
    method ExecuteAllCallbacks(request: nat, tick: nat, log: seq<Ran>) returns (log': seq<Ran>)
      modifies this
      ensures callbacks == [] && log' == log + Entries(request, old(callbacks), tick)
    {
      log' := log;
      for k := 0 to |callbacks|
        invariant callbacks == old(callbacks)
        invariant log' == log + Entries(request, callbacks[..k], tick)
      {
        assert callbacks[..k + 1][..k] == callbacks[..k];
        log' := log' + [Ran(request, callbacks[k], tick)];
      }
      assert callbacks[..|callbacks|] == callbacks;
      callbacks := [];
    }
  }

  ghost predicate Holds(reqs: seq<Request>, lists: seq<seq<int>>)
    reads reqs
  {
    |lists| == |reqs| && forall k :: 0 <= k < |reqs| ==> reqs[k].callbacks == lists[k]
  }

  /** One pass of queries over all requests. */
  method PollAll(once: bool, reqs: seq<Request>, at: seq<nat>, tick: nat, log: seq<Ran>, counted: set<nat>,
                 remaining: int, ghost p: Poll)
      returns (tick': nat, log': seq<Ran>, counted': set<nat>, remaining': int)
    requires Distinct(reqs) && |at| == |reqs| && Holds(reqs, p.lists)
    requires p.tick == tick && p.log == log && p.counted == counted && remaining == |at| - p.credits
    modifies reqs
    ensures var r := Pass(once, at, p, |at|);
      && Holds(reqs, r.lists) && r.tick == tick' && r.log == log' && r.counted == counted'
      && remaining' == |at| - r.credits
  {
    tick', log', counted', remaining' := tick, log, counted, remaining;
    ghost var q := p;
    for i := 0 to |reqs|
      invariant q == Pass(once, at, p, i) && Holds(reqs, q.lists)
      invariant q.tick == tick' && q.log == log' && q.counted == counted' && remaining' == |at| - q.credits
    {
      q := Query(once, at, q, i);
      if at[i] <= tick' {
        log' := reqs[i].ExecuteAllCallbacks(i, tick', log');
        if !(once && i in counted') {
          remaining' := remaining' - 1;
        }
        counted' := counted' + {i};
      }
      tick' := tick' + 1;
    }
  }

  /**
   Waits for all requests. With once = false the counter goes down at every success, as the library
   has it; with once = true it goes down at the first success of each request.
   */
  method WaitAll(once: bool, reqs: seq<Request>, at: seq<nat>, ghost lists: seq<seq<int>>)
      returns (tick: nat, log: seq<Ran>)
    requires Distinct(reqs) && |at| == |reqs| && Holds(reqs, lists)
    modifies reqs
    ensures var r := Loop(once, at, Begin(lists)); Holds(reqs, r.lists) && tick == r.tick && log == r.log
  {
    tick, log := 0, [];
    ghost var p := Begin(lists);
    if reqs == [] {
      return;
    }
    var remaining: int := |reqs|;
    var counted: set<nat> := {};
    while remaining > 0
      invariant |p.lists| == |at| && Tallied(once, |at|, p) && Holds(reqs, p.lists)
      invariant p.tick == tick && p.log == log && p.counted == counted && remaining == |at| - p.credits
      invariant Loop(once, at, p) == Loop(once, at, Begin(lists))
      decreases Left(at, tick), remaining
    {
      PassTallied(once, at, p, |at|);
      if Left(at, p.tick) == 0 { PassProgress(once, at, p); }
      tick, log, counted, remaining := PollAll(once, reqs, at, tick, log, counted, remaining, p);
      p := Pass(once, at, p, |at|);
    }
  }

  // ---------------------------------------------------------------- exactly once, in order, after completion

  /** What request i has run, in order. */
  function RanBy(log: seq<Ran>, i: nat): seq<int> {
    if log == [] then []
    else
      var front, last := log[..|log| - 1], log[|log| - 1];
      if last.request == i then RanBy(front, i) + [last.callback] else RanBy(front, i)
  }

  lemma RanBySnoc(log: seq<Ran>, last: Ran, i: nat)
    ensures RanBy(log + [last], i) == if last.request == i then RanBy(log, i) + [last.callback] else RanBy(log, i)
  {
    var all := log + [last];
    assert all[..|all| - 1] == log;
  }

  lemma {:induction false} RanByEntries(log: seq<Ran>, request: nat, callbacks: seq<int>, tick: nat, i: nat)
    ensures RanBy(log + Entries(request, callbacks, tick), i)
      == if request == i then RanBy(log, i) + callbacks else RanBy(log, i)
    decreases |callbacks|
  {
    if callbacks == [] {
      assert log + Entries(request, callbacks, tick) == log;
    } else {
      var front, last := callbacks[..|callbacks| - 1], Ran(request, callbacks[|callbacks| - 1], tick);
      var entries := Entries(request, front, tick);
      RanByEntries(log, request, front, tick, i);
      RanBySnoc(log + entries, last, i);
      assert log + (entries + [last]) == log + entries + [last];
      assert callbacks == front + [last.callback];
    }
  }

  lemma {:induction false} EntriesAt(request: nat, callbacks: seq<int>, tick: nat, k: nat)
    requires k < |callbacks|
    ensures Entries(request, callbacks, tick)[k] == Ran(request, callbacks[k], tick)
    decreases |callbacks|
  {
    if k < |callbacks| - 1 { EntriesAt(request, callbacks[..|callbacks| - 1], tick, k); }
  }

  /** What ran and what is still registered are together what was registered, request by request. */
  ghost predicate Conserved(lists: seq<seq<int>>, p: Poll) {
    |lists| == |p.lists| && forall i: nat :: i < |lists| ==> RanBy(p.log, i) + p.lists[i] == lists[i]
  }

  /** Callbacks run only once the event of their request is complete. */
  ghost predicate AfterCompletion(at: seq<nat>, p: Poll) {
    forall k :: 0 <= k < |p.log| ==> p.log[k].request < |at| && at[p.log[k].request] <= p.log[k].tick <= p.tick
  }

  /** Every counted request is complete and has nothing left to run. */
  ghost predicate CountedDone(at: seq<nat>, p: Poll) {
    |at| == |p.lists| && forall i :: i in p.counted ==> i < |at| && at[i] <= p.tick && p.lists[i] == []
  }

  ghost predicate PollOk(at: seq<nat>, lists: seq<seq<int>>, p: Poll) {
    |at| == |lists| && Conserved(lists, p) && AfterCompletion(at, p) && CountedDone(at, p)
  }

  lemma QueryOk(once: bool, at: seq<nat>, lists: seq<seq<int>>, p: Poll, i: nat)
    requires i < |at| && PollOk(at, lists, p)
    ensures PollOk(at, lists, Query(once, at, p, i))
  {
    var r := Query(once, at, p, i);
    if at[i] <= p.tick {
      forall j: nat | j < |lists| ensures RanBy(r.log, j) + r.lists[j] == lists[j] {
        RanByEntries(p.log, i, p.lists[i], p.tick, j);
      }
      forall k | 0 <= k < |r.log|
        ensures r.log[k].request < |at| && at[r.log[k].request] <= r.log[k].tick <= r.tick
      {
        if k >= |p.log| { EntriesAt(i, p.lists[i], p.tick, k - |p.log|); }
      }
    }
  }

  lemma {:induction false} PassOk(once: bool, at: seq<nat>, lists: seq<seq<int>>, p: Poll, k: nat)
    requires k <= |at| && PollOk(at, lists, p)
    ensures PollOk(at, lists, Pass(once, at, p, k))
    decreases k
  {
    if k > 0 {
      PassOk(once, at, lists, p, k - 1);
      QueryOk(once, at, lists, Pass(once, at, p, k - 1), k - 1);
    }
  }

  lemma {:induction false} LoopOk(once: bool, at: seq<nat>, lists: seq<seq<int>>, p: Poll)
    requires PollOk(at, lists, p) && Tallied(once, |at|, p)
    ensures var r := Loop(once, at, p);
      PollOk(at, lists, r) && Tallied(once, |at|, r) && r.credits >= |at|
    decreases Left(at, p.tick), if p.credits >= |at| then 0 else |at| - p.credits
  {
    if p.credits < |at| {
      PassTallied(once, at, p, |at|);
      PassOk(once, at, lists, p, |at|);
      if Left(at, p.tick) == 0 { PassProgress(once, at, p); }
      LoopOk(once, at, lists, Pass(once, at, p, |at|));
    }
  }

  /** Either loop runs each callback at most once, in registration order, after its event completed. */
  lemma CallbacksOnce(once: bool, at: seq<nat>, lists: seq<seq<int>>)
    requires |at| == |lists|
    ensures PollOk(at, lists, Loop(once, at, Begin(lists)))
  {
    LoopOk(once, at, lists, Begin(lists));
  }

  // ---------------------------------------------------------------- when the loops return

  /** On return every event is complete and every callback has run. */
  ghost predicate Waited(at: seq<nat>, lists: seq<seq<int>>, r: Poll)
    requires |at| == |lists|
  {
    forall i: nat :: i < |at| ==> at[i] <= r.tick && RanBy(r.log, i) == lists[i]
  }

  lemma AllCountedWaited(at: seq<nat>, lists: seq<seq<int>>, r: Poll)
    requires PollOk(at, lists, r) && r.counted == Range(|at|)
    ensures Waited(at, lists, r)
  {
    forall i: nat | i < |at| ensures at[i] <= r.tick && RanBy(r.log, i) == lists[i] {
      assert i in r.counted;
      assert RanBy(r.log, i) + r.lists[i] == lists[i];
    }
  }

  /** With one decrement per request the loop ends with every event complete and every callback run once. */
  lemma OnceWaits(at: seq<nat>, lists: seq<seq<int>>)
    requires |at| == |lists|
    ensures Waited(at, lists, Loop(true, at, Begin(lists)))
  {
    var r := Loop(true, at, Begin(lists));
    LoopOk(true, at, lists, Begin(lists));
    RangeCard(|at|);
    assert r.counted <= Range(|at|);
    SubsetCard(r.counted, Range(|at|));
    AllCountedWaited(at, lists, r);
  }

  /** Request 0 is complete from the start, the others only after n passes. */
  ghost function LateSchedule(n: nat): (at: seq<nat>)
    requires n > 0
    ensures |at| == n && at[0] == 0 && forall i :: 1 <= i < n ==> at[i] == n * n + 1
  {
    seq(n, i => if i == 0 then 0 else n * n + 1)
  }

  lemma {:induction false} LatePass(at: seq<nat>, p: Poll, k: nat)
    requires k <= |at| == |p.lists| && at != [] && at[0] == 0
    requires forall i :: 1 <= i < |at| ==> at[i] >= p.tick + |at|
    ensures Pass(false, at, p, k).credits == p.credits + if k == 0 then 0 else 1
    decreases k
  {
    if k > 0 { LatePass(at, p, k - 1); }
  }

  /** Each pass takes one credit for request 0, so after n passes the loop is done waiting. */
  lemma {:induction false} LateLoop(at: seq<nat>, p: Poll, passes: nat, n: nat)
    requires n == |at| == |p.lists| && at != [] && at[0] == 0 && Tallied(false, n, p)
    requires passes + p.credits == n
    requires forall i :: 1 <= i < n ==> at[i] >= p.tick + n * passes
    ensures Loop(false, at, p).tick == p.tick + n * passes
    decreases passes
  {
    if passes > 0 {
      assert n * passes == n * (passes - 1) + n;
      LatePass(at, p, n);
      PassTallied(false, at, p, n);
      LateLoop(at, Pass(false, at, p, n), passes - 1, n);
    }
  }

  /** The written loop, given two or more requests, can return while one is not complete. */
  lemma ReturnsEarly(lists: seq<seq<int>>)
    requires |lists| >= 2
    ensures !Waited(LateSchedule(|lists|), lists, Loop(false, LateSchedule(|lists|), Begin(lists)))
  {
    var n := |lists|;
    LateLoop(LateSchedule(n), Begin(lists), n, n);
    assert LateSchedule(n)[1] == n * n + 1;
  }

  /** The written loop waits for all requests, whatever the schedule, exactly when there is at most one. */
  lemma WrittenWaits(lists: seq<seq<int>>)
    ensures (forall at :: |at| == |lists| ==> Waited(at, lists, Loop(false, at, Begin(lists)))) <==> |lists| <= 1
  {
    if |lists| >= 2 {
      ReturnsEarly(lists);
    } else {
      forall at | |at| == |lists| ensures Waited(at, lists, Loop(false, at, Begin(lists))) {
        if |at| == 1 { SingleWaits(at, lists, Begin(lists)); }
      }
    }
  }

  lemma {:induction false} SingleWaits(at: seq<nat>, lists: seq<seq<int>>, p: Poll)
    requires |at| == |lists| == |p.lists| == 1 && PollOk(at, lists, p) && Tallied(false, 1, p) && p.credits == |p.counted|
    ensures Waited(at, lists, Loop(false, at, p))
    decreases Left(at, p.tick), if p.credits >= 1 then 0 else 1 - p.credits
  {
    if p.credits >= 1 {
      RangeCard(1);
      assert p.counted <= Range(1);
      SubsetCard(p.counted, Range(1));
      AllCountedWaited(at, lists, p);
    } else {
      var r := Pass(false, at, p, 1);
      assert Pass(false, at, p, 0) == p;
      assert p.counted == {};
      PassTallied(false, at, p, 1);
      PassOk(false, at, lists, p, 1);
      if Left(at, p.tick) == 0 { PassProgress(false, at, p); }
      SingleWaits(at, lists, r);
    }
  }

  // ---------------------------------------------------------------- waiting for one

  /**
   Waits for any one request: polls in order until one is complete, runs its callbacks and reports
   it. The request reported is the first found complete; none is reported only of an empty list.
   */
  method WaitAny(reqs: seq<Request>, at: seq<nat>, ghost lists: seq<seq<int>>)
      returns (index: Option<nat>, tick: nat, log: seq<Ran>)
    requires Distinct(reqs) && |at| == |reqs| && Holds(reqs, lists)
    modifies reqs
    ensures index == None <==> reqs == []
    ensures index == None ==> Holds(reqs, lists) && log == []
    ensures index.Some? ==>
      var k := index.value;
      && k < |reqs| && at[k] <= tick && Holds(reqs, lists[k := []]) && log == Entries(k, lists[k], tick)
      && (forall j :: 0 <= j < k ==> at[j] > tick - k + j)
      && (forall j :: k < j < |reqs| && tick >= |reqs| ==> at[j] > tick - k + j - |reqs|)
  {
    tick, log := 0, [];
    if reqs == [] {
      return None, tick, log;
    }
    while true
      invariant Holds(reqs, lists) && log == []
      invariant forall j :: 0 <= j < |reqs| && tick > 0 ==> at[j] > tick - |reqs| + j
      invariant tick == 0 || tick >= |reqs|
      decreases Left(at, tick)
    {
      ghost var start := tick;
      for r := 0 to |reqs|
        invariant Holds(reqs, lists) && log == [] && tick == start + r
        invariant forall j :: 0 <= j < r ==> at[j] > start + j
      {
        if at[r] <= tick {
          log := reqs[r].ExecuteAllCallbacks(r, tick, log);
          return Some(r), tick, log;
        }
        tick := tick + 1;
      }
      assert at[0] > start;
    }
  }
}
