/** What each completing, moving or destroying step of a run does to the log and to every request. */
module RequestSteps {
  import opened Common
  import opened Pigeonhole
  import opened RequestRuns

  /** The callback that is pending on request r, after it ran, or otherwise as it was. */
  ghost predicate FateAfter(before: Fate, rs: seq<nat>, ran: Fate, after: Fate) {
    after == if before.Pending? && before.r in rs then ran else before
  }

  ghost predicate FatesAfter(s: State, rs: seq<nat>, ran: Fate, s': State) {
    |s'.fates| == |s.fates| && forall k :: 0 <= k < |s.fates| ==> FateAfter(s.fates[k], rs, ran, s'.fates[k])
  }

  /** All requests but those listed are as they were, and so is the library. */
  ghost predicate OthersKept(s: State, rs: seq<nat>, s': State) {
    && s'.reqs.Keys == s.reqs.Keys && s'.ops == s.ops && s'.lists == s.lists
    && forall r :: r in s.reqs && r !in rs ==> s'.reqs[r] == s.reqs[r]
  }

  /** The log as it grows while the callbacks of rs[0], rs[1], ... run one list after the other. */
  ghost predicate GrowsBy(s: State, rs: seq<nat>, logs: seq<seq<Ran>>) {
    && |logs| == |rs| + 1 && logs[0] == s.log
    && forall k :: 0 <= k < |rs| ==> rs[k] in s.reqs && AddsList(s.reqs[rs[k]], logs[k], logs[k + 1])
  }

  /** The callbacks of a request are added to the log in list order, for the operation it stands for. */
  ghost predicate AddsList(q: Req, log: seq<Ran>, log': seq<Ran>) {
    && |log'| == |log| + |q.callbacks| && log <= log'
    && forall m :: 0 <= m < |q.callbacks| ==> log'[|log| + m] == Ran(q.callbacks[m], q.handle)
  }

  lemma AddsEntries(q: Req, log: seq<Ran>, log': seq<Ran>)
    ensures AddsList(q, log, log') <==> log' == log + Entries(q.callbacks, q.handle)
  {
    var es := Entries(q.callbacks, q.handle);
    if AddsList(q, log, log') {
      forall p | 0 <= p < |log'| ensures log'[p] == (log + es)[p] {
        if p >= |log| { assert log'[|log| + (p - |log|)] == Ran(q.callbacks[p - |log|], q.handle); }
      }
    }
  }

  /** A request whose callbacks have run through a copy of its handle: usable only if there was no operation. */
  function Completed(q: Req): Req {
    Req(q.handle, q.usable && q.handle == None, q.list, [])
  }

  lemma {:induction false} ExecuteAllDoes(s: State, rs: seq<nat>, logs: seq<seq<Ran>>)
    requires Distinct(rs) && (forall r :: r in rs ==> r in s.reqs) && GrowsBy(s, rs, logs)
    ensures var s' := ExecuteAll(s, rs);
      && s'.log == logs[|rs|] && OthersKept(s, rs, s') && FatesAfter(s, rs, Executed, s')
      && forall r :: r in rs ==> s'.reqs[r] == Completed(s.reqs[r])
    decreases |rs|
  {
    if rs != [] {
      var n := |rs| - 1;
      var front, last := rs[..n], rs[n];
      assert forall r :: r in rs <==> r in front || r == last;
      ExecuteAllDoes(s, front, logs[..|rs|]);
      AddsEntries(s.reqs[last], logs[n], logs[n + 1]);
      ExecuteDoes(s, ExecuteAll(s, front), front, last, rs);
    }
  }

  /** One more list run, after those of `front`. */
  lemma ExecuteDoes(s: State, m: State, front: seq<nat>, last: nat, rs: seq<nat>)
    requires OthersKept(s, front, m) && FatesAfter(s, front, Executed, m) && last in s.reqs && last !in front
    requires forall r :: r in front ==> r in s.reqs && m.reqs[r] == Completed(s.reqs[r])
    requires forall r :: r in rs <==> r in front || r == last
    ensures var s' := Execute(m, last, true);
      && s'.log == m.log + Entries(s.reqs[last].callbacks, s.reqs[last].handle)
      && OthersKept(s, rs, s') && FatesAfter(s, rs, Executed, s')
      && forall r :: r in rs ==> s'.reqs[r] == Completed(s.reqs[r])
  {
    var s' := Execute(m, last, true);
    forall k | 0 <= k < |s.fates| ensures FateAfter(s.fates[k], rs, Executed, s'.fates[k]) {
      assert FateAfter(s.fates[k], front, Executed, m.fates[k]);
    }
  }

  function Logs(s: State, rs: seq<nat>): (logs: seq<seq<Ran>>)
    requires forall r :: r in rs ==> r in s.reqs
    ensures |logs| == |rs| + 1
  {
    if rs == [] then [s.log]
    else
      var front, last := Logs(s, rs[..|rs| - 1]), s.reqs[rs[|rs| - 1]];
      front + [front[|rs| - 1] + Entries(last.callbacks, last.handle)]
  }

  lemma {:induction false} LogsGrow(s: State, rs: seq<nat>)
    requires forall r :: r in rs ==> r in s.reqs
    ensures GrowsBy(s, rs, Logs(s, rs))
    decreases |rs|
  {
    if rs != [] {
      var n := |rs| - 1;
      var logs, front := Logs(s, rs), Logs(s, rs[..n]);
      LogsGrow(s, rs[..n]);
      AddsEntries(s.reqs[rs[n]], logs[n], logs[n + 1]);
      forall k | 0 <= k < |rs| ensures AddsList(s.reqs[rs[k]], logs[k], logs[k + 1]) {
        if k < n { assert rs[..n][k] == rs[k] && AddsList(s.reqs[rs[..n][k]], front[k], front[k + 1]); }
      }
    }
  }

  /**
   wait_all: the pending lists of the given requests run one after the other, in order; each of these
   requests has none left and, if it stood for an operation, keeps a stale handle. No other request changes.
   */
  lemma WaitAllStep(s: State, rs: seq<nat>) returns (logs: seq<seq<Ran>>)
    requires Enabled(s, WaitAll(rs))
    ensures GrowsBy(s, rs, logs) && Apply(s, WaitAll(rs)).log == logs[|rs|]
    ensures OthersKept(s, rs, Apply(s, WaitAll(rs))) && FatesAfter(s, rs, Executed, Apply(s, WaitAll(rs)))
    ensures forall r :: r in rs ==> r in s.reqs && Apply(s, WaitAll(rs)).reqs[r] == Completed(s.reqs[r])
  {
    logs := Logs(s, rs);
    LogsGrow(s, rs);
    ExecuteAllDoes(s, rs, logs);
  }

  /** The lists grow in one way only, so the log after wait_all is settled by the lists before it. */
  lemma {:induction false} GrowsOneWay(s: State, rs: seq<nat>, logs: seq<seq<Ran>>, logs': seq<seq<Ran>>)
    requires GrowsBy(s, rs, logs) && GrowsBy(s, rs, logs')
    ensures logs == logs'
    decreases |rs|
  {
    if rs != [] {
      var n := |rs| - 1;
      GrowsOneWay(s, rs[..n], logs[..|rs|], logs'[..|rs|]);
      assert logs[n] == logs[..|rs|][n] && logs'[n] == logs'[..|rs|][n];
      AddsEntries(s.reqs[rs[n]], logs[n], logs[n + 1]);
      AddsEntries(s.reqs[rs[n]], logs'[n], logs'[n + 1]);
      assert logs == logs[..|rs|] + [logs[n + 1]] && logs' == logs'[..|rs|] + [logs'[n + 1]];
    }
  }

  /** wait_any: the list of the request picked runs, and nothing else happens. */
  lemma WaitAnyStep(s: State, rs: seq<nat>, k: nat)
    requires Enabled(s, WaitAny(rs, k))
    ensures var s' := Apply(s, WaitAny(rs, k));
      && AddsList(s.reqs[rs[k]], s.log, s'.log) && s'.reqs[rs[k]] == Completed(s.reqs[rs[k]])
      && OthersKept(s, [rs[k]], s') && FatesAfter(s, [rs[k]], Executed, s')
  {
    AddsEntries(s.reqs[rs[k]], s.log, Apply(s, WaitAny(rs, k)).log);
  }

  /** wait: the list of the request runs, and its handle is null. */
  lemma WaitStep(s: State, r: nat)
    requires Enabled(s, Wait(r))
    ensures var s' := Apply(s, Wait(r));
      && AddsList(s.reqs[r], s.log, s'.log) && s'.reqs[r] == Req(None, true, s.reqs[r].list, [])
      && OthersKept(s, [r], s') && FatesAfter(s, [r], Executed, s')
  {
    AddsEntries(s.reqs[r], s.log, Apply(s, Wait(r)).log);
  }

  /** test: as wait, if the operation is complete or there is none; else nothing happens. */
  lemma TestStep(s: State, r: nat)
    requires Enabled(s, Test(r))
    ensures Enabled(s, Wait(r)) ==> Apply(s, Test(r)) == Apply(s, Wait(r))
    ensures !Enabled(s, Wait(r)) ==> Apply(s, Test(r)) == s
  {}

  /** A move takes handle and callbacks along; what the target of an assignment had is dropped. Nothing runs. */
  lemma MoveStep(s: State, src: nat, dst: nat, st: Step)
    requires Enabled(s, st) && (st == MoveConstruct(src, dst) || st == MoveAssign(src, dst))
    ensures var s' := Apply(s, st);
      && s'.log == s.log && s'.ops == s.ops && s'.reqs.Keys == s.reqs.Keys + {dst}
      && s'.reqs[dst] == s.reqs[src] && s'.reqs[src].handle == s.reqs[src].handle && s'.reqs[src].callbacks == []
      && (forall q :: q in s.reqs && q != src && q != dst ==> s'.reqs[q] == s.reqs[q])
      && |s'.fates| == |s.fates|
      && forall k :: 0 <= k < |s.fates| ==>
           s'.fates[k] == if s.fates[k] == Pending(src) then Pending(dst)
                          else if st.MoveAssign? && s.fates[k] == Pending(dst) then Dropped else s.fates[k]
  {}

  /** Destroying a request drops what is pending on it. */
  lemma DestroyStep(s: State, r: nat)
    requires Enabled(s, Destroy(r))
    ensures var s' := Apply(s, Destroy(r));
      && s'.log == s.log && s'.ops == s.ops && s'.reqs == s.reqs - {r} && FatesAfter(s, [r], Dropped, s')
  {}

  // ---------------------------------------------------------------- starting and registering

  /** A new request has a list of its own, and no operation. */
  lemma ConstructStep(s: State, r: nat)
    requires Enabled(s, Construct(r))
    ensures Apply(s, Construct(r)) == s.(reqs := s.reqs[r := Req(None, true, s.lists, [])], lists := s.lists + 1)
  {}

  /** The new callbacks of a request hold what they are given, one each, in order, and stand for its operation. */
  ghost predicate Registers(s: State, r: nat, op: Option<nat>, holds: seq<set<nat>>, s': State)
    requires r in s.reqs
  {
    && s'.reqs.Keys == s.reqs.Keys && s'.log == s.log && s'.lists == s.lists
    && (forall q :: q in s.reqs && q != r ==> s'.reqs[q] == s.reqs[q])
    && s'.reqs[r].handle == op && s'.reqs[r].usable == s.reqs[r].usable && s'.reqs[r].list == s.reqs[r].list
    && |s'.reqs[r].callbacks| == |s.reqs[r].callbacks| + |holds| && s.reqs[r].callbacks <= s'.reqs[r].callbacks
    && (forall p :: |s.reqs[r].callbacks| <= p < |s'.reqs[r].callbacks| ==>
          var k := p - |s.reqs[r].callbacks|;
          s'.reqs[r].callbacks[p] == Callback(|s.fates| + k, s.reqs[r].list, op, holds[k]))
    && |s'.fates| == |s.fates| + |holds| && s.fates <= s'.fates
    && forall p :: |s.fates| <= p < |s'.fates| ==> s'.fates[p] == Pending(r)
  }

  lemma {:induction false} RegisterAllDoes(s: State, r: nat, holds: seq<set<nat>>)
    requires r in s.reqs
    ensures Registers(s, r, s.reqs[r].handle, holds, RegisterAll(s, r, holds)) && RegisterAll(s, r, holds).ops == s.ops
    decreases |holds|
  {
    if holds != [] {
      var n := |holds| - 1;
      RegisterAllDoes(s, r, holds[..n]);
      RegistersNext(s, r, s.reqs[r].handle, holds, RegisterAll(s, r, holds[..n]));
    }
  }

  lemma RegistersNext(s: State, r: nat, op: Option<nat>, holds: seq<set<nat>>, m: State)
    requires r in s.reqs && holds != [] && Registers(s, r, op, holds[..|holds| - 1], m)
    ensures Registers(s, r, op, holds, Register(m, r, holds[|holds| - 1]))
    ensures Register(m, r, holds[|holds| - 1]).ops == m.ops
  {
    var n, before, s' := |holds| - 1, |s.reqs[r].callbacks|, Register(m, r, holds[|holds| - 1]);
    forall p | before <= p < |s'.reqs[r].callbacks|
      ensures s'.reqs[r].callbacks[p] == Callback(|s.fates| + (p - before), s.reqs[r].list, op, holds[p - before])
    {
      if p - before < n {
        assert s'.reqs[r].callbacks[p] == m.reqs[r].callbacks[p];
        assert holds[..n][p - before] == holds[p - before];
      }
    }
  }

  /** A launch adds an operation on the given buffers, and the request, now standing for it, gets the callbacks. */
  lemma LaunchStep(s: State, r: nat, given: set<nat>, holds: seq<set<nat>>)
    requires Enabled(s, Launch(r, given, holds))
    ensures var s' := Apply(s, Launch(r, given, holds));
      s'.ops == s.ops + [Operation(given, false)] && Registers(s, r, Some(|s.ops|), holds, s')
  {
    var m := Begin(s, r, given);
    assert m.reqs.Keys == s.reqs.Keys;
    RegisterAllDoes(m, r, holds);
    assert RegisterAll(m, r, holds).reqs.Keys == s.reqs.Keys;
  }

  /** Registering adds one callback; a view that is not managed is not captured. */
  lemma RegisterStep(s: State, r: nat, held: set<nat>, buffer: nat)
    requires Enabled(s, AddCallback(r, held))
    ensures var s' := Apply(s, AddCallback(r, held)); s'.ops == s.ops && Registers(s, r, s.reqs[r].handle, [held], s')
    ensures Apply(s, ExtendViewLifetime(r, buffer, true)) == Apply(s, AddCallback(r, {buffer}))
    ensures Apply(s, ExtendViewLifetime(r, buffer, false)) == s
  {}

  /** The library completes one operation at a time. */
  lemma CompletesStep(s: State, op: nat)
    requires Enabled(s, OperationCompletes(op))
    ensures var s' := Apply(s, OperationCompletes(op));
      && s' == s.(ops := s'.ops) && |s'.ops| == |s.ops| && s'.ops[op] == Operation(s.ops[op].buffers, true)
      && forall o :: 0 <= o < |s.ops| && o != op ==> s'.ops[o] == s.ops[o]
  {}
}
