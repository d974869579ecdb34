/**
 Channels of persistent requests: what each operation does to the channel and to the library, and
 who owns which request over whole runs.
 */
module Channels {
  import opened Common
  import opened Pigeonhole
  import L = Ownership

  /** A persistent request as registered with the library. */
  datatype Registration = Registration(send: bool, peer: int, tag: int, comm: int)

  /** The library: every request ever registered, those between start and completion, and the freed ones. */
  datatype Library = Library(registered: seq<Registration>, active: set<nat>, freed: seq<nat>)

  /** A channel's fields; a request is known by its place in the library's list. */
  datatype Fields = Fields(requests: seq<nat>, statuses: seq<int>, dst: int, src: int, tag: int, comm: int)

  /** A vector resized to n: cut off, or filled up with fresh entries. */
  function Resized(s: seq<int>, n: nat): (r: seq<int>)
    ensures |r| == n && forall k :: 0 <= k < n && k < |s| ==> r[k] == s[k]
    decreases n - |s|
  {
    if |s| >= n then s[..n] else Resized(s + [0], n)
  }

  function Registered(f: Fields, m: Library): Fields {
    f.(requests := f.requests + [|m.registered|], statuses := Resized(f.statuses, |f.requests| + 1))
  }

  function Registering(f: Fields, m: Library, send: bool): Library {
    m.(registered := m.registered + [Registration(send, if send then f.dst else f.src, f.tag, f.comm)])
  }

  function Cleared(f: Fields): Fields {
    f.(requests := [], statuses := [])
  }

  // ---------------------------------------------------------------- the class

  class Mpi {
    var state: Library

    constructor ()
      ensures state == Library([], {}, [])
    {
      state := Library([], {}, []);
    }

    method Init(send: bool, peer: int, tag: int, comm: int) returns (request: nat)
      modifies this
      ensures request == |old(state).registered|
      ensures state == old(state).(registered := old(state).registered + [Registration(send, peer, tag, comm)])
    {
      request := |state.registered|;
      state := state.(registered := state.registered + [Registration(send, peer, tag, comm)]);
    }

    /** Only inactive requests may be started. */
    method Startall(requests: seq<nat>)
      requires Elements(requests) !! state.active
      modifies this
      ensures state == old(state).(active := old(state).active + Elements(requests))
    {
      state := state.(active := state.active + Elements(requests));
    }

    /** Returns once all are complete; the requests become inactive but are kept. */
    method Waitall(requests: seq<nat>, outcome: seq<int>, statuses: seq<int>) returns (statuses': seq<int>)
      requires |outcome| == |requests| == |statuses|
      modifies this
      ensures state == old(state).(active := old(state).active - Elements(requests)) && statuses' == outcome
    {
      state := state.(active := state.active - Elements(requests));
      statuses' := outcome;
    }

    method RequestFree(request: nat)
      modifies this
      ensures state == old(state).(freed := old(state).freed + [request])
    {
      state := state.(freed := state.freed + [request]);
    }
  }

  class Channel {
    var requests: seq<nat>
    var statuses: seq<int>
    var dst: int
    var src: int
    var tag: int
    var comm: int

    function Value(): Fields
      reads this
    {
      Fields(requests, statuses, dst, src, tag, comm)
    }

    constructor (dst: int, src: int, tag: int, comm: int)
      ensures Value() == Fields([], [], dst, src, tag, comm)
    {
      this.requests, this.statuses, this.dst, this.src, this.tag, this.comm := [], [], dst, src, tag, comm;
    }

    constructor Move(other: Channel)
      modifies other
      ensures Value() == old(other.Value()) && other.Value() == Cleared(old(other.Value()))
      ensures other.requests == [] && other.statuses == []
    {
      requests, statuses, dst, src, tag, comm :=
        other.requests, other.statuses, other.dst, other.src, other.tag, other.comm;
      new;
      other.requests, other.statuses := [], [];
    }

    method SendInit(mpi: Mpi)
      modifies this, mpi
      ensures Value() == Registered(old(Value()), old(mpi.state))
      ensures mpi.state == Registering(old(Value()), old(mpi.state), true)
      ensures mpi.state.registered == old(mpi.state).registered + [Registration(true, old(dst), old(tag), old(comm))]
      ensures mpi.state.active == old(mpi.state).active && mpi.state.freed == old(mpi.state).freed
      ensures requests == old(requests) + [|old(mpi.state).registered|] && |statuses| == |requests|
      ensures dst == old(dst) && src == old(src) && tag == old(tag) && comm == old(comm)
    {
      var request := mpi.Init(true, dst, tag, comm);
      requests := requests + [request];
      statuses := Resized(statuses, |requests|);
    }

    method RecvInit(mpi: Mpi)
      modifies this, mpi
      ensures Value() == Registered(old(Value()), old(mpi.state))
      ensures mpi.state == Registering(old(Value()), old(mpi.state), false)
      ensures mpi.state.registered == old(mpi.state).registered + [Registration(false, old(src), old(tag), old(comm))]
      ensures mpi.state.active == old(mpi.state).active && mpi.state.freed == old(mpi.state).freed
      ensures requests == old(requests) + [|old(mpi.state).registered|] && |statuses| == |requests|
      ensures dst == old(dst) && src == old(src) && tag == old(tag) && comm == old(comm)
    {
      var request := mpi.Init(false, src, tag, comm);
      requests := requests + [request];
      statuses := Resized(statuses, |requests|);
    }

    method Start(mpi: Mpi)
      requires Elements(requests) !! mpi.state.active
      modifies mpi
      ensures Value() == old(Value())
      ensures mpi.state == old(mpi.state).(active := old(mpi.state).active + Elements(requests))
    {
      mpi.Startall(requests);
    }

    method Wait(mpi: Mpi, outcome: seq<int>)
      requires |outcome| == |requests| == |statuses|
      modifies this, mpi
      ensures Value() == old(Value()).(statuses := outcome)
      ensures mpi.state == old(mpi.state).(active := old(mpi.state).active - Elements(requests))
    {
      statuses := mpi.Waitall(requests, outcome, statuses);
    }

    /** Also what the destructor does. */
    method ReleaseRequests(mpi: Mpi)
      modifies this, mpi
      ensures Value() == Cleared(old(Value()))
      ensures mpi.state == old(mpi.state).(freed := old(mpi.state).freed + old(requests))
      ensures requests == [] && statuses == []
    {
      for k := 0 to |requests|
        invariant Value() == old(Value())
        invariant mpi.state == old(mpi.state).(freed := old(mpi.state).freed + requests[..k])
      {
        mpi.RequestFree(requests[k]);
        assert requests[..k + 1] == requests[..k] + [requests[k]];
      }
      assert requests[..|requests|] == requests;
      requests, statuses := [], [];
    }

    method Assign(other: Channel, mpi: Mpi)
      modifies this, other, mpi
      ensures this != other ==>
        && Value() == old(other.Value()) && other.Value() == Cleared(old(other.Value()))
        && other.requests == [] && other.statuses == []
        && mpi.state == old(mpi.state).(freed := old(mpi.state).freed + old(requests))
      ensures this == other ==> Value() == old(Value()) && mpi.state == old(mpi.state)
    {
      if this != other {
        ReleaseRequests(mpi);
        requests, statuses, dst, src, tag, comm :=
          other.requests, other.statuses, other.dst, other.src, other.tag, other.comm;
        other.requests, other.statuses := [], [];
      }
    }
  }

  // ---------------------------------------------------------------- whole runs

  /** ledger: (history) who owns which request. */
  datatype State = State(channels: map<nat, Fields>, mpi: Library, ledger: L.Ledger)

  datatype Step =
    | Construct(c: nat, dst: int, src: int, tag: int, comm: int)
    | SendInit(c: nat)
    | RecvInit(c: nat)
    | Start(c: nat)
    | Wait(c: nat, outcome: seq<int>)
    | MoveConstruct(from: nat, to: nat)
    | MoveAssign(from: nat, to: nat)
    | Destroy(c: nat)

  function Init(): State {
    State(map[], Library([], {}, []), L.Init())
  }

  /** No operation of a channel is under way. */
  predicate Quiet(s: State, c: nat) {
    c in s.channels && Elements(s.channels[c].requests) !! s.mpi.active
  }

  predicate Enabled(s: State, st: Step) {
    match st
    case Construct(c, _, _, _, _) => c !in s.channels
    case SendInit(c) => c in s.channels
    case RecvInit(c) => c in s.channels
    case Start(c) => Quiet(s, c)
    case Wait(c, outcome) => c in s.channels && |outcome| == |s.channels[c].requests| == |s.channels[c].statuses|
    case MoveConstruct(from, to) => from in s.channels && to !in s.channels
    case MoveAssign(from, to) => from in s.channels && to in s.channels && Quiet(s, to)
    case Destroy(c) => Quiet(s, c)
  }

  function Register(s: State, c: nat, send: bool): State
    requires c in s.channels
  {
    State(s.channels[c := Registered(s.channels[c], s.mpi)], Registering(s.channels[c], s.mpi, send),
          L.Note(s.ledger, L.Obtain(c)))
  }

  /** Each step does to the channel and the library what the method of the class does. */
  function Apply(s: State, st: Step): State
    requires Enabled(s, st)
  {
    var cs, m, l := s.channels, s.mpi, s.ledger;
    match st
    case Construct(c, dst, src, tag, comm) =>
      State(cs[c := Fields([], [], dst, src, tag, comm)], m, L.Note(l, L.Create(c)))
    case SendInit(c) => Register(s, c, true)
    case RecvInit(c) => Register(s, c, false)
    case Start(c) => s.(mpi := m.(active := m.active + Elements(cs[c].requests)))
    case Wait(c, outcome) =>
      s.(channels := cs[c := cs[c].(statuses := outcome)], mpi := m.(active := m.active - Elements(cs[c].requests)))
    case MoveConstruct(from, to) =>
      s.(channels := cs[to := cs[from]][from := Cleared(cs[from])], ledger := L.Note(l, L.MoveConstruct(from, to)))
    case MoveAssign(from, to) =>
      if from == to then s
      else State(cs[to := cs[from]][from := Cleared(cs[from])], m.(freed := m.freed + cs[to].requests),
                 L.Note(l, L.MoveAssign(from, to)))
    case Destroy(c) => State(cs - {c}, m.(freed := m.freed + cs[c].requests), L.Note(l, L.Destroy(c)))
  }

  ghost predicate Reaches(steps: seq<Step>, s: State)
    decreases |steps|
  {
    if steps == [] then s == Init()
    else
      var front, last := steps[..|steps| - 1], steps[|steps| - 1];
      exists p :: Reaches(front, p) && Enabled(p, last) && s == Apply(p, last)
  }

  // ---------------------------------------------------------------- invariant

  /** The ledger records what the channels and the library hold. */
  ghost predicate Matches(s: State) {
    && s.ledger.held.Keys == s.channels.Keys
    && (forall c :: c in s.channels ==> s.ledger.held[c] == s.channels[c].requests)
    && s.ledger.freed == s.mpi.freed && |s.ledger.fates| == |s.mpi.registered|
  }

  ghost predicate LengthsOk(s: State) {
    forall c :: c in s.channels ==> |s.channels[c].statuses| == |s.channels[c].requests|
  }

  /** What is active is held, not freed. */
  ghost predicate ActiveOk(s: State) {
    forall h :: h in s.mpi.active ==> h < |s.ledger.fates| && s.ledger.fates[h].Held?
  }

  ghost predicate Inv(s: State) {
    Matches(s) && LengthsOk(s) && ActiveOk(s) && L.Inv(s.ledger)
  }

  /** The step of the ledger a step of the channels is, if it is one. */
  function LedgerStep(st: Step): L.Step {
    match st
    case Construct(c, _, _, _, _) => L.Create(c)
    case SendInit(c) => L.Obtain(c)
    case RecvInit(c) => L.Obtain(c)
    case MoveConstruct(from, to) => L.MoveConstruct(from, to)
    case MoveAssign(from, to) => L.MoveAssign(from, to)
    case Destroy(c) => L.Destroy(c)
    case Start(c) => L.Obtain(c)
    case Wait(c, _) => L.Obtain(c)
  }

  lemma LedgerOk(s: State, st: Step)
    requires Inv(s) && Enabled(s, st) && !st.Start? && !st.Wait?
    ensures L.Enabled(s.ledger, LedgerStep(st)) && Apply(s, st).ledger == L.Apply(s.ledger, LedgerStep(st))
    ensures L.Inv(Apply(s, st).ledger)
  {
    L.StepOk(s.ledger, LedgerStep(st));
  }

  /** A handle that is active is not among those a quiet channel frees. */
  lemma QuietHeld(s: State, c: nat, h: nat)
    requires Inv(s) && Quiet(s, c) && h in s.mpi.active
    ensures h < |s.ledger.fates| && s.ledger.fates[h] != L.Held(c)
  {
    assert L.HandleOk(s.ledger, h);
    assert s.ledger.held[c] == s.channels[c].requests;
  }

  lemma StartActive(s: State, c: nat)
    requires Inv(s) && Enabled(s, Start(c))
    ensures ActiveOk(Apply(s, Start(c)))
  {
    assert L.OwnerOk(s.ledger, c);
    forall h | h in Elements(s.channels[c].requests) ensures h < |s.ledger.fates| && s.ledger.fates[h].Held? {
      var k :| 0 <= k < |s.ledger.held[c]| && s.ledger.held[c][k] == h;
    }
  }

  lemma OtherActive(s: State, st: Step)
    requires Inv(s) && Enabled(s, st) && !st.Start?
    ensures ActiveOk(Apply(s, st))
  {
    var s' := Apply(s, st);
    forall h | h in s'.mpi.active ensures h < |s'.ledger.fates| && s'.ledger.fates[h].Held? {
      if st.Destroy? { QuietHeld(s, st.c, h); }
      if st.MoveAssign? { QuietHeld(s, st.to, h); }
    }
  }

  lemma StepOk(s: State, st: Step)
    requires Inv(s) && Enabled(s, st)
    ensures Inv(Apply(s, st))
  {
    if st.Start? { StartActive(s, st.c); } else { OtherActive(s, st); }
    if !st.Start? && !st.Wait? { LedgerOk(s, st); }
  }

  lemma {:induction false} ReachableOk(steps: seq<Step>, s: State)
    requires Reaches(steps, s)
    ensures Inv(s)
    decreases |steps|
  {
    if steps != [] {
      var front, last := steps[..|steps| - 1], steps[|steps| - 1];
      var p :| Reaches(front, p) && Enabled(p, last) && s == Apply(p, last);
      ReachableOk(front, p);
      StepOk(p, last);
    }
  }

  // ---------------------------------------------------------------- what it means

  /** Channel o lists request h once, and no other channel lists it. */
  ghost predicate SoleOwner(s: State, o: nat, h: nat) {
    && o in s.channels && Count(s.channels[o].requests, h) == 1
    && forall c :: c in s.channels && c != o ==> Count(s.channels[c].requests, h) == 0
  }

  /**
   In every run each registered request belongs to exactly one channel, once, until it is freed,
   and is freed exactly once; what is active is not freed.
   */
  lemma RequestsOwned(steps: seq<Step>, s: State, h: nat)
    requires Reaches(steps, s) && h < |s.mpi.registered|
    ensures Count(s.mpi.freed, h) <= 1 && (h in s.mpi.active ==> Count(s.mpi.freed, h) == 0)
    ensures Count(s.mpi.freed, h) == 1 ==> forall c :: c in s.channels ==> Count(s.channels[c].requests, h) == 0
    ensures Count(s.mpi.freed, h) == 0 ==> exists o :: SoleOwner(s, o, h)
  {
    ReachableOk(steps, s);
    L.OneOwner(s.ledger, h);
    forall c | c in s.channels
      ensures Count(s.channels[c].requests, h) == if s.ledger.fates[h] == L.Held(c) then 1 else 0
    {
      assert s.ledger.held[c] == s.channels[c].requests;
    }
    if s.ledger.fates[h].Held? {
      var o := s.ledger.fates[h].owner;
      assert SoleOwner(s, o, h);
    }
  }

  /** Once all channels are gone every request that was ever registered has been freed exactly once. */
  lemma NothingLeaks(steps: seq<Step>, s: State, h: nat)
    requires Reaches(steps, s) && s.channels == map[]
    ensures Count(s.mpi.freed, h) == if h < |s.mpi.registered| then 1 else 0
  {
    ReachableOk(steps, s);
    assert s.ledger.held.Keys == {};
    assert s.ledger.held == map[];
    L.AllFreed(s.ledger, h);
  }

  /** Each channel always has as many statuses as requests, so a wait never finds too few. */
  lemma StatusesMatch(steps: seq<Step>, s: State, c: nat)
    requires Reaches(steps, s) && c in s.channels
    ensures |s.channels[c].statuses| == |s.channels[c].requests|
  {
    ReachableOk(steps, s);
  }

  /** Starting makes each request of the channel active; the wait makes each inactive and keeps it. */
  lemma StartAndWait(s: State, c: nat, outcome: seq<int>)
    requires c in s.channels
    ensures Enabled(s, Start(c)) ==>
      var s' := Apply(s, Start(c));
      && s'.channels == s.channels && s'.mpi.registered == s.mpi.registered && s'.mpi.freed == s.mpi.freed
      && forall h :: h in s'.mpi.active <==> h in s.mpi.active || h in s.channels[c].requests
    ensures Enabled(s, Wait(c, outcome)) ==>
      var s' := Apply(s, Wait(c, outcome));
      && s'.channels == s.channels[c := s.channels[c].(statuses := outcome)]
      && s'.mpi.registered == s.mpi.registered && s'.mpi.freed == s.mpi.freed
      && forall h :: h in s'.mpi.active <==> h in s.mpi.active && h !in s.channels[c].requests
  {}

  // ---------------------------------------------------------------- to whom

  /** Each registration of a send goes to the channel's destination, each of a receive comes from its source. */
  lemma InitRegisters(s: State, c: nat)
    requires c in s.channels
    ensures Apply(s, SendInit(c)).mpi.registered
      == s.mpi.registered + [Registration(true, s.channels[c].dst, s.channels[c].tag, s.channels[c].comm)]
    ensures Apply(s, RecvInit(c)).mpi.registered
      == s.mpi.registered + [Registration(false, s.channels[c].src, s.channels[c].tag, s.channels[c].comm)]
    ensures Apply(s, SendInit(c)).channels[c].requests == s.channels[c].requests + [|s.mpi.registered|]
    ensures Apply(s, RecvInit(c)).channels[c].requests == s.channels[c].requests + [|s.mpi.registered|]
  {}

  /** Request h is registered with the peer, tag and communicator of the channel. */
  ghost predicate Addressed(f: Fields, m: Library, h: nat) {
    && h < |m.registered|
    && (m.registered[h] == Registration(true, f.dst, f.tag, f.comm)
        || m.registered[h] == Registration(false, f.src, f.tag, f.comm))
  }

  ghost predicate AllAddressed(s: State, c: nat) {
    c in s.channels ==>
      forall k :: 0 <= k < |s.channels[c].requests| ==> Addressed(s.channels[c], s.mpi, s.channels[c].requests[k])
  }

  lemma StepAddressed(s: State, st: Step, c: nat)
    requires Enabled(s, st) && forall d :: AllAddressed(s, d)
    ensures AllAddressed(Apply(s, st), c)
  {
    var s' := Apply(s, st);
    assert AllAddressed(s, c);
    if st.MoveConstruct? || st.MoveAssign? { assert AllAddressed(s, st.from); }
    if c in s'.channels {
      forall k | 0 <= k < |s'.channels[c].requests|
        ensures Addressed(s'.channels[c], s'.mpi, s'.channels[c].requests[k])
      {}
    }
  }

  lemma {:induction false} RunAddressed(steps: seq<Step>, s: State)
    requires Reaches(steps, s)
    ensures forall c :: AllAddressed(s, c)
    decreases |steps|
  {
    if steps != [] {
      var front, last := steps[..|steps| - 1], steps[|steps| - 1];
      var p :| Reaches(front, p) && Enabled(p, last) && s == Apply(p, last);
      RunAddressed(front, p);
      forall c ensures AllAddressed(s, c) { StepAddressed(p, last, c); }
    }
  }

  /**
   In every run, however requests have been moved about, each request a channel holds is a send to the
   channel's destination or a receive from its source, under its tag and on its communicator.
   */
  lemma RequestsAddressed(steps: seq<Step>, s: State, c: nat, k: nat)
    requires Reaches(steps, s) && c in s.channels && k < |s.channels[c].requests|
    ensures s.channels[c].requests[k] < |s.mpi.registered|
    ensures var f, g := s.channels[c], s.mpi.registered[s.channels[c].requests[k]];
      g.peer == (if g.send then f.dst else f.src) && g.tag == f.tag && g.comm == f.comm
  {
    RunAddressed(steps, s);
    assert AllAddressed(s, c);
    assert Addressed(s.channels[c], s.mpi, s.channels[c].requests[k]);
  }
}
