/**
 Communicator objects over handles they own or merely borrow, for both backends, over whole runs
 of factories, moves and destructions.
 */
module Communicators {
  import opened Common
  import L = Ownership

  /** A handle of the library: none, the two predefined ones, one the user made, or one a factory made. */
  datatype Handle = Null | World | Self | Users(name: nat) | Made(id: nat)

  datatype Backend = Mpi | Nccl

  datatype Fields = Fields(comm: Handle, size: int, rank: int, owned: bool)

  /** made: how many handles split and duplicate have produced; freed: what was given back. */
  datatype Library = Library(made: nat, freed: seq<Handle>)

  /** The condition under which a destructor frees its handle. */
  predicate Frees(backend: Backend, f: Fields) {
    f.owned && (backend == Mpi ==> f.comm != World && f.comm != Self)
  }

  function Freed(backend: Backend, f: Fields, m: Library): Library {
    if Frees(backend, f) then m.(freed := m.freed + [f.comm]) else m
  }

  /** What a move leaves behind. */
  function Emptied(f: Fields): Fields {
    Fields(Null, 0, 0, false)
  }

  // ---------------------------------------------------------------- the class

  class CommLibrary {
    var state: Library

    constructor ()
      ensures state == Library(0, [])
    {
      state := Library(0, []);
    }

    /** A collective that makes a communicator: null if this process takes no part or it failed. */
    method Make(joins: bool) returns (h: Handle)
      modifies this
      ensures joins ==> h == Made(old(state).made) && state == old(state).(made := old(state).made + 1)
      ensures !joins ==> h == Null && state == old(state)
    {
      if joins {
        h := Made(state.made);
        state := state.(made := state.made + 1);
      } else {
        h := Null;
      }
    }

    method Free(h: Handle)
      modifies this
      ensures state == old(state).(freed := old(state).freed + [h])
    {
      state := state.(freed := state.freed + [h]);
    }
  }

  class Communicator {
    var comm: Handle
    var size: int
    var rank: int
    var owned: bool

    function Value(): Fields
      reads this
    {
      Fields(comm, size, rank, owned)
    }

    /** Size and rank are the library's answers for the handle. */
    constructor (comm: Handle, owned: bool, size: int, rank: int)
      ensures Value() == Fields(comm, size, rank, owned)
    {
      this.comm, this.size, this.rank, this.owned := comm, size, rank, owned;
    }

    constructor Move(other: Communicator)
      modifies other
      ensures Value() == old(other.Value()) && other.Value() == Emptied(old(other.Value()))
      ensures other.comm == Null && other.size == 0 && other.rank == 0 && !other.owned
    {
      comm, size, rank, owned := other.comm, other.size, other.rank, other.owned;
      new;
      other.comm, other.size, other.rank, other.owned := Null, 0, 0, false;
    }

    /** The factories split and duplicate: an owning communicator, or nothing. */
    static method FromMade(lib: CommLibrary, joins: bool, size: int, rank: int) returns (c: Communicator?)
      modifies lib
      ensures if joins
        then c != null && fresh(c) && c.Value() == Fields(Made(old(lib.state).made), size, rank, true)
          && lib.state == old(lib.state).(made := old(lib.state).made + 1)
        else c == null && lib.state == old(lib.state)
    {
      var h := lib.Make(joins);
      if h == Null {
        return null;
      }
      c := new Communicator(h, true, size, rank);
    }

    /** The destructor. */
    method Destroy(backend: Backend, lib: CommLibrary)
      modifies lib
      ensures lib.state == Freed(backend, Value(), old(lib.state)) && Value() == old(Value())
      ensures lib.state.made == old(lib.state).made
      ensures lib.state.freed == old(lib.state).freed
        + if owned && !(backend == Mpi && (comm == World || comm == Self)) then [comm] else []
    {
      if owned && (backend == Mpi ==> comm != World && comm != Self) {
        lib.Free(comm);
      }
    }

    method Assign(other: Communicator, backend: Backend, lib: CommLibrary)
      modifies this, other, lib
      ensures this != other ==>
        && Value() == old(other.Value()) && other.Value() == Emptied(old(other.Value()))
        && other.comm == Null && other.size == 0 && other.rank == 0 && !other.owned
        && lib.state == Freed(backend, old(Value()), old(lib.state))
      ensures this == other ==> Value() == old(Value()) && lib.state == old(lib.state)
    {
      if this != other {
        Destroy(backend, lib);
        comm, size, rank, owned := other.comm, other.size, other.rank, other.owned;
        other.comm, other.size, other.rank, other.owned := Null, 0, 0, false;
      }
    }
  }

  // ---------------------------------------------------------------- whole runs

  /** ledger: (history) which object owns which made handle. */
  datatype State = State(comms: map<nat, Fields>, lib: Library, ledger: L.Ledger)

  datatype Step =
    | FromRaw(o: nat, h: Handle, size: int, rank: int)
    | FromMade(o: nat, joins: bool, size: int, rank: int)
    | MoveConstruct(from: nat, to: nat)
    | MoveAssign(from: nat, to: nat)
    | Destroy(o: nat)

  function Init(): State {
    State(map[], Library(0, []), L.Init())
  }

  /** Any valid handle may be wrapped, also one that another object owns. */
  predicate Enabled(s: State, st: Step) {
    match st
    case FromRaw(o, h, _, _) => o !in s.comms && h != Null
    case FromMade(o, _, _, _) => o !in s.comms
    case MoveConstruct(from, to) => from in s.comms && to !in s.comms
    case MoveAssign(from, to) => from in s.comms && to in s.comms
    case Destroy(o) => o in s.comms
  }

  /** Each step does to the object and the library what the member of the class does. */
  function Apply(backend: Backend, s: State, st: Step): State
    requires Enabled(s, st)
  {
    var cs, m, l := s.comms, s.lib, s.ledger;
    match st
    case FromRaw(o, h, size, rank) => s.(comms := cs[o := Fields(h, size, rank, false)], ledger := L.Note(l, L.Create(o)))
    case FromMade(o, joins, size, rank) =>
      if joins
      then State(cs[o := Fields(Made(m.made), size, rank, true)], m.(made := m.made + 1),
                 L.Note(L.Note(l, L.Create(o)), L.Obtain(o)))
      else s
    case MoveConstruct(from, to) =>
      s.(comms := cs[to := cs[from]][from := Emptied(cs[from])], ledger := L.Note(l, L.MoveConstruct(from, to)))
    case MoveAssign(from, to) =>
      if from == to then s
      else State(cs[to := cs[from]][from := Emptied(cs[from])], Freed(backend, cs[to], m),
                 L.Note(l, L.MoveAssign(from, to)))
    case Destroy(o) => State(cs - {o}, Freed(backend, cs[o], m), L.Note(l, L.Destroy(o)))
  }

  ghost predicate Reaches(backend: Backend, steps: seq<Step>, s: State)
    decreases |steps|
  {
    if steps == [] then s == Init()
    else
      var front, last := steps[..|steps| - 1], steps[|steps| - 1];
      exists p :: Reaches(backend, front, p) && Enabled(p, last) && s == Apply(backend, p, last)
  }

  // ---------------------------------------------------------------- invariant

  /** An object owns its handle exactly if the ledger says so, and then a factory made it. */
  ghost predicate HoldsOwned(f: Fields, held: seq<nat>) {
    if f.owned then f.comm.Made? && held == [f.comm.id] else held == []
  }

  function AsMade(ids: seq<nat>): (r: seq<Handle>)
    ensures |r| == |ids| && forall k :: 0 <= k < |r| ==> r[k] == Made(ids[k])
  {
    if ids == [] then [] else [Made(ids[0])] + AsMade(ids[1..])
  }

  ghost predicate Matches(s: State) {
    && s.ledger.held.Keys == s.comms.Keys
    && (forall o :: o in s.comms ==> HoldsOwned(s.comms[o], s.ledger.held[o]))
    && s.lib.freed == AsMade(s.ledger.freed) && |s.ledger.fates| == s.lib.made
  }

  ghost predicate Inv(s: State) {
    Matches(s) && L.Inv(s.ledger)
  }

  /** Freeing an owned handle is releasing what the ledger holds, whichever the backend. */
  lemma FreedReleases(backend: Backend, f: Fields, m: Library, freed: seq<nat>, held: seq<nat>)
    requires HoldsOwned(f, held) && m.freed == AsMade(freed)
    ensures Freed(backend, f, m).freed == AsMade(freed + held) && Freed(backend, f, m).made == m.made
  {
    if f.owned {
      assert AsMade(freed + held) == AsMade(freed) + [f.comm];
    } else {
      assert freed + held == freed;
    }
  }

  lemma CreateOk(backend: Backend, s: State, st: Step)
    requires Inv(s) && Enabled(s, st) && (st.FromRaw? || st.FromMade?)
    ensures Inv(Apply(backend, s, st))
  {
    L.StepOk(s.ledger, L.Create(st.o));
    L.StepOk(L.Open(s.ledger, st.o), L.Obtain(st.o));
  }

  lemma MoveOk(backend: Backend, s: State, st: Step)
    requires Inv(s) && Enabled(s, st) && st.MoveConstruct?
    ensures Inv(Apply(backend, s, st))
  {
    L.StepOk(s.ledger, L.MoveConstruct(st.from, st.to));
  }

  /** The fields and the ledger after an assignment still agree. */
  lemma AssignMatches(backend: Backend, s: State, s': State, from: nat, to: nat)
    requires Matches(s) && from in s.comms && to in s.comms && from != to
    requires s'.comms == s.comms[to := s.comms[from]][from := Emptied(s.comms[from])]
    requires s'.lib == Freed(backend, s.comms[to], s.lib)
    requires s'.ledger.held == s.ledger.held[to := s.ledger.held[from]][from := []]
    requires s'.ledger.freed == s.ledger.freed + s.ledger.held[to] && |s'.ledger.fates| == |s.ledger.fates|
    ensures Matches(s')
  {
    FreedReleases(backend, s.comms[to], s.lib, s.ledger.freed, s.ledger.held[to]);
  }

  lemma AssignOk(backend: Backend, s: State, from: nat, to: nat)
    requires Inv(s) && Enabled(s, MoveAssign(from, to)) && from != to
    ensures Inv(Apply(backend, s, MoveAssign(from, to)))
  {
    L.StepOk(s.ledger, L.MoveAssign(from, to));
    var s' := Apply(backend, s, MoveAssign(from, to));
    assert s'.ledger == L.Take(L.Release(s.ledger, to), from, to);
    AssignMatches(backend, s, s', from, to);
  }

  lemma DestroyOk(backend: Backend, s: State, st: Step)
    requires Inv(s) && Enabled(s, st) && st.Destroy?
    ensures Inv(Apply(backend, s, st))
  {
    L.StepOk(s.ledger, L.Destroy(st.o));
    FreedReleases(backend, s.comms[st.o], s.lib, s.ledger.freed, s.ledger.held[st.o]);
  }

  lemma StepOk(backend: Backend, s: State, st: Step)
    requires Inv(s) && Enabled(s, st)
    ensures Inv(Apply(backend, s, st))
  {
    if st.MoveConstruct? {
      MoveOk(backend, s, st);
    } else if st.MoveAssign? {
      if st.from != st.to { AssignOk(backend, s, st.from, st.to); }
    } else if st.Destroy? {
      DestroyOk(backend, s, st);
    } else {
      CreateOk(backend, s, st);
    }
  }

  lemma {:induction false} ReachableOk(backend: Backend, steps: seq<Step>, s: State)
    requires Reaches(backend, steps, s)
    ensures Inv(s)
    decreases |steps|
  {
    if steps != [] {
      var front, last := steps[..|steps| - 1], steps[|steps| - 1];
      var p :| Reaches(backend, front, p) && Enabled(p, last) && s == Apply(backend, p, last);
      ReachableOk(backend, front, p);
      StepOk(backend, p, last);
    }
  }

  // ---------------------------------------------------------------- what it means

  /** In no run is a handle freed that no factory made: not a predefined one, not a user's, not a null one. */
  lemma BorrowedNeverFreed(backend: Backend, steps: seq<Step>, s: State, h: Handle)
    requires Reaches(backend, steps, s) && h in s.lib.freed
    ensures h.Made? && h.id < s.lib.made
  {
    ReachableOk(backend, steps, s);
    var k :| 0 <= k < |s.lib.freed| && s.lib.freed[k] == h;
    assert s.ledger.freed[k] < |s.ledger.fates|;
  }

  lemma {:induction false} MadeCount(ids: seq<nat>, id: nat)
    ensures multiset(AsMade(ids))[Made(id)] == Count(ids, id)
    decreases |ids|
  {
    if ids != [] {
      MadeCount(ids[1..], id);
      assert ids == [ids[0]] + ids[1..];
    }
  }

  predicate Owns(f: Fields, id: nat) {
    f.owned && f.comm == Made(id)
  }

  ghost predicate SoleOwner(s: State, o: nat, id: nat) {
    o in s.comms && Owns(s.comms[o], id) && forall p :: p in s.comms && p != o ==> !Owns(s.comms[p], id)
  }

  /**
   Every handle split or duplicate made has exactly one owner and is not freed, or has no owner and
   was freed exactly once.
   */
  lemma MadeOwned(backend: Backend, steps: seq<Step>, s: State, id: nat)
    requires Reaches(backend, steps, s) && id < s.lib.made
    ensures multiset(s.lib.freed)[Made(id)] <= 1
    ensures multiset(s.lib.freed)[Made(id)] == 0 <==> exists o :: SoleOwner(s, o, id)
    ensures multiset(s.lib.freed)[Made(id)] == 1 ==> forall o :: o in s.comms ==> !Owns(s.comms[o], id)
  {
    ReachableOk(backend, steps, s);
    L.OneOwner(s.ledger, id);
    MadeCount(s.ledger.freed, id);
    forall o | o in s.comms ensures Owns(s.comms[o], id) <==> s.ledger.fates[id] == L.Held(o) {
      assert HoldsOwned(s.comms[o], s.ledger.held[o]);
      assert Count([id], id) == 1 && Count([], id) == 0;
    }
    if s.ledger.fates[id].Held? { assert SoleOwner(s, s.ledger.fates[id].owner, id); }
  }

  /** When all objects are gone every made handle has been freed exactly once. */
  lemma NothingLeaks(backend: Backend, steps: seq<Step>, s: State, id: nat)
    requires Reaches(backend, steps, s) && s.comms == map[]
    ensures multiset(s.lib.freed)[Made(id)] == if id < s.lib.made then 1 else 0
  {
    ReachableOk(backend, steps, s);
    assert s.ledger.held.Keys == {};
    assert s.ledger.held == map[];
    L.AllFreed(s.ledger, id);
    MadeCount(s.ledger.freed, id);
  }
}
