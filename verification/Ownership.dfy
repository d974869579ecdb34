/**
 The ownership discipline of objects that hold handles of a library: handles are acquired, passed
 on by moves, and freed when their owner goes away or is assigned over.
 */
module Ownership {
  import opened Common
  import opened Pigeonhole

  datatype Fate = Held(owner: nat) | Freed

  /** held: the handles of each owner; freed: what was given back to the library, in order; fates: by handle. */
  datatype Ledger = Ledger(held: map<nat, seq<nat>>, freed: seq<nat>, fates: seq<Fate>)

  function Init(): Ledger {
    Ledger(map[], [], [])
  }

  function Open(l: Ledger, o: nat): Ledger {
    l.(held := l.held[o := []])
  }

  /** The library makes a new handle for an owner. */
  function Acquire(l: Ledger, o: nat): Ledger
    requires o in l.held
  {
    l.(held := l.held[o := l.held[o] + [|l.fates|]], fates := l.fates + [Held(o)])
  }

  /** An owner frees all its handles. */
  function Release(l: Ledger, o: nat): Ledger
    requires o in l.held
  {
    Ledger(l.held[o := []], l.freed + l.held[o], Replaced(l.fates, Held(o), Freed))
  }

  /** dst, which holds nothing, takes the handles of src. */
  function Take(l: Ledger, src: nat, dst: nat): Ledger
    requires src in l.held
  {
    l.(held := l.held[dst := l.held[src]][src := []], fates := Replaced(l.fates, Held(src), Held(dst)))
  }

  function Close(l: Ledger, o: nat): Ledger {
    l.(held := l.held - {o})
  }

  // ---------------------------------------------------------------- invariant

  /** The handles of an owner are its own, each listed once. */
  ghost predicate OwnerOk(l: Ledger, o: nat) {
    o in l.held ==>
      && Distinct(l.held[o])
      && forall k {:trigger l.held[o][k]} :: 0 <= k < |l.held[o]| ==>
           l.held[o][k] < |l.fates| && l.fates[l.held[o][k]] == Held(o)
  }

  ghost predicate FreedOk(l: Ledger) {
    && Distinct(l.freed)
    && forall k {:trigger l.freed[k]} :: 0 <= k < |l.freed| ==> l.freed[k] < |l.fates| && l.fates[l.freed[k]] == Freed
  }

  /** A handle is listed where its fate says. */
  ghost predicate HandleOk(l: Ledger, h: nat) {
    h < |l.fates| ==>
      if l.fates[h].Held? then l.fates[h].owner in l.held && h in l.held[l.fates[h].owner] else h in l.freed
  }

  ghost predicate Inv(l: Ledger) {
    (forall o :: OwnerOk(l, o)) && FreedOk(l) && forall h :: HandleOk(l, h)
  }

  lemma OpenOk(l: Ledger, o: nat)
    requires Inv(l) && o !in l.held
    ensures Inv(Open(l, o))
  {
    forall p ensures OwnerOk(Open(l, o), p) { assert OwnerOk(l, p); }
    forall h ensures HandleOk(Open(l, o), h) { assert HandleOk(l, h); }
  }

  lemma AcquireOk(l: Ledger, o: nat)
    requires Inv(l) && o in l.held
    ensures Inv(Acquire(l, o))
  {
    var l' := Acquire(l, o);
    forall p ensures OwnerOk(l', p) { assert OwnerOk(l, p); }
    forall h: nat ensures HandleOk(l', h) {
      assert HandleOk(l, h);
      if h == |l.fates| { assert l'.held[o][|l.held[o]|] == h; }
      if h < |l.fates| && l.fates[h] == Held(o) { assert h in l.held[o] + [|l.fates|]; }
    }
  }

  lemma ReleaseFreed(l: Ledger, o: nat)
    requires Inv(l) && o in l.held
    ensures FreedOk(Release(l, o))
  {
    var l' := Release(l, o);
    assert OwnerOk(l, o);
    forall k | 0 <= k < |l'.freed| ensures l'.freed[k] < |l'.fates| && l'.fates[l'.freed[k]] == Freed {
      if k >= |l.freed| { assert l'.freed[k] == l.held[o][k - |l.freed|]; }
    }
    forall a, b | 0 <= a < b < |l'.freed| ensures l'.freed[a] != l'.freed[b] {
      if b >= |l.freed| { assert l'.freed[b] == l.held[o][b - |l.freed|]; }
      if a >= |l.freed| { assert l'.freed[a] == l.held[o][a - |l.freed|]; }
    }
  }

  /** Releasing frees each handle of the owner, none for a second time. */
  lemma ReleaseOk(l: Ledger, o: nat)
    requires Inv(l) && o in l.held
    ensures Inv(Release(l, o)) && Idle(Release(l, o), o)
  {
    ReleaseFreed(l, o);
    forall p ensures OwnerOk(Release(l, o), p) { assert OwnerOk(l, p); }
    forall h ensures HandleOk(Release(l, o), h) { assert HandleOk(l, h); }
  }

  /** No handle is recorded as held by o. */
  ghost predicate Idle(l: Ledger, o: nat) {
    forall k :: 0 <= k < |l.fates| ==> l.fates[k] != Held(o)
  }

  lemma UnknownIdle(l: Ledger, o: nat)
    requires Inv(l) && o !in l.held
    ensures Idle(l, o)
  {
    forall k | 0 <= k < |l.fates| ensures l.fates[k] != Held(o) { assert HandleOk(l, k); }
  }

  lemma TakeOk(l: Ledger, src: nat, dst: nat)
    requires Inv(l) && src in l.held && src != dst && Idle(l, dst)
    ensures Inv(Take(l, src, dst)) && Take(l, src, dst).held[src] == []
  {
    var l' := Take(l, src, dst);
    assert OwnerOk(l, src);
    forall p ensures OwnerOk(l', p) { assert OwnerOk(l, p); }
    forall h ensures HandleOk(l', h) { assert HandleOk(l, h); }
    assert FreedOk(l');
  }

  lemma CloseOk(l: Ledger, o: nat)
    requires Inv(l) && Idle(l, o)
    ensures Inv(Close(l, o))
  {
    forall p ensures OwnerOk(Close(l, o), p) { assert OwnerOk(l, p); }
    forall h ensures HandleOk(Close(l, o), h) { assert HandleOk(l, h); }
  }

  // ---------------------------------------------------------------- every run

  datatype Step =
    | Create(o: nat)
    | Obtain(o: nat)
    | GiveUp(o: nat)
    | MoveConstruct(src: nat, dst: nat)
    | MoveAssign(src: nat, dst: nat)
    | Destroy(o: nat)

  predicate Enabled(l: Ledger, st: Step) {
    match st
    case Create(o) => o !in l.held
    case Obtain(o) => o in l.held
    case GiveUp(o) => o in l.held
    case MoveConstruct(src, dst) => src in l.held && dst !in l.held
    case MoveAssign(src, dst) => src in l.held && dst in l.held
    case Destroy(o) => o in l.held
  }

  /** Assigning an object to itself changes nothing. */
  function Apply(l: Ledger, st: Step): Ledger
    requires Enabled(l, st)
  {
    match st
    case Create(o) => Open(l, o)
    case Obtain(o) => Acquire(l, o)
    case GiveUp(o) => Release(l, o)
    case MoveConstruct(src, dst) => Take(l, src, dst)
    case MoveAssign(src, dst) => if src == dst then l else Take(Release(l, dst), src, dst)
    case Destroy(o) => Close(Release(l, o), o)
  }

  /** The step taken if it can be. */
  function Note(l: Ledger, st: Step): Ledger {
    if Enabled(l, st) then Apply(l, st) else l
  }

  lemma StepOk(l: Ledger, st: Step)
    requires Inv(l) && Enabled(l, st)
    ensures Inv(Apply(l, st))
  {
    match st
    case Create(o) => OpenOk(l, o);
    case Obtain(o) => AcquireOk(l, o);
    case GiveUp(o) => ReleaseOk(l, o);
    case MoveConstruct(src, dst) => UnknownIdle(l, dst); TakeOk(l, src, dst);
    case MoveAssign(src, dst) => if src != dst { ReleaseOk(l, dst); TakeOk(Release(l, dst), src, dst); }
    case Destroy(o) => ReleaseOk(l, o); CloseOk(Release(l, o), o);
  }

  lemma {:induction false} DistinctCount(s: seq<nat>, h: nat)
    requires Distinct(s)
    ensures Count(s, h) == if h in s then 1 else 0
    decreases |s|
  {
    if s != [] {
      var front := s[..|s| - 1];
      DistinctCount(front, h);
      assert s == front + [s[|s| - 1]];
    }
  }

  /**
   Every handle ever made is with exactly one owner, listed once, and not freed; or it is with no
   owner and has been freed exactly once.
   */
  lemma OneOwner(l: Ledger, h: nat)
    requires Inv(l) && h < |l.fates|
    ensures Count(l.freed, h) == if l.fates[h] == Freed then 1 else 0
    ensures forall o :: o in l.held ==> Count(l.held[o], h) == if l.fates[h] == Held(o) then 1 else 0
    ensures l.fates[h].Held? ==> l.fates[h].owner in l.held
  {
    assert HandleOk(l, h);
    DistinctCount(l.freed, h);
    if k :| 0 <= k < |l.freed| && l.freed[k] == h { assert l.fates[h] == Freed; }
    forall o | o in l.held
      ensures Count(l.held[o], h) == if l.fates[h] == Held(o) then 1 else 0
    {
      assert OwnerOk(l, o);
      DistinctCount(l.held[o], h);
    }
  }

  /** When the last owner is gone every handle has been freed exactly once. */
  lemma AllFreed(l: Ledger, h: nat)
    requires Inv(l) && l.held == map[]
    ensures Count(l.freed, h) == if h < |l.fates| then 1 else 0
  {
    DistinctCount(l.freed, h);
    assert HandleOk(l, h);
  }
}
