/**
 The send-receive unit test end to end: the sent view is initialised, one message is exchanged, and
 the errors in the received view are counted.
 */
module DeliveryTest {
  import opened Common
  import opened MixedRadix
  import opened Pigeonhole
  import opened StridedView
  import opened Oracle
  import P2P = PointToPoint

  /** The sending allocation after initialisation. */
  function Initialised(mem: seq<int>, sv: View): (r: seq<int>)
    requires Fits(sv, |mem|)
    ensures |r| == |mem|
  {
    Scatter(mem, sv, LayoutRight, Iota(Size(sv)))
  }

  function ErrorsIn(mem: seq<int>, v: View): nat
    requires Fits(v, |mem|)
  {
    Errors(Gather(mem, v, LayoutRight), Size(v))
  }

  /** After initialising sv, the count on rv is zero exactly when rv(i...) is sv(i...) for every index. */
  lemma InitialisedSound(mem: seq<int>, sv: View, rmem: seq<int>, rv: View)
    requires Fits(sv, |mem|) && Fits(rv, |rmem|) && sv.extents == rv.extents && Injective(sv)
    ensures ErrorsIn(rmem, rv) == 0 <==> SameElements(Initialised(mem, sv), sv, rmem, rv)
  {
    InitNumbers(mem, sv);
    OracleSound(Initialised(mem, sv), sv, rmem, rv);
  }

  /** Initialised elements are told apart by their values. */
  lemma ValuesDiffer(mem: seq<int>, sv: View, i: seq<nat>, j: seq<nat>)
    requires Fits(sv, |mem|) && Injective(sv) && InBounds(sv.extents, i) && InBounds(sv.extents, j)
    ensures Addr(sv, i) < |mem| && Addr(sv, j) < |mem|
    ensures Initialised(mem, sv)[Addr(sv, i)] == Initialised(mem, sv)[Addr(sv, j)] ==> i == j
  {
    ValueIs(mem, sv, i);
    ValueIs(mem, sv, j);
    IndexAtPosition(LayoutRight, sv.extents, i);
    IndexAtPosition(LayoutRight, sv.extents, j);
  }

  lemma ValueIs(mem: seq<int>, sv: View, i: seq<nat>)
    requires Fits(sv, |mem|) && Injective(sv) && InBounds(sv.extents, i)
    ensures Addr(sv, i) < |mem|
    ensures Initialised(mem, sv)[Addr(sv, i)] == Position(LayoutRight, sv.extents, i)
  {
    var k := Position(LayoutRight, sv.extents, i);
    AddrInSpan(sv, i);
    IndexAtPosition(LayoutRight, sv.extents, i);
    ScatterAt(mem, sv, LayoutRight, Iota(Size(sv)), k);
    assert At(sv, LayoutRight, k) == Addr(sv, i);
  }

  /** An initialised element that arrives in its place travelled where it was expected. */
  lemma ArrivedInPlace(mem: seq<int>, sv: View, sl: Layout, rmem: seq<int>, rv: View, rl: Layout, i: seq<nat>)
    requires Fits(sv, |mem|) && Fits(rv, |rmem|) && sv.extents == rv.extents && Injective(sv) && Injective(rv)
    requires InBounds(rv.extents, i) && Arrives(Initialised(mem, sv), sv, sl, rmem, rv, rl, i)
    ensures WirePos(sv, sl, i) == WirePos(rv, rl, i)
  {
    var smem := Initialised(mem, sv);
    WirePosBound(rv, rl, i);
    var j := WirePosOnto(sv, sl, WirePos(rv, rl, i));
    ReceiveAt(rmem, rv, rl, WireOf(smem, sv, sl), i);
    WireAt(smem, sv, sl, j);
    ValuesDiffer(mem, sv, i, j);
  }

  /** The one initialised content decides: no errors exactly when the sides share a wire order. */
  lemma TestExact(mem: seq<int>, sv: View, sl: Layout, rmem: seq<int>, rv: View, rl: Layout)
    requires Fits(sv, |mem|) && Fits(rv, |rmem|) && sv.extents == rv.extents && Injective(sv) && Injective(rv)
    requires Size(sv) > 0
    ensures ErrorsIn(Arrived(Initialised(mem, sv), sv, sl, rmem, rv, rl), rv) == 0 <==> SameWireOrder(sv, sl, rv, rl)
  {
    var smem := Initialised(mem, sv);
    var out := Arrived(smem, sv, sl, rmem, rv, rl);
    InitialisedSound(mem, sv, out, rv);
    if SameWireOrder(sv, sl, rv, rl) {
      Delivered(smem, sv, sl, rmem, rv, rl);
    }
    if SameElements(smem, sv, out, rv) {
      forall d | 0 <= d < |sv.extents| && sv.extents[d] >= 2
        ensures WireStrides(sv, sl)[d] == WireStrides(rv, rl)[d]
      {
        var i := Unit(|sv.extents|, d);
        EntriesPositive(sv.extents);
        assert InBounds(rv.extents, i);
        assert Arrives(smem, sv, sl, rmem, rv, rl, i);
        ArrivedInPlace(mem, sv, sl, rmem, rv, rl, i);
        DotUnit(WireStrides(sv, sl), i, d);
        DotUnit(WireStrides(rv, rl), i, d);
      }
    }
  }

  /**
   Initialise, exchange, count. A test that passes has shown delivery for all contents, and only views
   that share a wire order pass; the two views may lie in one allocation.
   */
  method SendRecvTest(smem: array<int>, sv: View, sl: Layout, rmem: array<int>, rv: View, rl: Layout) returns (errs: nat)
    requires Fits(sv, smem.Length) && Fits(rv, rmem.Length) && sv.extents == rv.extents
    requires Injective(sv) && Injective(rv) && 0 < Size(sv) <= INT_MAX
    modifies smem, rmem
    ensures errs == 0 <==> SameWireOrder(sv, sl, rv, rl)
    ensures errs == 0 <==> DeliversAll(sv, sl, rv, rl)
    ensures errs == 0 <==> SameElements(Initialised(old(smem[..]), sv), sv, rmem[..], rv)
  {
    InitView(smem, sv);
    ghost var held := rmem[..];
    var _, _ := P2P.Exchange(smem, sv, sl, rmem, rv, rl);
    errs := CountErrors(rmem, rv);
    TestExact(old(smem[..]), sv, sl, held, rv, rl);
    InitialisedSound(old(smem[..]), sv, rmem[..], rv);
    DeliveryTheorem(sv, sl, rv, rl);
  }
}
