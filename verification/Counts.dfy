/**
 The element count the MPI library is given: a size_t, handed over as an int. A negative count is
 refused; otherwise only that many elements travel, from the front of the wire contents.
 */
module Counts {
  import opened Common
  import opened MixedRadix
  import opened StridedView

  /** The count handed over for a view. */
  function Handed(v: View): (c: int)
    ensures c <= Size(v)
    ensures c == Size(v) <==> Size(v) <= INT_MAX
  {
    NarrowExact(Size(v));
    Narrow(Size(v))
  }

  /**
   The receiving allocation after the first `data` of a message: spliced into a contiguous view; for a
   strided one the rest of the staging buffer, which nobody wrote, is unpacked as well.
   */
  function ReceiveFirst(mem: seq<int>, v: View, layout: Layout, data: seq<int>, blank: seq<int>): (r: seq<int>)
    requires Fits(v, |mem|) && |data| <= Size(v) == |blank|
    ensures |r| == |mem|
  {
    if Contiguous(v) then Splice(mem, v.base, data)
    else Scatter(mem, v, layout, Splice(blank, 0, data))
  }

  /** The receiving allocation after one message; `blank` is what the staging buffer held before. */
  function ArrivedFirst(smem: seq<int>, sv: View, sl: Layout, rmem: seq<int>, rv: View, rl: Layout,
                        blank: seq<int>): (r: seq<int>)
    requires Fits(sv, |smem|) && Fits(rv, |rmem|) && sv.extents == rv.extents && |blank| == Size(rv) && Handed(sv) >= 0
    ensures |r| == |rmem|
  {
    ReceiveFirst(rmem, rv, rl, WireOf(smem, sv, sl)[..Handed(sv)], blank)
  }

  /** A message that is not cut short arrives as sent. */
  lemma WholeArrives(smem: seq<int>, sv: View, sl: Layout, rmem: seq<int>, rv: View, rl: Layout, blank: seq<int>)
    requires Fits(sv, |smem|) && Fits(rv, |rmem|) && sv.extents == rv.extents && |blank| == Size(rv)
    requires Size(sv) <= INT_MAX
    ensures ArrivedFirst(smem, sv, sl, rmem, rv, rl, blank) == Arrived(smem, sv, sl, rmem, rv, rl)
  {
    var data := WireOf(smem, sv, sl);
    assert data[..Handed(sv)] == data;
    assert Splice(blank, 0, data) == data;
  }

  /** rv(i...) ends as sv(i...). */
  ghost predicate ElementArrives(smem: seq<int>, sv: View, sl: Layout, rmem: seq<int>, rv: View, rl: Layout,
                                 blank: seq<int>, i: seq<nat>)
    requires Fits(sv, |smem|) && Fits(rv, |rmem|) && sv.extents == rv.extents && |blank| == Size(rv) && Handed(sv) >= 0
    requires InBounds(rv.extents, i)
  {
    && Addr(rv, i) < |rmem| && Addr(sv, i) < |smem|
    && ArrivedFirst(smem, sv, sl, rmem, rv, rl, blank)[Addr(rv, i)] == smem[Addr(sv, i)]
  }

  /** Whatever the two allocations and the staging buffer hold, every element arrives. */
  ghost predicate DeliversHanded(sv: View, sl: Layout, rv: View, rl: Layout)
    requires Valid(sv) && Valid(rv) && sv.extents == rv.extents
  {
    Handed(sv) >= 0
    && forall smem: seq<int>, rmem: seq<int>, blank: seq<int>, i: seq<nat> |
      Fits(sv, |smem|) && Fits(rv, |rmem|) && |blank| == Size(rv) && InBounds(rv.extents, i) ::
      ElementArrives(smem, sv, sl, rmem, rv, rl, blank, i)
  }

  /** What does not travel is not delivered: the element at the first wire position beyond the count. */
  lemma CutShort(sv: View, sl: Layout, rv: View, rl: Layout)
    requires Valid(sv) && Valid(rv) && Injective(rv) && sv.extents == rv.extents && 0 <= Handed(sv) < Size(sv)
    ensures !DeliversHanded(sv, sl, rv, rl)
  {
    var i := WirePosOnto(rv, rl, Handed(sv));
    AddrInSpan(sv, i);
    AddrInSpan(rv, i);
    var smem, rmem, blank := Const(sv.base + Span(sv), 1), Const(rv.base + Span(rv), 0), Const(Size(rv), 0);
    var data := WireOf(smem, sv, sl)[..Handed(sv)];
    if !Contiguous(rv) {
      ReceiveAt(rmem, rv, rl, Splice(blank, 0, data), i);
    }
    assert ArrivedFirst(smem, sv, sl, rmem, rv, rl, blank)[Addr(rv, i)] == 0;
    assert !ElementArrives(smem, sv, sl, rmem, rv, rl, blank, i);
  }

  lemma WholeDelivers(sv: View, sl: Layout, rv: View, rl: Layout)
    requires Valid(sv) && Valid(rv) && Injective(rv) && sv.extents == rv.extents && Size(sv) <= INT_MAX
    requires SameWireOrder(sv, sl, rv, rl)
    ensures DeliversHanded(sv, sl, rv, rl)
  {
    forall smem: seq<int>, rmem: seq<int>, blank: seq<int>, i: seq<nat> |
      Fits(sv, |smem|) && Fits(rv, |rmem|) && |blank| == Size(rv) && InBounds(rv.extents, i)
      ensures ElementArrives(smem, sv, sl, rmem, rv, rl, blank, i)
    {
      WholeArrives(smem, sv, sl, rmem, rv, rl, blank);
      Delivered(smem, sv, sl, rmem, rv, rl);
    }
  }

  lemma WholeOnly(sv: View, sl: Layout, rv: View, rl: Layout)
    requires Valid(sv) && Valid(rv) && sv.extents == rv.extents && Size(sv) <= INT_MAX && DeliversHanded(sv, sl, rv, rl)
    ensures DeliversAll(sv, sl, rv, rl)
  {
    var blank := Const(Size(rv), 0);
    forall smem: seq<int>, rmem: seq<int>, i: seq<nat> |
      Fits(sv, |smem|) && Fits(rv, |rmem|) && InBounds(rv.extents, i)
      ensures Arrives(smem, sv, sl, rmem, rv, rl, i)
    {
      WholeArrives(smem, sv, sl, rmem, rv, rl, blank);
      assert ElementArrives(smem, sv, sl, rmem, rv, rl, blank, i);
    }
  }

  /** Delivery is right for all contents exactly when the sides share a wire order and the size fits an int. */
  lemma HandedDeliveryTheorem(sv: View, sl: Layout, rv: View, rl: Layout)
    requires Valid(sv) && Valid(rv) && Injective(sv) && Injective(rv) && sv.extents == rv.extents && Size(sv) > 0
    ensures DeliversHanded(sv, sl, rv, rl) <==> SameWireOrder(sv, sl, rv, rl) && Size(sv) <= INT_MAX
  {
    if Size(sv) > INT_MAX {
      if Handed(sv) >= 0 { CutShort(sv, sl, rv, rl); }
    } else if SameWireOrder(sv, sl, rv, rl) {
      WholeDelivers(sv, sl, rv, rl);
    } else {
      DeliveryTheorem(sv, sl, rv, rl);
      if DeliversHanded(sv, sl, rv, rl) { WholeOnly(sv, sl, rv, rl); }
    }
  }
}
