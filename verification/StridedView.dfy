/**
 Views over a parent allocation: a base offset plus extents and strides of any rank.
 What the library puts on the wire for a view, and what it does with what comes off it.
 */
module StridedView {
  import opened MixedRadix
  import opened Pigeonhole

  datatype View = View(base: nat, extents: seq<nat>, strides: seq<nat>)

  predicate Valid(v: View) {
    |v.extents| == |v.strides|
  }

  /** The product of the extents. */
  function Size(v: View): nat {
    Product(v.extents)
  }

  /** The largest offset of a non-empty view. */
  function MaxOffset(ext: seq<nat>, strides: seq<nat>): nat
    requires |ext| == |strides| && Product(ext) > 0
  {
    if ext == [] then 0
    else
      NonEmpty(ext);
      (ext[0] - 1) * strides[0] + MaxOffset(ext[1..], strides[1..])
  }

  lemma NonEmpty(ext: seq<nat>)
    requires ext != [] && Product(ext) > 0
    ensures ext[0] > 0 && Product(ext[1..]) > 0
  {}

  /** One more than the distance between the elements of lowest and highest address. */
  function Span(v: View): nat
    requires Valid(v)
  {
    if Size(v) == 0 then 0 else 1 + MaxOffset(v.extents, v.strides)
  }

  predicate Contiguous(v: View)
    requires Valid(v)
  {
    Size(v) == Span(v)
  }

  /** The address of an element in the parent allocation. */
  function Addr(v: View, i: seq<nat>): nat
    requires Valid(v) && InBounds(v.extents, i)
  {
    v.base + Dot(v.strides, i)
  }

  predicate Fits(v: View, n: nat) {
    Valid(v) && v.base + Span(v) <= n
  }

  /** No two multi-indices name the same element. */
  ghost predicate Injective(v: View)
    requires Valid(v)
  {
    forall i, j | InBounds(v.extents, i) && InBounds(v.extents, j) ::
      Dot(v.strides, i) == Dot(v.strides, j) ==> i == j
  }

  lemma {:induction false} ProductPositive(ext: seq<nat>, i: seq<nat>)
    requires InBounds(ext, i)
    ensures Product(ext) > 0
    decreases |ext|
  {
    if ext != [] {
      ProductPositive(ext[1..], i[1..]);
      assert i[0] < ext[0];
      MulMono(Product(ext[1..]), 1, ext[0]);
    }
  }

  lemma OffsetBoundStep(s: nat, i: nat, e: nat, x: nat, y: nat)
    requires i <= e && x <= y
    ensures s * i + x <= e * s + y
  {
    MulMono(s, i, e);
    assert s * e == e * s;
  }

  lemma {:induction false} OffsetBound(ext: seq<nat>, strides: seq<nat>, i: seq<nat>)
    requires |ext| == |strides| && Product(ext) > 0 && InBounds(ext, i)
    ensures Dot(strides, i) <= MaxOffset(ext, strides)
    decreases |ext|
  {
    if ext != [] {
      NonEmpty(ext);
      OffsetBound(ext[1..], strides[1..], i[1..]);
      OffsetBoundStep(strides[0], i[0], ext[0] - 1, Dot(strides[1..], i[1..]), MaxOffset(ext[1..], strides[1..]));
    }
  }

  ghost function LastIndex(ext: seq<nat>): (i: seq<nat>)
    requires Product(ext) > 0
    ensures InBounds(ext, i)
  {
    if ext == [] then [] else NonEmpty(ext); [ext[0] - 1] + LastIndex(ext[1..])
  }

  lemma {:induction false} LastOffset(ext: seq<nat>, strides: seq<nat>)
    requires |ext| == |strides| && Product(ext) > 0
    ensures Dot(strides, LastIndex(ext)) == MaxOffset(ext, strides)
    decreases |ext|
  {
    if ext != [] {
      NonEmpty(ext);
      var i := LastIndex(ext);
      LastOffset(ext[1..], strides[1..]);
      assert i[1..] == LastIndex(ext[1..]);
      MulComm(strides[0], i[0]);
    }
  }

  lemma AddrInSpan(v: View, i: seq<nat>)
    requires Valid(v) && InBounds(v.extents, i)
    ensures Size(v) > 0
    ensures v.base <= Addr(v, i) < v.base + Span(v)
  {
    ProductPositive(v.extents, i);
    OffsetBound(v.extents, v.strides, i);
  }

  // ---------------------------------------------------------------- contiguity

  ghost function Offset(v: View, k: nat): nat
    requires Valid(v) && k < Size(v)
  {
    Dot(v.strides, IndexAt(LayoutLeft, v.extents, k))
  }

  ghost function Offsets(v: View): (r: seq<nat>)
    requires Valid(v)
    ensures |r| == Size(v)
    ensures forall k :: 0 <= k < |r| ==> r[k] == Offset(v, k)
  {
    seq(Size(v), k requires 0 <= k < Size(v) => Offset(v, k))
  }

  /** s lists exactly the numbers below n, each once. */
  ghost predicate ExactlyOnce(s: seq<nat>, n: nat) {
    Distinct(s) && Below(s, n) && forall x: nat :: x < n ==> x in s
  }

  lemma OffsetsDistinct(v: View)
    requires Valid(v) && Injective(v)
    ensures Distinct(Offsets(v))
    ensures Below(Offsets(v), Span(v))
  {
    var s := Offsets(v);
    forall a, b | 0 <= a < b < |s| ensures s[a] != s[b] {
      PositionIndexAt(LayoutLeft, v.extents, a);
      PositionIndexAt(LayoutLeft, v.extents, b);
    }
    forall a | 0 <= a < |s| ensures s[a] < Span(v) {
      OffsetBound(v.extents, v.strides, IndexAt(LayoutLeft, v.extents, a));
    }
  }

  /** Size equals span exactly when the elements fill the span, each address once. */
  lemma ContiguityTheorem(v: View)
    requires Valid(v) && Injective(v)
    ensures Contiguous(v) <==> ExactlyOnce(Offsets(v), Span(v))
  {
    OffsetsDistinct(v);
    var s := Offsets(v);
    if Contiguous(v) {
      forall x: nat | x < Span(v) ensures x in s {
        Covers(s, Span(v), x);
      }
    }
    if ExactlyOnce(s, Span(v)) {
      CountOfCover(s, Span(v));
    }
  }

  /** In a contiguous view every address of the span is some element's. */
  lemma RawCover(v: View, o: nat) returns (i: seq<nat>)
    requires Valid(v) && Injective(v) && Contiguous(v) && o < Span(v)
    ensures InBounds(v.extents, i) && Dot(v.strides, i) == o
  {
    ContiguityTheorem(v);
    assert o in Offsets(v);
    var k :| 0 <= k < Size(v) && Offsets(v)[k] == o;
    i := IndexAt(LayoutLeft, v.extents, k);
  }

  // ---------------------------------------------------------------- packing

  function At(v: View, layout: Layout, k: nat): (a: nat)
    requires Valid(v) && k < Size(v)
    ensures v.base <= a < v.base + Span(v)
  {
    AddrInSpan(v, IndexAt(layout, v.extents, k));
    Addr(v, IndexAt(layout, v.extents, k))
  }

  lemma AtDistinct(v: View, layout: Layout, a: nat, b: nat)
    requires Valid(v) && Injective(v) && a < Size(v) && b < Size(v) && a != b
    ensures At(v, layout, a) != At(v, layout, b)
  {
    PositionIndexAt(layout, v.extents, a);
    PositionIndexAt(layout, v.extents, b);
  }

  function PlacesN(v: View, layout: Layout, n: nat): (r: seq<nat>)
    requires Valid(v) && n <= Size(v)
    ensures |r| == n && forall k {:trigger At(v, layout, k)} :: 0 <= k < n ==> r[k] == At(v, layout, k)
  {
    if n == 0 then [] else PlacesN(v, layout, n - 1) + [At(v, layout, n - 1)]
  }

  /** The addresses of the elements, in the order of the packed layout. */
  function Places(v: View, layout: Layout): (r: seq<nat>)
    requires Valid(v)
    ensures |r| == Size(v) && forall k {:trigger At(v, layout, k)} :: 0 <= k < |r| ==> r[k] == At(v, layout, k)
  {
    PlacesN(v, layout, Size(v))
  }

  lemma PlacesFit(v: View, layout: Layout, n: nat)
    requires Fits(v, n)
    ensures Below(Places(v, layout), n)
  {
    forall k | 0 <= k < Size(v) ensures Places(v, layout)[k] < n { assert At(v, layout, k) < n; }
  }

  lemma PlacesDistinct(v: View, layout: Layout)
    requires Valid(v) && Injective(v)
    ensures Distinct(Places(v, layout))
  {
    forall a, b | 0 <= a < b < Size(v) ensures Places(v, layout)[a] != Places(v, layout)[b] {
      AtDistinct(v, layout, a, b);
    }
  }

  /** The packed copy of a view. */
  function Gather(mem: seq<int>, v: View, layout: Layout): (r: seq<int>)
    requires Fits(v, |mem|)
    ensures |r| == Size(v)
    ensures forall k {:trigger At(v, layout, k)} :: 0 <= k < |r| ==>
      At(v, layout, k) < |mem| && r[k] == mem[At(v, layout, k)]
  {
    PlacesFit(v, layout, |mem|);
    Pick(mem, Places(v, layout))
  }

  /** data written to a list of places, one after the other. */
  function Fill(mem: seq<int>, places: seq<nat>, data: seq<int>): (r: seq<int>)
    requires |places| == |data| && Below(places, |mem|)
    ensures |r| == |mem|
    decreases |places|
  {
    if places == [] then mem
    else
      var n := |places| - 1;
      Fill(mem, places[..n], data[..n])[places[n] := data[n]]
  }

  lemma FillNext(mem: seq<int>, places: seq<nat>, data: seq<int>, k: nat)
    requires |places| == |data| && Below(places, |mem|) && k < |places|
    ensures Below(places[..k + 1], |mem|) && Below(places[..k], |mem|)
    ensures Fill(mem, places[..k + 1], data[..k + 1]) == Fill(mem, places[..k], data[..k])[places[k] := data[k]]
  {
    assert places[..k + 1][..k] == places[..k] && data[..k + 1][..k] == data[..k];
  }

  lemma {:induction false} FillAt(mem: seq<int>, places: seq<nat>, data: seq<int>, k: nat)
    requires |places| == |data| && Below(places, |mem|) && Distinct(places) && k < |places|
    ensures Fill(mem, places, data)[places[k]] == data[k]
    decreases |places|
  {
    var n := |places| - 1;
    if k < n { FillAt(mem, places[..n], data[..n], k); }
  }

  lemma {:induction false} FillFrame(mem: seq<int>, places: seq<nat>, data: seq<int>, a: nat)
    requires |places| == |data| && Below(places, |mem|) && a < |mem| && a !in places
    ensures Fill(mem, places, data)[a] == mem[a]
    decreases |places|
  {
    if places != [] {
      var n := |places| - 1;
      assert places[n] in places;
      FillFrame(mem, places[..n], data[..n], a);
    }
  }

  /** The allocation after a packed copy was copied back into the view, element by element. */
  function Scatter(mem: seq<int>, v: View, layout: Layout, data: seq<int>): (r: seq<int>)
    requires Fits(v, |mem|) && |data| == Size(v)
    ensures |r| == |mem|
  {
    PlacesFit(v, layout, |mem|);
    Fill(mem, Places(v, layout), data)
  }

  lemma ScatterAt(mem: seq<int>, v: View, layout: Layout, data: seq<int>, k: nat)
    requires Fits(v, |mem|) && Injective(v) && |data| == Size(v) && k < Size(v)
    ensures At(v, layout, k) < |mem|
    ensures Scatter(mem, v, layout, data)[At(v, layout, k)] == data[k]
  {
    PlacesFit(v, layout, |mem|);
    PlacesDistinct(v, layout);
    FillAt(mem, Places(v, layout), data, k);
  }

  lemma ScatterFrame(mem: seq<int>, v: View, layout: Layout, data: seq<int>, a: nat)
    requires Fits(v, |mem|) && |data| == Size(v) && a < |mem|
    requires forall i :: InBounds(v.extents, i) ==> Addr(v, i) != a
    ensures Scatter(mem, v, layout, data)[a] == mem[a]
  {
    var places := Places(v, layout);
    PlacesFit(v, layout, |mem|);
    forall k | 0 <= k < |places| ensures places[k] != a {
      assert places[k] == At(v, layout, k);
      assert InBounds(v.extents, IndexAt(layout, v.extents, k));
    }
    FillFrame(mem, places, data, a);
  }

  // ---------------------------------------------------------------- the wire

  /** The strides that say where on the wire an element travels. */
  function WireStrides(v: View, layout: Layout): (r: seq<nat>)
    requires Valid(v)
    ensures |r| == |v.extents|
  {
    if Contiguous(v) then v.strides else PackedStrides(layout, v.extents)
  }

  function WirePos(v: View, layout: Layout, i: seq<nat>): nat
    requires Valid(v) && InBounds(v.extents, i)
  {
    Dot(WireStrides(v, layout), i)
  }

  /** What is sent for a view: the span as it lies, or the packed copy. */
  function WireOf(mem: seq<int>, v: View, layout: Layout): (r: seq<int>)
    requires Fits(v, |mem|)
    ensures |r| == Size(v)
  {
    if Contiguous(v) then mem[v.base..v.base + Span(v)] else Gather(mem, v, layout)
  }

  function Splice(mem: seq<int>, off: nat, data: seq<int>): (r: seq<int>)
    requires off + |data| <= |mem|
    ensures |r| == |mem|
    ensures forall a :: 0 <= a < |mem| ==> r[a] == if off <= a < off + |data| then data[a - off] else mem[a]
  {
    mem[..off] + data + mem[off + |data|..]
  }

  /** What a receive leaves behind: the data spliced in raw, or unpacked element by element. */
  function Receive(mem: seq<int>, v: View, layout: Layout, data: seq<int>): (r: seq<int>)
    requires Fits(v, |mem|) && |data| == Size(v)
    ensures |r| == |mem|
  {
    if Contiguous(v) then Splice(mem, v.base, data) else Scatter(mem, v, layout, data)
  }

  lemma WirePosBound(v: View, layout: Layout, i: seq<nat>)
    requires Valid(v) && InBounds(v.extents, i)
    ensures WirePos(v, layout, i) < Size(v)
  {
    AddrInSpan(v, i);
    PositionIsDot(layout, v.extents, i);
    PositionBound(layout, v.extents, i);
  }

  /** Sending puts every element at its wire position. */
  lemma WireAt(mem: seq<int>, v: View, layout: Layout, i: seq<nat>)
    requires Fits(v, |mem|) && InBounds(v.extents, i)
    ensures WirePos(v, layout, i) < Size(v) && Addr(v, i) < |mem|
    ensures WireOf(mem, v, layout)[WirePos(v, layout, i)] == mem[Addr(v, i)]
  {
    AddrInSpan(v, i);
    WirePosBound(v, layout, i);
    if !Contiguous(v) {
      PositionIsDot(layout, v.extents, i);
      IndexAtPosition(layout, v.extents, i);
      assert At(v, layout, WirePos(v, layout, i)) == Addr(v, i);
    }
  }

  /** What is sent depends on the elements of the view only. */
  lemma WireDepends(mem: seq<int>, mem': seq<int>, v: View, layout: Layout)
    requires Fits(v, |mem|) && Fits(v, |mem'|) && Injective(v)
    requires forall i :: InBounds(v.extents, i) ==>
      Addr(v, i) < |mem| && Addr(v, i) < |mem'| && mem[Addr(v, i)] == mem'[Addr(v, i)]
    ensures WireOf(mem, v, layout) == WireOf(mem', v, layout)
  {
    forall p | 0 <= p < Size(v) ensures WireOf(mem, v, layout)[p] == WireOf(mem', v, layout)[p] {
      var i := WirePosOnto(v, layout, p);
      WireAt(mem, v, layout, i);
      WireAt(mem', v, layout, i);
    }
  }

  /** Receiving takes every element from its wire position. */
  lemma ReceiveAt(mem: seq<int>, v: View, layout: Layout, data: seq<int>, i: seq<nat>)
    requires Fits(v, |mem|) && Injective(v) && |data| == Size(v) && InBounds(v.extents, i)
    ensures WirePos(v, layout, i) < Size(v) && Addr(v, i) < |mem|
    ensures Receive(mem, v, layout, data)[Addr(v, i)] == data[WirePos(v, layout, i)]
  {
    AddrInSpan(v, i);
    WirePosBound(v, layout, i);
    if !Contiguous(v) {
      PositionIsDot(layout, v.extents, i);
      IndexAtPosition(layout, v.extents, i);
      ScatterAt(mem, v, layout, data, WirePos(v, layout, i));
    }
  }

  /** Receiving writes nothing outside the view: not the gaps of a strided one, not its surroundings. */
  lemma ReceiveFrame(mem: seq<int>, v: View, layout: Layout, data: seq<int>, a: nat)
    requires Fits(v, |mem|) && Injective(v) && |data| == Size(v) && a < |mem|
    requires forall i :: InBounds(v.extents, i) ==> Addr(v, i) != a
    ensures Receive(mem, v, layout, data)[a] == mem[a]
  {
    if Contiguous(v) {
      if v.base <= a < v.base + Span(v) {
        var i := RawCover(v, a - v.base);
        assert false;
      }
    } else {
      ScatterFrame(mem, v, layout, data, a);
    }
  }

  /** A wire position belongs to one element only. */
  lemma WirePosInjective(v: View, layout: Layout, i: seq<nat>, j: seq<nat>)
    requires Valid(v) && Injective(v) && InBounds(v.extents, i) && InBounds(v.extents, j)
    requires WirePos(v, layout, i) == WirePos(v, layout, j)
    ensures i == j
  {
    if !Contiguous(v) {
      PositionIsDot(layout, v.extents, i);
      PositionIsDot(layout, v.extents, j);
      IndexAtPosition(layout, v.extents, i);
      IndexAtPosition(layout, v.extents, j);
    }
  }

  // ---------------------------------------------------------------- delivery

  /** The two sides agree on the wire stride of every dimension that has one. */
  predicate SameWireOrder(sv: View, sl: Layout, rv: View, rl: Layout)
    requires Valid(sv) && Valid(rv) && sv.extents == rv.extents
  {
    forall d :: 0 <= d < |sv.extents| && sv.extents[d] >= 2 ==> WireStrides(sv, sl)[d] == WireStrides(rv, rl)[d]
  }

  lemma {:induction false} DotAgree(ext: seq<nat>, s: seq<nat>, t: seq<nat>, i: seq<nat>)
    requires |s| == |t| == |ext| && InBounds(ext, i)
    requires forall d :: 0 <= d < |ext| && ext[d] >= 2 ==> s[d] == t[d]
    ensures Dot(s, i) == Dot(t, i)
    decreases |ext|
  {
    if ext != [] {
      DotAgree(ext[1..], s[1..], t[1..], i[1..]);
      if ext[0] >= 2 {
        assert s[0] == t[0];
      } else {
        assert i[0] == 0;
      }
    }
  }

  /** After sending and receiving, every element of the receive view is the sent one, nothing else moved. */
  lemma Delivered(smem: seq<int>, sv: View, sl: Layout, rmem: seq<int>, rv: View, rl: Layout)
    requires Fits(sv, |smem|) && Fits(rv, |rmem|) && Injective(rv) && sv.extents == rv.extents
    requires SameWireOrder(sv, sl, rv, rl)
    ensures var out := Receive(rmem, rv, rl, WireOf(smem, sv, sl));
      && (forall i :: InBounds(rv.extents, i) ==>
            Addr(rv, i) < |out| && Addr(sv, i) < |smem| && out[Addr(rv, i)] == smem[Addr(sv, i)])
      && (forall a :: 0 <= a < |rmem| && (forall i :: InBounds(rv.extents, i) ==> Addr(rv, i) != a) ==>
            out[a] == rmem[a])
  {
    var data := WireOf(smem, sv, sl);
    var out := Receive(rmem, rv, rl, data);
    forall i | InBounds(rv.extents, i)
      ensures Addr(rv, i) < |out| && Addr(sv, i) < |smem| && out[Addr(rv, i)] == smem[Addr(sv, i)]
    {
      ReceiveAt(rmem, rv, rl, data, i);
      WireAt(smem, sv, sl, i);
      DotAgree(sv.extents, WireStrides(sv, sl), WireStrides(rv, rl), i);
    }
    forall a | 0 <= a < |rmem| && (forall i :: InBounds(rv.extents, i) ==> Addr(rv, i) != a)
      ensures out[a] == rmem[a]
    {
      ReceiveFrame(rmem, rv, rl, data, a);
    }
  }

  /** The receiving allocation after one message from sv to rv. */
  function Arrived(smem: seq<int>, sv: View, sl: Layout, rmem: seq<int>, rv: View, rl: Layout): (r: seq<int>)
    requires Fits(sv, |smem|) && Fits(rv, |rmem|) && sv.extents == rv.extents
    ensures |r| == |rmem|
  {
    Receive(rmem, rv, rl, WireOf(smem, sv, sl))
  }

  /** rv(i...) ends as sv(i...). */
  ghost predicate Arrives(smem: seq<int>, sv: View, sl: Layout, rmem: seq<int>, rv: View, rl: Layout, i: seq<nat>)
    requires Fits(sv, |smem|) && Fits(rv, |rmem|) && sv.extents == rv.extents && InBounds(rv.extents, i)
  {
    && Addr(rv, i) < |rmem| && Addr(sv, i) < |smem|
    && Arrived(smem, sv, sl, rmem, rv, rl)[Addr(rv, i)] == smem[Addr(sv, i)]
  }

  /** Whatever the two allocations hold, every element arrives. */
  ghost predicate DeliversAll(sv: View, sl: Layout, rv: View, rl: Layout)
    requires Valid(sv) && Valid(rv) && sv.extents == rv.extents
  {
    forall smem: seq<int>, rmem: seq<int>, i: seq<nat> |
      Fits(sv, |smem|) && Fits(rv, |rmem|) && InBounds(rv.extents, i) ::
      Arrives(smem, sv, sl, rmem, rv, rl, i)
  }

  ghost function Unit(n: nat, d: nat): (i: seq<nat>)
    requires d < n
    ensures |i| == n && forall e :: 0 <= e < n ==> i[e] == if e == d then 1 else 0
  {
    seq(n, e => if e == d then 1 else 0)
  }

  lemma {:induction false} DotZero(s: seq<nat>, i: seq<nat>)
    requires |s| == |i| && forall e :: 0 <= e < |i| ==> i[e] == 0
    ensures Dot(s, i) == 0
    decreases |s|
  {
    if s != [] { DotZero(s[1..], i[1..]); }
  }

  lemma {:induction false} DotUnit(s: seq<nat>, i: seq<nat>, d: nat)
    requires |s| == |i| && d < |s| && forall e :: 0 <= e < |i| ==> i[e] == if e == d then 1 else 0
    ensures Dot(s, i) == s[d]
    decreases |s|
  {
    if d == 0 {
      DotZero(s[1..], i[1..]);
    } else {
      DotUnit(s[1..], i[1..], d - 1);
    }
  }

  /** Some element travels at every wire position. */
  lemma WirePosOnto(v: View, layout: Layout, p: nat) returns (i: seq<nat>)
    requires Valid(v) && Injective(v) && p < Size(v)
    ensures InBounds(v.extents, i) && WirePos(v, layout, i) == p
  {
    if Contiguous(v) {
      i := RawCover(v, p);
    } else {
      i := IndexAt(layout, v.extents, p);
      PositionIndexAt(layout, v.extents, p);
      PositionIsDot(layout, v.extents, i);
    }
  }

  /** If the sides disagree on a dimension, the allocation holding a single 1 shows the wrong element. */
  lemma Misdelivered(sv: View, sl: Layout, rv: View, rl: Layout, d: nat)
    requires Valid(sv) && Valid(rv) && Injective(sv) && Injective(rv) && sv.extents == rv.extents && Size(sv) > 0
    requires d < |sv.extents| && sv.extents[d] >= 2 && WireStrides(sv, sl)[d] != WireStrides(rv, rl)[d]
    ensures !DeliversAll(sv, sl, rv, rl)
  {
    var i := Unit(|sv.extents|, d);
    EntriesPositive(sv.extents);
    assert InBounds(sv.extents, i);
    DotUnit(WireStrides(sv, sl), i, d);
    DotUnit(WireStrides(rv, rl), i, d);
    AddrInSpan(sv, i);
    AddrInSpan(rv, i);
    var n := sv.base + Span(sv);
    var smem := seq(n, a => if a == Addr(sv, i) then 1 else 0);
    var rmem := seq(rv.base + Span(rv), _ => 0);
    WirePosBound(rv, rl, i);
    var j := WirePosOnto(sv, sl, WirePos(rv, rl, i));
    ReceiveAt(rmem, rv, rl, WireOf(smem, sv, sl), i);
    WireAt(smem, sv, sl, j);
    assert j != i;
    assert Arrived(smem, sv, sl, rmem, rv, rl)[Addr(rv, i)] == 0;
    assert !Arrives(smem, sv, sl, rmem, rv, rl, i);
  }

  lemma {:induction false} EntriesPositive(ext: seq<nat>)
    requires Product(ext) > 0
    ensures forall d :: 0 <= d < |ext| ==> ext[d] > 0
    decreases |ext|
  {
    if ext != [] {
      NonEmpty(ext);
      EntriesPositive(ext[1..]);
      forall d | 0 <= d < |ext| ensures ext[d] > 0 {
        if d > 0 { assert ext[d] == ext[1..][d - 1]; }
      }
    }
  }

  /** Delivery is right for all contents exactly when the two sides share a wire order. */
  lemma DeliveryTheorem(sv: View, sl: Layout, rv: View, rl: Layout)
    requires Valid(sv) && Valid(rv) && Injective(sv) && Injective(rv) && sv.extents == rv.extents && Size(sv) > 0
    ensures DeliversAll(sv, sl, rv, rl) <==> SameWireOrder(sv, sl, rv, rl)
  {
    if SameWireOrder(sv, sl, rv, rl) {
      forall smem: seq<int>, rmem: seq<int>, i: seq<nat> |
        Fits(sv, |smem|) && Fits(rv, |rmem|) && InBounds(rv.extents, i)
        ensures Arrives(smem, sv, sl, rmem, rv, rl, i)
      {
        Delivered(smem, sv, sl, rmem, rv, rl);
      }
    } else {
      var d :| 0 <= d < |sv.extents| && sv.extents[d] >= 2 && WireStrides(sv, sl)[d] != WireStrides(rv, rl)[d];
      Misdelivered(sv, sl, rv, rl, d);
    }
  }

  /** Views of rank at most one share a wire order whatever the layouts. */
  lemma RankOneOrder(sv: View, sl: Layout, rv: View, rl: Layout)
    requires Valid(sv) && Valid(rv) && sv.extents == rv.extents && |sv.extents| <= 1
    ensures SameWireOrder(sv, sl, rv, rl)
  {
    if |sv.extents| == 1 && sv.extents[0] >= 2 {
      RankOneStride(sv, sl);
      RankOneStride(rv, rl);
    }
  }

  lemma RankOneStride(v: View, layout: Layout)
    requires Valid(v) && |v.extents| == 1 && v.extents[0] >= 2
    ensures WireStrides(v, layout) == [1]
  {
    var e, s := v.extents[0], v.strides[0];
    assert v.extents[1..] == [];
    assert Product(v.extents[1..]) == 1 && Size(v) == e;
    assert MaxOffset(v.extents, v.strides) == (e - 1) * s + MaxOffset(v.extents[1..], v.strides[1..]);
    assert Span(v) == 1 + (e - 1) * s;
    if Contiguous(v) {
      if s >= 2 { MulMono(e - 1, 2, s); assert false; }
      assert s != 0;
    }
  }

  /** So do views that, where they are shipped raw, already use the common packed layout. */
  lemma PackedOrder(sv: View, rv: View, layout: Layout)
    requires Valid(sv) && Valid(rv) && sv.extents == rv.extents
    requires Contiguous(sv) ==> sv.strides == PackedStrides(layout, sv.extents)
    requires Contiguous(rv) ==> rv.strides == PackedStrides(layout, rv.extents)
    ensures SameWireOrder(sv, layout, rv, layout)
  {}

  lemma TwoByTwo(s: seq<nat>, i: seq<nat>)
    requires |s| == 2 && InBounds([2, 2], i)
    ensures Dot(s, i) == s[0] * i[0] + s[1] * i[1]
  {
    assert s[1..][1..] == [] && i[1..][1..] == [];
    assert Dot(s[1..], i[1..]) == s[1] * i[1] + Dot(s[1..][1..], i[1..][1..]);
  }

  lemma TwoByTwoInjective(v: View, a: nat, b: nat)
    requires v == View(0, [2, 2], [a, b]) && 0 < a && 0 < b && a != b
    ensures Injective(v)
  {
    forall i, j | InBounds(v.extents, i) && InBounds(v.extents, j) && Dot(v.strides, i) == Dot(v.strides, j)
      ensures i == j
    {
      TwoByTwo(v.strides, i);
      TwoByTwo(v.strides, j);
      assert i == [i[0], i[1]] && j == [j[0], j[1]];
      assert i[0] == 0 || i[0] == 1;
      assert i[1] == 0 || i[1] == 1;
      assert j[0] == 0 || j[0] == 1;
      assert j[1] == 0 || j[1] == 1;
    }
  }

  /**
   The condition bites: a 2x2 view of the other layout, shipped raw, is not delivered to a strided
   view that unpacks with the last dimension fastest.
   */
  lemma TransposedDelivery()
    ensures var sv, rv := View(0, [2, 2], [1, 2]), View(0, [2, 2], [4, 2]);
      Contiguous(sv) && !Contiguous(rv) && !DeliversAll(sv, LayoutRight, rv, LayoutRight)
  {
    var sv, rv := View(0, [2, 2], [1, 2]), View(0, [2, 2], [4, 2]);
    TwoByTwoInjective(sv, 1, 2);
    TwoByTwoInjective(rv, 4, 2);
    assert sv.extents[1..] == [2] && [2][1..] == [];
    assert Product([2]) == 2 && Product([2, 2]) == 4;
    assert sv.strides[1..] == [2] && rv.strides[1..] == [2];
    assert MaxOffset([2], [2]) == 2;
    assert Span(sv) == 4 && Span(rv) == 7;
    assert PackedStrides(LayoutRight, [2, 2])[0] == 2;
    assert WireStrides(sv, LayoutRight)[0] == 1 && WireStrides(rv, LayoutRight)[0] == 2;
    DeliveryTheorem(sv, LayoutRight, rv, LayoutRight);
  }
}
