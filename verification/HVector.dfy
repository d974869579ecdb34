/**
 Derived datatypes as type maps, after section 4.1.2 of MPI 3.1: the byte displacements of the
 entries, in the order they are transmitted. A view's type nests one hvector per dimension.
 */
module HVector {
  import opened MixedRadix
  import opened Pigeonhole
  import opened StridedView

  function Shift(tm: seq<nat>, amount: nat): (r: seq<nat>)
    ensures |r| == |tm| && forall k :: 0 <= k < |tm| ==> r[k] == tm[k] + amount
  {
    if tm == [] then [] else [tm[0] + amount] + Shift(tm[1..], amount)
  }

  /** `count` copies of `inner`, one after the other, `stride` bytes apart. */
  function Hvector(count: nat, stride: nat, inner: seq<nat>): seq<nat> {
    if count == 0 then [] else Hvector(count - 1, stride, inner) + Shift(inner, stride * (count - 1))
  }

  lemma {:induction false} HvectorLength(count: nat, stride: nat, inner: seq<nat>)
    ensures |Hvector(count, stride, inner)| == |inner| * count
  {
    if count > 0 {
      HvectorLength(count - 1, stride, inner);
      assert |inner| * count == |inner| * (count - 1) + |inner|;
    }
  }

  lemma {:induction false} HvectorPrefix(m: nat, count: nat, stride: nat, inner: seq<nat>)
    requires m <= count
    ensures Hvector(m, stride, inner) <= Hvector(count, stride, inner)
    decreases count
  {
    if m < count { HvectorPrefix(m, count - 1, stride, inner); }
  }

  lemma HvectorLast(q: nat, stride: nat, inner: seq<nat>, r: nat)
    requires r < |inner|
    ensures |Hvector(q, stride, inner)| + r < |Hvector(q + 1, stride, inner)|
    ensures Hvector(q + 1, stride, inner)[|Hvector(q, stride, inner)| + r] == inner[r] + stride * q
  {}

  /** Entry r of copy q. */
  lemma HvectorAt(count: nat, stride: nat, inner: seq<nat>, k: nat, q: nat, r: nat)
    requires q < count && r < |inner| && k == |inner| * q + r
    ensures k < |Hvector(count, stride, inner)|
    ensures Hvector(count, stride, inner)[k] == inner[r] + stride * q
  {
    HvectorLength(q, stride, inner);
    HvectorLast(q, stride, inner, r);
    HvectorPrefix(q + 1, count, stride, inner);
  }

  /** The type of the first dimensions, each wrapping the one before. */
  function Nested(size: nat, ext: seq<nat>, strides: seq<nat>): seq<nat>
    requires |ext| == |strides|
  {
    if ext == [] then [0]
    else
      var n := |ext| - 1;
      Hvector(ext[n], strides[n] * size, Nested(size, ext[..n], strides[..n]))
  }

  // ---------------------------------------------------------------- adding a dimension at the end

  lemma {:induction false} ProductSnoc(ext: seq<nat>, e: nat)
    ensures Product(ext + [e]) == Product(ext) * e
  {
    var all := ext + [e];
    if ext != [] {
      ProductSnoc(ext[1..], e);
      assert all[1..] == ext[1..] + [e];
      assert ext[0] * (Product(ext[1..]) * e) == ext[0] * Product(ext[1..]) * e;
    } else {
      assert all[1..] == [];
    }
  }

  lemma {:induction false} DotSnoc(strides: seq<nat>, s: nat, i: seq<nat>, x: nat)
    requires |strides| == |i|
    ensures Dot(strides + [s], i + [x]) == Dot(strides, i) + s * x
  {
    var ss, ii := strides + [s], i + [x];
    if i != [] {
      DotSnoc(strides[1..], s, i[1..], x);
      assert ss[1..] == strides[1..] + [s] && ii[1..] == i[1..] + [x];
    } else {
      assert ss[1..] == [] && ii[1..] == [];
    }
  }

  lemma LeftStep(e: nat, p: nat, q: nat, x: nat, i: nat)
    ensures e * (p + q * x) + i == (e * p + i) + e * q * x
  {
    assert e * (p + q * x) == e * p + e * (q * x);
    assert e * (q * x) == e * q * x;
  }

  lemma SnocBounds(ext: seq<nat>, e: nat, i: seq<nat>, x: nat)
    requires InBounds(ext, i) && x < e
    ensures InBounds(ext + [e], i + [x])
  {}

  lemma {:induction false} PositionSnoc(ext: seq<nat>, e: nat, i: seq<nat>, x: nat)
    requires InBounds(ext, i) && x < e
    ensures InBounds(ext + [e], i + [x])
    ensures Position(LayoutLeft, ext + [e], i + [x]) == Position(LayoutLeft, ext, i) + Product(ext) * x
    decreases |ext|
  {
    var all, ii := ext + [e], i + [x];
    SnocBounds(ext, e, i, x);
    if ext != [] {
      PositionSnoc(ext[1..], e, i[1..], x);
      assert all[1..] == ext[1..] + [e];
      assert ii == [i[0]] + (i[1..] + [x]) && i == [i[0]] + i[1..];
      PositionGlue(all, ii, i[0], i[1..] + [x]);
      PositionGlue(ext, i, i[0], i[1..]);
      LeftStep(ext[0], Position(LayoutLeft, ext[1..], i[1..]), Product(ext[1..]), x, i[0]);
    } else {
      assert all[1..] == [] && ii[1..] == [];
      assert Position(LayoutLeft, all, ii) == e * Position(LayoutLeft, [], []) + x;
    }
  }

  /** The last digit counts whole copies of the lower dimensions. */
  lemma DigitsSnoc(ext: seq<nat>, e: nat, q: nat, r: nat)
    requires q < e && r < Product(ext)
    ensures Product(ext) * q + r < Product(ext + [e])
    ensures IndexAt(LayoutLeft, ext + [e], Product(ext) * q + r) == IndexAt(LayoutLeft, ext, r) + [q]
  {
    var i := IndexAt(LayoutLeft, ext, r);
    PositionSnoc(ext, e, i, q);
    PositionIndexAt(LayoutLeft, ext, r);
    IndexAtPosition(LayoutLeft, ext + [e], i + [q]);
  }

  lemma EntryStep(size: nat, d: nat, s: nat, q: nat)
    ensures size * d + s * size * q == size * (d + s * q)
  {
    assert s * size * q == size * (s * q);
    assert size * (d + s * q) == size * d + size * (s * q);
  }

  /**
   The nested type has one entry per element; the k-th lies at sizeof(T) times the offset of the
   k-th multi-index, dimension 0 counting fastest.
   */
  lemma {:induction false} TypeMap(size: nat, ext: seq<nat>, strides: seq<nat>, k: nat)
    requires |ext| == |strides|
    ensures |Nested(size, ext, strides)| == Product(ext)
    ensures k < Product(ext) ==>
      Nested(size, ext, strides)[k] == size * Dot(strides, IndexAt(LayoutLeft, ext, k))
    decreases |ext|, 0
  {
    if ext != [] {
      var n := |ext| - 1;
      var front, e, s := ext[..n], ext[n], strides[n];
      var inner := Nested(size, front, strides[..n]);
      assert ext == front + [e] && strides == strides[..n] + [s];
      TypeMap(size, front, strides[..n], 0);
      HvectorLength(e, s * size, inner);
      ProductSnoc(front, e);
      if k < Product(ext) {
        TypeMapEntry(size, front, e, strides[..n], s, k);
      }
    } else {
      assert Dot(strides, []) == 0;
    }
  }

  lemma {:induction false} TypeMapEntry(size: nat, front: seq<nat>, e: nat, strides: seq<nat>, s: nat, k: nat)
    requires |front| == |strides| && k < Product(front) * e
    ensures k < Product(front + [e])
    ensures k < |Hvector(e, s * size, Nested(size, front, strides))|
    ensures Hvector(e, s * size, Nested(size, front, strides))[k]
      == size * Dot(strides + [s], IndexAt(LayoutLeft, front + [e], k))
    decreases |front|, 1
  {
    var (q, r) := Split(k, Product(front), e);
    TypeMap(size, front, strides, r);
    TypeMapDigits(size, front, e, strides, s, Nested(size, front, strides), Product(front), k, q, r);
  }

  lemma DigitsDot(size: nat, front: seq<nat>, e: nat, strides: seq<nat>, s: nat, len: nat, k: nat, q: nat, r: nat)
    requires |front| == |strides| && len == Product(front) && q < e && r < len && k == len * q + r
    ensures k < Product(front + [e])
    ensures size * Dot(strides + [s], IndexAt(LayoutLeft, front + [e], k))
      == size * Dot(strides, IndexAt(LayoutLeft, front, r)) + s * size * q
  {
    var i := IndexAt(LayoutLeft, front, r);
    DigitsSnoc(front, e, q, r);
    DotSnoc(strides, s, i, q);
    EntryStep(size, Dot(strides, i), s, q);
  }

  lemma TypeMapDigits(size: nat, front: seq<nat>, e: nat, strides: seq<nat>, s: nat, inner: seq<nat>,
                      len: nat, k: nat, q: nat, r: nat)
    requires |front| == |strides| && len == Product(front) == |inner| && q < e && r < len && k == len * q + r
    requires inner[r] == size * Dot(strides, IndexAt(LayoutLeft, front, r))
    ensures k < Product(front + [e]) && k < |Hvector(e, s * size, inner)|
    ensures Hvector(e, s * size, inner)[k] == size * Dot(strides + [s], IndexAt(LayoutLeft, front + [e], k))
  {
    HvectorAt(e, s * size, inner, k, q, r);
    DigitsDot(size, front, e, strides, s, len, k, q, r);
  }

  // ---------------------------------------------------------------- transfer through a type

  /** The type of a view of elements of `size` bytes. */
  function ViewType(size: nat, v: View): seq<nat>
    requires Valid(v)
  {
    Nested(size, v.extents, v.strides)
  }

  /** A type all of whose entries are whole elements within the allocation, counted from `base`. */
  predicate Placed(tm: seq<nat>, size: nat, base: nat, n: nat) {
    size > 0 && forall k :: 0 <= k < |tm| ==> tm[k] % size == 0 && base + tm[k] / size < n
  }

  /** The elements the entries of a type name, counted from `base`. */
  function TypedPlaces(base: nat, tm: seq<nat>, size: nat): (r: seq<nat>)
    requires size > 0
    ensures |r| == |tm| && forall k :: 0 <= k < |r| ==> r[k] == base + tm[k] / size
  {
    if tm == [] then [] else [base + tm[0] / size] + TypedPlaces(base, tm[1..], size)
  }

  /** What the library transmits: the entries in type-map order. */
  function TypedGather(mem: seq<int>, base: nat, tm: seq<nat>, size: nat): (r: seq<int>)
    requires Placed(tm, size, base, |mem|)
    ensures |r| == |tm|
  {
    Pick(mem, TypedPlaces(base, tm, size))
  }

  /** What the library writes on receipt: entry by entry in type-map order. */
  function TypedScatter(mem: seq<int>, base: nat, tm: seq<nat>, size: nat, data: seq<int>): (r: seq<int>)
    requires Placed(tm, size, base, |mem|) && |data| == |tm|
    ensures |r| == |mem|
  {
    Fill(mem, TypedPlaces(base, tm, size), data)
  }

  lemma Exact(size: nat, d: nat)
    requires size > 0
    ensures (size * d) % size == 0 && (size * d) / size == d
  {
    DivMod(size, d, 0);
  }

  lemma EntryAt(size: nat, v: View, k: nat)
    requires Valid(v) && size > 0 && k < Size(v)
    ensures k < |ViewType(size, v)|
    ensures ViewType(size, v)[k] % size == 0 && v.base + ViewType(size, v)[k] / size == At(v, LayoutLeft, k)
  {
    TypeMap(size, v.extents, v.strides, k);
    Exact(size, Dot(v.strides, IndexAt(LayoutLeft, v.extents, k)));
  }

  lemma TypePlaced(size: nat, v: View, n: nat)
    requires Fits(v, n) && size > 0
    ensures |ViewType(size, v)| == Size(v)
    ensures Placed(ViewType(size, v), size, v.base, n)
  {
    TypeMap(size, v.extents, v.strides, 0);
    forall k | 0 <= k < Size(v)
      ensures ViewType(size, v)[k] % size == 0 && v.base + ViewType(size, v)[k] / size < n
    {
      EntryAt(size, v, k);
      AddrInSpan(v, IndexAt(LayoutLeft, v.extents, k));
    }
  }

  /** The type names the elements of the view in the order of the packed layout with dimension 0 fastest. */
  lemma TypeOrder(size: nat, v: View)
    requires Valid(v) && size > 0
    ensures TypedPlaces(v.base, ViewType(size, v), size) == Places(v, LayoutLeft)
  {
    TypeMap(size, v.extents, v.strides, 0);
    var typed := TypedPlaces(v.base, ViewType(size, v), size);
    forall k | 0 <= k < Size(v) ensures typed[k] == Places(v, LayoutLeft)[k] {
      EntryAt(size, v, k);
    }
  }

  /** Sending through the type transmits what packing with dimension 0 fastest would. */
  lemma TypedSend(mem: seq<int>, size: nat, v: View)
    requires Fits(v, |mem|) && size > 0
    ensures Placed(ViewType(size, v), size, v.base, |mem|)
    ensures TypedGather(mem, v.base, ViewType(size, v), size) == Gather(mem, v, LayoutLeft)
  {
    TypePlaced(size, v, |mem|);
    TypeOrder(size, v);
  }

  /** Receiving through the type leaves what unpacking from a buffer with dimension 0 fastest would. */
  lemma TypedReceive(mem: seq<int>, size: nat, v: View, data: seq<int>)
    requires Fits(v, |mem|) && size > 0 && |data| == Size(v)
    ensures Placed(ViewType(size, v), size, v.base, |mem|) && |ViewType(size, v)| == |data|
    ensures TypedScatter(mem, v.base, ViewType(size, v), size, data) == Scatter(mem, v, LayoutLeft, data)
  {
    TypePlaced(size, v, |mem|);
    TypeOrder(size, v);
  }

  /** With derived types on both sides every element arrives, whatever the two sets of strides. */
  lemma TypedDelivery(smem: seq<int>, sv: View, rmem: seq<int>, rv: View, size: nat, i: seq<nat>)
    requires Fits(sv, |smem|) && Fits(rv, |rmem|) && Injective(rv) && sv.extents == rv.extents && size > 0
    requires InBounds(rv.extents, i)
    ensures Placed(ViewType(size, sv), size, sv.base, |smem|) && Placed(ViewType(size, rv), size, rv.base, |rmem|)
    ensures |ViewType(size, sv)| == |ViewType(size, rv)|
    ensures
      var data := TypedGather(smem, sv.base, ViewType(size, sv), size);
      var out := TypedScatter(rmem, rv.base, ViewType(size, rv), size, data);
      Addr(rv, i) < |out| && Addr(sv, i) < |smem| && out[Addr(rv, i)] == smem[Addr(sv, i)]
  {
    TypedSend(smem, size, sv);
    var data := Gather(smem, sv, LayoutLeft);
    TypedReceive(rmem, size, rv, data);
    TypePlaced(size, sv, |smem|);
    AddrInSpan(rv, i);
    AddrInSpan(sv, i);
    var k := Position(LayoutLeft, rv.extents, i);
    IndexAtPosition(LayoutLeft, rv.extents, i);
    assert At(sv, LayoutLeft, k) == Addr(sv, i) && At(rv, LayoutLeft, k) == Addr(rv, i);
    ScatterAt(rmem, rv, LayoutLeft, data, k);
  }
}
