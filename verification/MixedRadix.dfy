/** Mixed-radix arithmetic for multi-dimensional indices of any rank. */
module MixedRadix {

  /** The product of the extents: the number of multi-indices they bound. */
  function Product(ext: seq<nat>): nat {
    if ext == [] then 1 else ext[0] * Product(ext[1..])
  }

  predicate InBounds(ext: seq<nat>, i: seq<nat>) {
    && |i| == |ext|
    && forall d :: 0 <= d < |ext| ==> i[d] < ext[d]
  }

  /** The offset a strided mapping assigns to a multi-index. */
  function Dot(strides: seq<nat>, i: seq<nat>): nat
    requires |strides| == |i|
  {
    if |i| == 0 then 0 else strides[0] * i[0] + Dot(strides[1..], i[1..])
  }

  /** Kokkos' two packed layouts: dimension 0 fastest, or the last dimension fastest. */
  datatype Layout = LayoutLeft | LayoutRight

  function Scale(c: nat, s: seq<nat>): (r: seq<nat>)
    ensures |r| == |s|
    ensures forall d :: 0 <= d < |s| ==> r[d] == c * s[d]
  {
    if s == [] then [] else [c * s[0]] + Scale(c, s[1..])
  }

  function PackedStrides(layout: Layout, ext: seq<nat>): (r: seq<nat>)
    ensures |r| == |ext|
  {
    if ext == [] then []
    else match layout
      case LayoutLeft => [1] + Scale(ext[0], PackedStrides(layout, ext[1..]))
      case LayoutRight => [Product(ext[1..])] + PackedStrides(layout, ext[1..])
  }

  /** The position of a multi-index in the packed enumeration. */
  function Position(layout: Layout, ext: seq<nat>, i: seq<nat>): nat
    requires InBounds(ext, i)
  {
    if ext == [] then 0
    else match layout
      case LayoutLeft => ext[0] * Position(layout, ext[1..], i[1..]) + i[0]
      case LayoutRight => Product(ext[1..]) * i[0] + Position(layout, ext[1..], i[1..])
  }

  /** The quotient and the remainder of a position below a * b by a. */
  function Split(k: nat, a: nat, b: nat): (r: (nat, nat))
    requires k < a * b
    ensures r.0 < b && r.1 < a && k == a * r.0 + r.1
  {
    DivBound(k, a, b);
    (k / a, k % a)
  }

  /** The multi-index at a position of the packed enumeration: its mixed-radix digits. */
  function IndexAt(layout: Layout, ext: seq<nat>, k: nat): (i: seq<nat>)
    requires k < Product(ext)
    ensures InBounds(ext, i)
    decreases |ext|
  {
    if ext == [] then []
    else match layout
      case LayoutLeft =>
        var (q, r) := Split(k, ext[0], Product(ext[1..]));
        [r] + IndexAt(layout, ext[1..], q)
      case LayoutRight =>
        MulComm(Product(ext[1..]), ext[0]);
        var (q, r) := Split(k, Product(ext[1..]), ext[0]);
        [q] + IndexAt(layout, ext[1..], r)
  }

  /** Dividing a position below a * b by a leaves a quotient below b and a remainder below a. */
  lemma DivBound(k: nat, a: nat, b: nat)
    requires k < a * b
    ensures a > 0 && b > 0 && k / a < b && k % a < a && k == a * (k / a) + k % a
  {
    assert a > 0 && b > 0;
    if k / a >= b { MulMono(a, b, k / a); assert false; }
  }

  lemma MulComm(a: nat, b: nat)
    ensures a * b == b * a
  {}

  lemma MulMono(a: nat, x: nat, y: nat)
    requires x <= y
    ensures a * x <= a * y
  {}

  lemma MulStep(a: nat, x: nat, y: nat)
    requires x < y
    ensures a * x + a <= a * y
  {
    assert a * (x + 1) == a * x + a;
    MulMono(a, x + 1, y);
  }

  lemma DivMod(a: nat, q: nat, r: nat)
    requires r < a
    ensures (a * q + r) / a == q && (a * q + r) % a == r
  {
    DivModUnique(a, q, r, (a * q + r) / a, (a * q + r) % a);
  }

  lemma DivModUnique(a: nat, q: nat, r: nat, q': int, r': int)
    requires r < a && 0 <= r' < a && a * q + r == a * q' + r' && q' >= 0
    ensures q == q' && r == r'
  {
    if q' < q { MulStep(a, q', q); assert false; }
    if q' > q { MulStep(a, q, q'); assert false; }
  }

  /** One digit of IndexAt. */
  lemma IndexAtLeft(ext: seq<nat>, k: nat, head: nat, tail: nat)
    requires ext != [] && k < Product(ext) && tail < Product(ext[1..]) && head < ext[0]
    requires k == ext[0] * tail + head
    ensures IndexAt(LayoutLeft, ext, k) == [head] + IndexAt(LayoutLeft, ext[1..], tail)
  {
    var (q, r) := Split(k, ext[0], Product(ext[1..]));
    DivModUnique(ext[0], tail, head, q, r);
  }

  lemma IndexAtRight(ext: seq<nat>, k: nat, head: nat, tail: nat, p: nat)
    requires ext != [] && k < Product(ext) && p == Product(ext[1..]) && tail < p && head < ext[0]
    requires k == p * head + tail
    ensures IndexAt(LayoutRight, ext, k) == [head] + IndexAt(LayoutRight, ext[1..], tail)
  {
    MulComm(p, ext[0]);
    var (q, r) := Split(k, p, ext[0]);
    DivModUnique(p, head, tail, q, r);
  }

  /** A quotient below b and a remainder below a make a position below a * b, and can be read back. */
  lemma Glue(a: nat, b: nat, q: nat, r: nat)
    requires q < b && r < a
    ensures a * q + r < a * b && (a * q + r) / a == q && (a * q + r) % a == r
  {
    MulStep(a, q, b);
    DivMod(a, q, r);
  }

  /** IndexAt undoes Position ... */
  lemma {:induction false} IndexAtPosition(layout: Layout, ext: seq<nat>, i: seq<nat>)
    requires InBounds(ext, i)
    ensures Position(layout, ext, i) < Product(ext)
    ensures IndexAt(layout, ext, Position(layout, ext, i)) == i
    decreases |ext|
  {
    if ext != [] {
      var k, p, q := Position(layout, ext, i), Position(layout, ext[1..], i[1..]), Product(ext[1..]);
      IndexAtPosition(layout, ext[1..], i[1..]);
      assert i == [i[0]] + i[1..];
      match layout
      case LayoutLeft =>
        Glue(ext[0], q, p, i[0]);
        IndexAtLeft(ext, k, i[0], p);
      case LayoutRight =>
        Glue(q, ext[0], i[0], p);
        MulComm(q, ext[0]);
        IndexAtRight(ext, k, i[0], p, q);
    }
  }

  lemma PositionBound(layout: Layout, ext: seq<nat>, i: seq<nat>)
    requires InBounds(ext, i)
    ensures Position(layout, ext, i) < Product(ext)
  {
    IndexAtPosition(layout, ext, i);
  }

  lemma PositionGlue(ext: seq<nat>, i: seq<nat>, head: nat, tail: seq<nat>)
    requires InBounds(ext, i) && ext != [] && i == [head] + tail
    ensures InBounds(ext[1..], tail)
    ensures Position(LayoutLeft, ext, i) == ext[0] * Position(LayoutLeft, ext[1..], tail) + head
    ensures Position(LayoutRight, ext, i) == Product(ext[1..]) * head + Position(LayoutRight, ext[1..], tail)
  {
    assert i[1..] == tail;
  }

  /** ... and Position undoes IndexAt: positions 0..Product-1 and multi-indices correspond one to one. */
  lemma {:induction false} PositionIndexAt(layout: Layout, ext: seq<nat>, k: nat)
    requires k < Product(ext)
    ensures Position(layout, ext, IndexAt(layout, ext, k)) == k
    decreases |ext|
  {
    if ext != [] {
      var p := Product(ext[1..]);
      var i := IndexAt(layout, ext, k);
      match layout
      case LayoutLeft =>
        var (q, r) := Split(k, ext[0], p);
        PositionIndexAt(layout, ext[1..], q);
        PositionGlue(ext, i, r, IndexAt(layout, ext[1..], q));
      case LayoutRight =>
        MulComm(p, ext[0]);
        var (q, r) := Split(k, p, ext[0]);
        PositionIndexAt(layout, ext[1..], r);
        PositionGlue(ext, i, q, IndexAt(layout, ext[1..], r));
    }
  }

  lemma {:induction false} DotScale(c: nat, s: seq<nat>, i: seq<nat>)
    requires |s| == |i|
    ensures Dot(Scale(c, s), i) == c * Dot(s, i)
    decreases |s|
  {
    if s != [] {
      DotScale(c, s[1..], i[1..]);
      assert Scale(c, s)[1..] == Scale(c, s[1..]);
      assert c * s[0] * i[0] == c * (s[0] * i[0]);
      var x, y := s[0] * i[0], Dot(s[1..], i[1..]);
      assert c * (x + y) == c * x + c * y;
    }
  }

  /** The packed enumeration is the strided mapping with packed strides. */
  lemma {:induction false} PositionIsDot(layout: Layout, ext: seq<nat>, i: seq<nat>)
    requires InBounds(ext, i)
    ensures Dot(PackedStrides(layout, ext), i) == Position(layout, ext, i)
    decreases |ext|
  {
    if ext != [] {
      PositionIsDot(layout, ext[1..], i[1..]);
      var s := PackedStrides(layout, ext);
      match layout
      case LayoutLeft =>
        assert s[1..] == Scale(ext[0], PackedStrides(layout, ext[1..]));
        DotScale(ext[0], PackedStrides(layout, ext[1..]), i[1..]);
      case LayoutRight =>
        assert s[1..] == PackedStrides(layout, ext[1..]);
    }
  }
}
