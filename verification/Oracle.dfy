/**
 The delivery oracle of the unit tests: views filled with a linear index, checked against it after
 a transfer, and the non-contiguous views they are run on.
 */
module Oracle {
  import opened MixedRadix
  import opened HVector
  import opened Pigeonhole
  import opened StridedView

  lemma RightStep(p: nat, e: nat, i: nat, q: nat, x: nat)
    ensures p * e * i + (e * q + x) == e * (p * i + q) + x
  {
    assert p * e * i == e * (p * i);
    assert e * (p * i + q) == e * (p * i) + e * q;
  }

  lemma {:induction false} PositionRightSnoc(ext: seq<nat>, e: nat, i: seq<nat>, x: nat)
    requires InBounds(ext, i) && x < e
    ensures InBounds(ext + [e], i + [x])
    ensures Position(LayoutRight, ext + [e], i + [x]) == e * Position(LayoutRight, ext, i) + x
    decreases |ext|
  {
    var all, ii := ext + [e], i + [x];
    if ext != [] {
      PositionRightSnoc(ext[1..], e, i[1..], x);
      assert all[1..] == ext[1..] + [e] && ii[1..] == i[1..] + [x];
      ProductSnoc(ext[1..], e);
      RightStep(Product(ext[1..]), e, i[0], Position(LayoutRight, ext[1..], i[1..]), x);
    } else {
      assert all[1..] == [] && ii[1..] == [];
      assert Product(all[1..]) == 1;
    }
  }

  /** The fold over the dimensions computes the row-major position of an index, at any rank. */
  method Horner(exts: seq<nat>, ids: seq<nat>) returns (val: nat)
    requires InBounds(exts, ids)
    ensures val == Position(LayoutRight, exts, ids)
  {
    val := 0;
    for d := 0 to |exts|
      invariant InBounds(exts[..d], ids[..d]) && val == Position(LayoutRight, exts[..d], ids[..d])
    {
      PositionRightSnoc(exts[..d], exts[d], ids[..d], ids[d]);
      assert exts[..d + 1] == exts[..d] + [exts[d]] && ids[..d + 1] == ids[..d] + [ids[d]];
      val := ids[d] + exts[d] * val;
    }
    assert exts[..|exts|] == exts && ids[..|exts|] == ids;
  }

  function Iota(n: nat): (r: seq<int>)
    ensures |r| == n && forall k :: 0 <= k < n ==> r[k] == k
  {
    if n == 0 then [] else Iota(n - 1) + [n - 1]
  }

  /** Fills a view with its linear indices, element by element. */
  method InitView(mem: array<int>, v: View)
    requires Fits(v, mem.Length)
    modifies mem
    ensures mem[..] == Scatter(old(mem[..]), v, LayoutRight, Iota(Size(v)))
  {
    ghost var before, places := mem[..], Places(v, LayoutRight);
    PlacesFit(v, LayoutRight, mem.Length);
    for k := 0 to Size(v)
      invariant mem[..] == Fill(before, places[..k], Iota(Size(v))[..k])
    {
      FillNext(before, places, Iota(Size(v)), k);
      var ids := IndexAt(LayoutRight, v.extents, k);
      var val := Horner(v.extents, ids);
      PositionIndexAt(LayoutRight, v.extents, k);
      mem[At(v, LayoutRight, k)] := val;
    }
    assert places[..Size(v)] == places && Iota(Size(v))[..Size(v)] == Iota(Size(v));
  }

  /** How many of the first n elements, in linear order, differ from their linear index. */
  function Errors(elements: seq<int>, n: nat): nat
    requires n <= |elements|
  {
    if n == 0 then 0 else Errors(elements, n - 1) + if elements[n - 1] != n - 1 then 1 else 0
  }

  /** The linear indices below n whose element is something else. */
  function WrongPlaces(elements: seq<int>, n: nat): set<nat>
    requires n <= |elements|
  {
    set k: nat | k < n && elements[k] != k
  }

  lemma {:induction false} ErrorsCount(elements: seq<int>, n: nat)
    requires n <= |elements|
    ensures Errors(elements, n) == |WrongPlaces(elements, n)|
    decreases n
  {
    if n == 0 {
      assert WrongPlaces(elements, 0) == {};
    } else {
      ErrorsCount(elements, n - 1);
      if elements[n - 1] != n - 1 {
        assert WrongPlaces(elements, n) == WrongPlaces(elements, n - 1) + {n - 1};
      } else {
        assert WrongPlaces(elements, n) == WrongPlaces(elements, n - 1);
      }
    }
  }

  /** Compares one element with its linear index, computed afresh. */
  method Wrong(mem: array<int>, v: View, k: nat) returns (wrong: bool)
    requires Fits(v, mem.Length) && k < Size(v)
    ensures wrong <==> Gather(mem[..], v, LayoutRight)[k] != k
  {
    var ids := IndexAt(LayoutRight, v.extents, k);
    var val := Horner(v.extents, ids);
    PositionIndexAt(LayoutRight, v.extents, k);
    wrong := mem[At(v, LayoutRight, k)] != val;
  }

  method CountErrors(mem: array<int>, v: View) returns (errs: nat)
    requires Fits(v, mem.Length)
    ensures errs == Errors(Gather(mem[..], v, LayoutRight), Size(v))
    ensures errs == |set k: nat | k < Size(v) && Gather(mem[..], v, LayoutRight)[k] != k|
  {
    errs := 0;
    for k := 0 to Size(v)
      invariant errs == Errors(Gather(mem[..], v, LayoutRight), k)
    {
      var wrong := Wrong(mem, v, k);
      if wrong {
        errs := errs + 1;
      }
    }
    ErrorsCount(Gather(mem[..], v, LayoutRight), Size(v));
  }

  /** Initialisation leaves each element holding its linear index. */
  lemma InitNumbers(mem: seq<int>, v: View)
    requires Fits(v, |mem|) && Injective(v)
    ensures Gather(Scatter(mem, v, LayoutRight, Iota(Size(v))), v, LayoutRight) == Iota(Size(v))
  {
    var out := Scatter(mem, v, LayoutRight, Iota(Size(v)));
    forall k | 0 <= k < Size(v) ensures Gather(out, v, LayoutRight)[k] == Iota(Size(v))[k] {
      ScatterAt(mem, v, LayoutRight, Iota(Size(v)), k);
    }
  }

  lemma {:induction false} ErrorsZero(elements: seq<int>, n: nat)
    requires n <= |elements|
    ensures Errors(elements, n) == 0 <==> elements[..n] == Iota(n)
    decreases n
  {
    if n > 0 {
      ErrorsZero(elements, n - 1);
      assert elements[..n] == elements[..n - 1] + [elements[n - 1]];
      assert Iota(n)[..n - 1] == Iota(n - 1);
    }
  }

  /** rv(i...) is sv(i...) for every index. */
  ghost predicate SameElements(smem: seq<int>, sv: View, rmem: seq<int>, rv: View)
    requires Fits(sv, |smem|) && Fits(rv, |rmem|) && sv.extents == rv.extents
  {
    forall i | InBounds(rv.extents, i) ::
      Addr(rv, i) < |rmem| && Addr(sv, i) < |smem| && rmem[Addr(rv, i)] == smem[Addr(sv, i)]
  }

  lemma SameGather(smem: seq<int>, sv: View, rmem: seq<int>, rv: View)
    requires Fits(sv, |smem|) && Fits(rv, |rmem|) && sv.extents == rv.extents
    ensures SameElements(smem, sv, rmem, rv) <==> Gather(smem, sv, LayoutRight) == Gather(rmem, rv, LayoutRight)
  {
    var a, b := Gather(smem, sv, LayoutRight), Gather(rmem, rv, LayoutRight);
    if SameElements(smem, sv, rmem, rv) {
      forall k | 0 <= k < Size(rv) ensures a[k] == b[k] {
        var i := IndexAt(LayoutRight, rv.extents, k);
        assert At(sv, LayoutRight, k) == Addr(sv, i) && At(rv, LayoutRight, k) == Addr(rv, i);
      }
    }
    if a == b {
      forall i | InBounds(rv.extents, i)
        ensures Addr(rv, i) < |rmem| && Addr(sv, i) < |smem| && rmem[Addr(rv, i)] == smem[Addr(sv, i)]
      {
        AddrInSpan(rv, i);
        AddrInSpan(sv, i);
        IndexAtPosition(LayoutRight, rv.extents, i);
        var k := Position(LayoutRight, rv.extents, i);
        assert At(sv, LayoutRight, k) == Addr(sv, i) && At(rv, LayoutRight, k) == Addr(rv, i);
        assert a[k] == b[k];
      }
    }
  }

  /** If the sent view was initialised, the count is zero exactly when rv(i...) is sv(i...) for every index. */
  lemma OracleSound(smem: seq<int>, sv: View, rmem: seq<int>, rv: View)
    requires Fits(sv, |smem|) && Fits(rv, |rmem|) && sv.extents == rv.extents
    requires Gather(smem, sv, LayoutRight) == Iota(Size(sv))
    ensures Errors(Gather(rmem, rv, LayoutRight), Size(rv)) == 0 <==> SameElements(smem, sv, rmem, rv)
  {
    var elements := Gather(rmem, rv, LayoutRight);
    ErrorsZero(elements, Size(rv));
    assert elements[..Size(rv)] == elements;
    SameGather(smem, sv, rmem, rv);
  }

  /** How many of the first n places a rearrangement does not keep. */
  function Moved(perm: seq<nat>, n: nat): nat
    requires n <= |perm|
  {
    if n == 0 then 0 else Moved(perm, n - 1) + if perm[n - 1] != n - 1 then 1 else 0
  }

  /** Elements that arrive rearranged are counted one by one ... */
  lemma {:induction false} MovedCounted(elements: seq<int>, perm: seq<nat>, n: nat)
    requires n <= |perm| == |elements| && forall k :: 0 <= k < |perm| ==> elements[k] == perm[k]
    ensures Errors(elements, n) == Moved(perm, n)
    decreases n
  {
    if n > 0 { MovedCounted(elements, perm, n - 1); }
  }

  lemma {:induction false} MovedZero(perm: seq<nat>, n: nat)
    requires n <= |perm|
    ensures Moved(perm, n) == 0 <==> forall k :: 0 <= k < n ==> perm[k] == k
    decreases n
  {
    if n > 0 { MovedZero(perm, n - 1); }
  }

  /** ... so the check passes a rearrangement of an initialised view only if it is the identity. */
  lemma RearrangementDetected(sent: seq<int>, arrived: seq<int>, perm: seq<nat>)
    requires |sent| == |arrived| == |perm| && sent == Iota(|sent|)
    requires forall k :: 0 <= k < |perm| ==> perm[k] < |sent| && arrived[k] == sent[perm[k]]
    ensures Errors(arrived, |arrived|) == Moved(perm, |perm|)
    ensures Errors(arrived, |arrived|) == 0 <==> forall k :: 0 <= k < |perm| ==> perm[k] == k
  {
    forall k | 0 <= k < |perm| ensures arrived[k] == perm[k] {
      assert Iota(|sent|)[perm[k]] == perm[k];
    }
    MovedCounted(arrived, perm, |perm|);
    MovedZero(perm, |perm|);
  }

  // ---------------------------------------------------------------- the test views

  /** One half of an array with one more dimension, of extent 2 and counting fastest. */
  function NonContig(ext: seq<nat>): View {
    View(1, ext, PackedStrides(LayoutRight, ext + [2])[..|ext|])
  }

  lemma NonContigOffset(ext: seq<nat>, i: seq<nat>)
    requires InBounds(ext, i)
    ensures Dot(NonContig(ext).strides, i) == 2 * Position(LayoutRight, ext, i)
  {
    var all, ii := ext + [2], i + [0];
    var s := PackedStrides(LayoutRight, all);
    PositionRightSnoc(ext, 2, i, 0);
    PositionIsDot(LayoutRight, all, ii);
    assert s == s[..|ext|] + [s[|ext|]];
    DotSnoc(s[..|ext|], s[|ext|], i, 0);
  }

  lemma NonContigSpan(ext: seq<nat>)
    requires Product(ext) > 0
    ensures MaxOffset(ext, NonContig(ext).strides) == 2 * (Product(ext) - 1)
  {
    var v, last := NonContig(ext), IndexAt(LayoutRight, ext, Product(ext) - 1);
    PositionIndexAt(LayoutRight, ext, Product(ext) - 1);
    NonContigOffset(ext, last);
    OffsetBound(ext, v.strides, last);
    NonContigOffset(ext, LastIndex(ext));
    LastOffset(ext, v.strides);
    PositionBound(LayoutRight, ext, LastIndex(ext));
  }

  /** Element i is the one at (i..., 1) of the array they are half of. */
  lemma NonContigAt(ext: seq<nat>, i: seq<nat>)
    requires InBounds(ext, i)
    ensures InBounds(ext + [2], i + [1])
    ensures Addr(NonContig(ext), i) == Position(LayoutRight, ext + [2], i + [1])
  {
    NonContigOffset(ext, i);
    PositionRightSnoc(ext, 2, i, 1);
  }

  /** The test views never overlap themselves ... */
  lemma NonContigInjective(ext: seq<nat>)
    ensures Injective(NonContig(ext))
  {
    var v := NonContig(ext);
    forall i, j | InBounds(ext, i) && InBounds(ext, j) && Dot(v.strides, i) == Dot(v.strides, j) ensures i == j {
      NonContigOffset(ext, i);
      NonContigOffset(ext, j);
      IndexAtPosition(LayoutRight, ext, i);
      IndexAtPosition(LayoutRight, ext, j);
    }
  }

  /** ... and are shipped raw only if they have fewer than two elements. */
  lemma NonContigStrided(ext: seq<nat>)
    ensures Contiguous(NonContig(ext)) <==> Product(ext) <= 1
  {
    if Product(ext) > 0 { NonContigSpan(ext); }
  }
}
