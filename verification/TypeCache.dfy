/**
 The cache of derived datatypes: one map per element type and rank, keyed by every extent and
 stride narrowed to a C int.
 */
module TypeCache {
  import opened Common
  import opened MixedRadix
  import opened Pigeonhole
  import opened HVector
  import StridedView

  datatype Call = Call(extents: seq<nat>, strides: seq<nat>)

  /** Extents are passed to the library as int counts, so they must fit one. */
  predicate WellShaped(c: Call) {
    |c.extents| == |c.strides| && forall d :: 0 <= d < |c.extents| ==> c.extents[d] <= INT_MAX
  }

  /** A view of the given rank whose strides are below `bound`. */
  predicate Legal(c: Call, rank: nat, bound: nat) {
    WellShaped(c) && |c.extents| == rank && forall d :: 0 <= d < rank ==> c.strides[d] < bound
  }

  /** Extents and strides, alternating. */
  function Key(c: Call): (r: seq<int>)
    requires WellShaped(c)
    ensures |r| == 2 * |c.extents|
    decreases |c.extents|
  {
    if c.extents == [] then []
    else
      var n := |c.extents| - 1;
      Key(Call(c.extents[..n], c.strides[..n])) + [Narrow(c.extents[n]), Narrow(c.strides[n])]
  }

  lemma {:induction false} KeyAt(c: Call, d: nat)
    requires WellShaped(c) && d < |c.extents|
    ensures Key(c)[2 * d] == Narrow(c.extents[d]) && Key(c)[2 * d + 1] == Narrow(c.strides[d])
    decreases |c.extents|
  {
    var n := |c.extents| - 1;
    if d < n { KeyAt(Call(c.extents[..n], c.strides[..n]), d); }
  }

  /** The type a build without any cache would give. */
  function Fresh(size: nat, c: Call): seq<nat>
    requires WellShaped(c)
  {
    Nested(size, c.extents, c.strides)
  }

  type Types = map<seq<int>, seq<nat>>

  ghost predicate AllShaped(calls: seq<Call>) {
    forall k :: 0 <= k < |calls| ==> WellShaped(calls[k])
  }

  /** The cache after a history of calls. */
  ghost function Cached(size: nat, calls: seq<Call>): Types
    requires AllShaped(calls)
  {
    if calls == [] then map[]
    else
      var c, m := calls[|calls| - 1], Cached(size, calls[..|calls| - 1]);
      if Key(c) in m then m else m[Key(c) := Fresh(size, c)]
  }

  /** The keys a history built a type for, in order. */
  ghost function Built(size: nat, calls: seq<Call>): seq<seq<int>>
    requires AllShaped(calls)
  {
    if calls == [] then []
    else
      var c, front := calls[|calls| - 1], calls[..|calls| - 1];
      Built(size, front) + if Key(c) in Cached(size, front) then [] else [Key(c)]
  }

  /** What a call is given after a history. */
  ghost function Answer(size: nat, calls: seq<Call>, c: Call): seq<nat>
    requires AllShaped(calls) && WellShaped(c)
  {
    var m := Cached(size, calls);
    if Key(c) in m then m[Key(c)] else Fresh(size, c)
  }

  lemma KeySnoc(c: Call, d: nat)
    requires WellShaped(c) && d < |c.extents|
    ensures Key(Call(c.extents[..d + 1], c.strides[..d + 1]))
      == Key(Call(c.extents[..d], c.strides[..d])) + [Narrow(c.extents[d]), Narrow(c.strides[d])]
  {
    assert c.extents[..d + 1][..d] == c.extents[..d] && c.strides[..d + 1][..d] == c.strides[..d];
  }

  method MakeKey(c: Call) returns (key: array<int>)
    requires WellShaped(c)
    ensures fresh(key) && key[..] == Key(c)
    ensures forall d :: 0 <= d < |c.extents| ==>
      key[2 * d] == Narrow(c.extents[d]) && key[2 * d + 1] == Narrow(c.strides[d])
  {
    var rank := |c.extents|;
    key := new int[2 * rank];
    for d := 0 to rank
      invariant key[..2 * d] == Key(Call(c.extents[..d], c.strides[..d]))
    {
      key[2 * d] := Narrow(c.extents[d]);
      key[2 * d + 1] := Narrow(c.strides[d]);
      KeySnoc(c, d);
      assert key[..2 * (d + 1)] == key[..2 * d] + [key[2 * d], key[2 * d + 1]];
    }
    assert c.extents[..rank] == c.extents && c.strides[..rank] == c.strides;
    forall d | 0 <= d < rank
      ensures key[2 * d] == Narrow(c.extents[d]) && key[2 * d + 1] == Narrow(c.strides[d])
    {
      KeyAt(c, d);
    }
  }

  /** The loop that wraps the type once per dimension builds the nested type of the view. */
  method BuildType(size: nat, extents: seq<nat>, strides: seq<nat>) returns (t: seq<nat>)
    requires |extents| == |strides|
    ensures t == Nested(size, extents, strides)
  {
    t := [0];
    for d := 0 to |extents|
      invariant t == Nested(size, extents[..d], strides[..d])
    {
      assert extents[..d + 1][..d] == extents[..d] && strides[..d + 1][..d] == strides[..d];
      t := Hvector(extents[d], strides[d] * size, t);
    }
    assert extents[..|extents|] == extents && strides[..|extents|] == strides;
  }

  lemma HistorySnoc(size: nat, calls: seq<Call>, c: Call)
    requires AllShaped(calls) && WellShaped(c)
    ensures AllShaped(calls + [c])
    ensures Cached(size, calls + [c])
      == if Key(c) in Cached(size, calls) then Cached(size, calls) else Cached(size, calls)[Key(c) := Fresh(size, c)]
    ensures Built(size, calls + [c])
      == Built(size, calls) + if Key(c) in Cached(size, calls) then [] else [Key(c)]
  {
    assert (calls + [c])[..|calls + [c]| - 1] == calls;
  }

  /** The library's constructors of derived types, with a record of the keys types were built for. */
  class TypeLibrary {
    var built: seq<seq<int>>

    constructor ()
      ensures built == []
    {
      built := [];
    }

    method Build(size: nat, c: Call) returns (t: seq<nat>)
      requires WellShaped(c)
      modifies this
      ensures t == Fresh(size, c) && built == old(built) + [Key(c)]
    {
      t := BuildType(size, c.extents, c.strides);
      built := built + [Key(c)];
    }
  }

  class Cache {
    const size: nat
    const lib: TypeLibrary
    var cache: Types
    ghost var calls: seq<Call>

    constructor (size: nat)
      ensures Valid() && calls == [] && this.size == size && fresh(lib) && lib.built == []
    {
      this.size, cache, calls := size, map[], [];
      lib := new TypeLibrary();
    }

    ghost predicate Valid()
      reads this, lib
    {
      AllShaped(calls) && cache == Cached(size, calls) && lib.built == Built(size, calls)
    }

    /** A type is built only for a key the cache does not hold; otherwise nothing but the history changes. */
    method ViewMpiType(c: Call) returns (t: seq<nat>)
      requires Valid() && WellShaped(c)
      modifies this, lib
      ensures Valid() && calls == old(calls) + [c]
      ensures t == Answer(size, old(calls), c)
      ensures Key(c) in old(cache) ==> t == old(cache)[Key(c)] && cache == old(cache) && lib.built == old(lib.built)
      ensures Key(c) !in old(cache) ==>
        t == Fresh(size, c) && cache == old(cache)[Key(c) := t] && lib.built == old(lib.built) + [Key(c)]
    {
      var key := MakeKey(c);
      HistorySnoc(size, calls, c);
      calls := calls + [c];
      if key[..] in cache {
        t := cache[key[..]];
      } else {
        t := lib.Build(size, c);
        cache := cache[key[..] := t];
      }
    }
  }

  // ---------------------------------------------------------------- built at most once

  ghost predicate Asked(calls: seq<Call>, k: seq<int>) {
    exists j :: 0 <= j < |calls| && WellShaped(calls[j]) && Key(calls[j]) == k
  }

  lemma AskedStep(calls: seq<Call>, k: seq<int>)
    requires AllShaped(calls) && calls != []
    ensures Asked(calls, k) <==> Asked(calls[..|calls| - 1], k) || Key(calls[|calls| - 1]) == k
  {
    var front := calls[..|calls| - 1];
    if j :| 0 <= j < |calls| && Key(calls[j]) == k && j < |front| { assert Key(front[j]) == k; }
    if j :| 0 <= j < |front| && WellShaped(front[j]) && Key(front[j]) == k { assert Key(calls[j]) == k; }
  }

  lemma {:induction false} CachedKeys(size: nat, calls: seq<Call>, k: seq<int>)
    requires AllShaped(calls)
    ensures k in Cached(size, calls) <==> Asked(calls, k)
    ensures k in Built(size, calls) <==> Asked(calls, k)
    decreases |calls|
  {
    if calls != [] {
      CachedKeys(size, calls[..|calls| - 1], k);
      AskedStep(calls, k);
    }
  }

  /** However often it is asked for, the type of a key is built exactly once, and none is built unasked. */
  lemma {:induction false} BuiltOnce(size: nat, calls: seq<Call>)
    requires AllShaped(calls)
    ensures Distinct(Built(size, calls))
    ensures forall k :: k in Built(size, calls) <==> Asked(calls, k)
    decreases |calls|
  {
    if calls != [] {
      var front, c := calls[..|calls| - 1], calls[|calls| - 1];
      BuiltOnce(size, front);
      CachedKeys(size, front, Key(c));
    }
    forall k ensures k in Built(size, calls) <==> Asked(calls, k) {
      CachedKeys(size, calls, k);
    }
  }

  // ---------------------------------------------------------------- right types

  lemma NarrowInjective(x: nat, y: nat)
    requires x < TWO_32 && y < TWO_32 && Narrow(x) == Narrow(y)
    ensures x == y
  {}

  /** Within the bound two calls with the same key are the same call. */
  lemma {:induction false} KeyInjective(c: Call, c': Call, rank: nat, bound: nat)
    requires Legal(c, rank, bound) && Legal(c', rank, bound) && bound <= TWO_32 && Key(c) == Key(c')
    ensures c == c'
  {
    forall d | 0 <= d < rank ensures c.extents[d] == c'.extents[d] && c.strides[d] == c'.strides[d] {
      KeyAt(c, d);
      KeyAt(c', d);
      NarrowInjective(c.extents[d], c'.extents[d]);
      NarrowInjective(c.strides[d], c'.strides[d]);
    }
    assert c.extents == c'.extents && c.strides == c'.strides;
  }

  ghost predicate AllLegal(calls: seq<Call>, rank: nat, bound: nat) {
    forall k :: 0 <= k < |calls| ==> Legal(calls[k], rank, bound)
  }

  /** Every answer, after every history of legal calls, is the type a fresh build would give. */
  ghost predicate AlwaysRight(size: nat, rank: nat, bound: nat) {
    forall calls, c | AllLegal(calls, rank, bound) && Legal(c, rank, bound) ::
      AllShaped(calls) && WellShaped(c) && Answer(size, calls, c) == Fresh(size, c)
  }

  /** What the cache holds under a key is right if all calls with that key ask for the same type. */
  lemma {:induction false} CacheAgrees(size: nat, calls: seq<Call>, c: Call)
    requires AllShaped(calls) && WellShaped(c)
    requires forall k :: 0 <= k < |calls| && Key(calls[k]) == Key(c) ==> Fresh(size, calls[k]) == Fresh(size, c)
    ensures Key(c) in Cached(size, calls) ==> Cached(size, calls)[Key(c)] == Fresh(size, c)
    decreases |calls|
  {
    if calls != [] {
      var n := |calls| - 1;
      CacheAgrees(size, calls[..n], c);
    }
  }

  lemma LegalShaped(calls: seq<Call>, rank: nat, bound: nat)
    requires AllLegal(calls, rank, bound)
    ensures AllShaped(calls)
  {
    forall k | 0 <= k < |calls| ensures WellShaped(calls[k]) { assert Legal(calls[k], rank, bound); }
  }

  lemma CachedRight(size: nat, calls: seq<Call>, rank: nat, bound: nat, c: Call)
    requires AllLegal(calls, rank, bound) && Legal(c, rank, bound) && (rank == 0 || bound <= TWO_32)
    ensures AllShaped(calls)
    ensures Key(c) in Cached(size, calls) ==> Cached(size, calls)[Key(c)] == Fresh(size, c)
  {
    LegalShaped(calls, rank, bound);
    var b := if bound <= TWO_32 then bound else 0;
    forall k | 0 <= k < |calls| && Key(calls[k]) == Key(c) ensures Fresh(size, calls[k]) == Fresh(size, c) {
      assert Legal(calls[k], rank, bound);
      KeyInjective(calls[k], c, rank, b);
    }
    CacheAgrees(size, calls, c);
  }

  function Repeat(n: nat, x: nat): (r: seq<nat>)
    ensures |r| == n && forall d :: 0 <= d < n ==> r[d] == x
  {
    if n == 0 then [] else [x] + Repeat(n - 1, x)
  }

  /** Two elements a stride apart, in a view of any rank. */
  function Spread(rank: nat, stride: nat): (c: Call)
    requires rank > 0
    ensures |c.extents| == |c.strides| == rank && c.extents[0] == 2 && c.strides[0] == stride
    ensures forall d :: 0 < d < rank ==> c.extents[d] == c.strides[d] == 1
  {
    Call([2] + Repeat(rank - 1, 1), [stride] + Repeat(rank - 1, 1))
  }

  lemma SpreadKeys(rank: nat, stride: nat)
    requires rank > 0 && stride <= INT_MAX
    ensures WellShaped(Spread(rank, stride)) && WellShaped(Spread(rank, stride + TWO_32))
    ensures Key(Spread(rank, stride)) == Key(Spread(rank, stride + TWO_32))
  {
    var s, t := Spread(rank, stride), Spread(rank, stride + TWO_32);
    forall d | 0 <= d < rank ensures Narrow(s.strides[d]) == Narrow(t.strides[d]) {
      if d > 0 { assert s.strides[d] == t.strides[d]; }
    }
    SameKey(s.extents, s.strides, t.strides);
  }

  lemma SpreadTypes(size: nat, rank: nat, stride: nat)
    requires rank > 0 && size > 0
    ensures Fresh(size, Spread(rank, stride)) != Fresh(size, Spread(rank, stride + TWO_32))
  {
    var s, t := Spread(rank, stride), Spread(rank, stride + TWO_32);
    var i := [1] + Repeat(rank - 1, 0);
    assert forall d :: 0 < d < rank ==> i[d] == Repeat(rank - 1, 0)[d - 1];
    StrideDiffers(size, s.extents, s.strides, t.strides, i);
  }

  /** Strides that are 2^32 apart share a key: the second view is given the type of the first. */
  lemma Collision(size: nat, rank: nat, bound: nat, stride: nat) returns (first: Call, second: Call)
    requires rank > 0 && size > 0 && stride <= INT_MAX && stride + TWO_32 < bound
    ensures Legal(first, rank, bound) && Legal(second, rank, bound) && Key(first) == Key(second)
    ensures first == Spread(rank, stride) && second == Spread(rank, stride + TWO_32)
    ensures Answer(size, [first], second) != Fresh(size, second)
  {
    first, second := Spread(rank, stride), Spread(rank, stride + TWO_32);
    SpreadKeys(rank, stride);
    SpreadTypes(size, rank, stride);
    AnswerAfterOne(size, first, second);
  }

  lemma AnswerAfterOne(size: nat, first: Call, second: Call)
    requires WellShaped(first) && WellShaped(second) && Key(first) == Key(second)
    ensures Answer(size, [first], second) == Fresh(size, first)
  {
    assert [first][..0] == [];
    assert Cached(size, []) == map[];
  }

  lemma {:induction false} SameKey(ext: seq<nat>, s: seq<nat>, t: seq<nat>)
    requires |ext| == |s| == |t|
    requires forall d :: 0 <= d < |s| ==> Narrow(s[d]) == Narrow(t[d])
    requires forall d :: 0 <= d < |s| ==> ext[d] <= INT_MAX
    ensures Key(Call(ext, s)) == Key(Call(ext, t))
    decreases |ext|
  {
    if ext != [] {
      var n := |ext| - 1;
      SameKey(ext[..n], s[..n], t[..n]);
    }
  }

  /** Two types that place some multi-index differently are different. */
  lemma StrideDiffers(size: nat, ext: seq<nat>, s: seq<nat>, t: seq<nat>, i: seq<nat>)
    requires |ext| == |s| == |t| && InBounds(ext, i) && size > 0
    requires |i| > 0 && i[0] == 1 && (forall d :: 0 < d < |i| ==> i[d] == 0) && s[0] != t[0]
    ensures Nested(size, ext, s) != Nested(size, ext, t)
  {
    var k := Position(LayoutLeft, ext, i);
    IndexAtPosition(LayoutLeft, ext, i);
    TypeMap(size, ext, s, k);
    TypeMap(size, ext, t, k);
    StridedView.DotUnit(s, i, 0);
    StridedView.DotUnit(t, i, 0);
    if size * s[0] == size * t[0] { DivMod(size, s[0], 0); DivMod(size, t[0], 0); assert false; }
  }

  /** The cache is right for all histories exactly when no stride reaches 2^32, or there is none. */
  lemma CacheTheorem(size: nat, rank: nat, bound: nat)
    requires size > 0
    ensures AlwaysRight(size, rank, bound) <==> rank == 0 || bound <= TWO_32
  {
    if rank > 0 && bound > TWO_32 {
      var first, second := Collision(size, rank, bound, 0);
      assert AllLegal([first], rank, bound);
    } else {
      forall calls, c | AllLegal(calls, rank, bound) && Legal(c, rank, bound)
        ensures AllShaped(calls) && WellShaped(c) && Answer(size, calls, c) == Fresh(size, c)
      {
        CachedRight(size, calls, rank, bound, c);
      }
    }
  }

  // ---------------------------------------------------------------- views that do not overlap themselves

  ghost predicate Plain(c: Call) {
    WellShaped(c) && StridedView.Injective(StridedView.View(0, c.extents, c.strides))
  }

  ghost predicate AllPlain(calls: seq<Call>) {
    forall k :: 0 <= k < |calls| ==> Plain(calls[k])
  }

  /** Every answer is right as long as no view overlaps itself. */
  ghost predicate PlainRight(size: nat, rank: nat, bound: nat) {
    forall calls, c | AllLegal(calls, rank, bound) && AllPlain(calls) && Legal(c, rank, bound) && Plain(c) ::
      AllShaped(calls) && WellShaped(c) && Answer(size, calls, c) == Fresh(size, c)
  }

  /** Without overlap a dimension of two or more elements has a stride. */
  lemma PlainStride(c: Call, d: nat)
    requires Plain(c) && Product(c.extents) > 0 && d < |c.extents| && c.extents[d] >= 2
    ensures c.strides[d] > 0
  {
    var i, o := StridedView.Unit(|c.extents|, d), Repeat(|c.extents|, 0);
    StridedView.EntriesPositive(c.extents);
    StridedView.DotUnit(c.strides, i, d);
    StridedView.DotZero(c.strides, o);
    assert InBounds(c.extents, i) && InBounds(c.extents, o) && i[d] != o[d];
  }

  /** The stride of a dimension with at most one element does not matter to the type. */
  lemma SameType(size: nat, ext: seq<nat>, s: seq<nat>, t: seq<nat>)
    requires |ext| == |s| == |t|
    requires Product(ext) > 0 ==> forall d :: 0 <= d < |ext| && ext[d] >= 2 ==> s[d] == t[d]
    ensures Nested(size, ext, s) == Nested(size, ext, t)
  {
    TypeMap(size, ext, s, 0);
    TypeMap(size, ext, t, 0);
    forall k | 0 <= k < Product(ext) ensures Nested(size, ext, s)[k] == Nested(size, ext, t)[k] {
      PositionIndexAt(LayoutLeft, ext, k);
      TypeMap(size, ext, s, k);
      TypeMap(size, ext, t, k);
      StridedView.DotAgree(ext, s, t, IndexAt(LayoutLeft, ext, k));
    }
  }

  lemma NarrowNearly(x: nat, y: nat)
    requires 0 < x <= TWO_32 && 0 < y <= TWO_32 && Narrow(x) == Narrow(y)
    ensures x == y
  {}

  /** Up to 2^32 inclusive, two calls with one key ask for one type. */
  lemma PlainKeys(size: nat, c: Call, c': Call, rank: nat, bound: nat)
    requires Legal(c, rank, bound) && Legal(c', rank, bound) && (rank == 0 || bound <= TWO_32 + 1)
    requires Plain(c) && Plain(c') && Key(c) == Key(c')
    ensures Fresh(size, c) == Fresh(size, c')
  {
    forall d | 0 <= d < rank ensures c.extents[d] == c'.extents[d] {
      KeyAt(c, d);
      KeyAt(c', d);
      NarrowInjective(c.extents[d], c'.extents[d]);
    }
    assert c.extents == c'.extents;
    if Product(c.extents) > 0 {
      forall d | 0 <= d < rank && c.extents[d] >= 2 ensures c.strides[d] == c'.strides[d] {
        KeyAt(c, d);
        KeyAt(c', d);
        PlainStride(c, d);
        PlainStride(c', d);
        NarrowNearly(c.strides[d], c'.strides[d]);
      }
    }
    SameType(size, c.extents, c.strides, c'.strides);
  }

  lemma SpreadPlain(rank: nat, stride: nat)
    requires rank > 0 && stride > 0
    ensures Plain(Spread(rank, stride))
  {
    var c := Spread(rank, stride);
    forall i, j | InBounds(c.extents, i) && InBounds(c.extents, j) && Dot(c.strides, i) == Dot(c.strides, j)
      ensures i == j
    {
      SpreadDot(c, i);
      SpreadDot(c, j);
      assert forall d :: 0 < d < rank ==> i[d] == 0 == j[d];
    }
  }

  lemma SpreadDot(c: Call, i: seq<nat>)
    requires |c.extents| == |c.strides| > 0 && c.extents[0] == 2 && InBounds(c.extents, i)
    requires forall d :: 0 < d < |c.extents| ==> c.extents[d] == 1
    ensures Dot(c.strides, i) == if i[0] == 1 then c.strides[0] else 0
    ensures forall d :: 0 < d < |i| ==> i[d] == 0
  {
    forall d | 0 < d < |i| ensures i[d] == 0 { assert i[d] < c.extents[d]; }
    assert i[0] < c.extents[0];
    if i[0] == 1 { StridedView.DotUnit(c.strides, i, 0); } else { StridedView.DotZero(c.strides, i); }
  }

  /** For views that do not overlap themselves the cache is right exactly up to strides of 2^32. */
  lemma PlainCacheTheorem(size: nat, rank: nat, bound: nat)
    requires size > 0
    ensures PlainRight(size, rank, bound) <==> rank == 0 || bound <= TWO_32 + 1
  {
    if rank > 0 && bound > TWO_32 + 1 {
      var first, second := Collision(size, rank, bound, 1);
      SpreadPlain(rank, 1);
      SpreadPlain(rank, 1 + TWO_32);
      assert AllLegal([first], rank, bound) && AllPlain([first]);
    } else {
      forall calls, c | AllLegal(calls, rank, bound) && AllPlain(calls) && Legal(c, rank, bound) && Plain(c)
        ensures AllShaped(calls) && WellShaped(c) && Answer(size, calls, c) == Fresh(size, c)
      {
        LegalShaped(calls, rank, bound);
        forall k | 0 <= k < |calls| && Key(calls[k]) == Key(c) ensures Fresh(size, calls[k]) == Fresh(size, c) {
          assert Legal(calls[k], rank, bound) && Plain(calls[k]);
          PlainKeys(size, calls[k], c, rank, bound);
        }
        CacheAgrees(size, calls, c);
      }
    }
  }
}
