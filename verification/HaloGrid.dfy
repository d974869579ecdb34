/**
 The grid of the 2D halo exchange: its cells, the subviews each rank sends and receives,
 and the periodic torus of ranks.
 Slots 0..3 are the directions: slot k is sent to ToRank and its ghost cells are filled from FromRank.
 */
module HaloGrid {
  import opened MixedRadix
  import opened StridedView

  datatype Grid = Grid(nx: nat, ny: nat, nprops: nat)

  ghost predicate ValidGrid(g: Grid) {
    g.nx >= 1 && g.ny >= 1
  }

  function Cell(g: Grid, x: nat, y: nat, p: nat): nat {
    (x * (g.ny + 2) + y) * g.nprops + p
  }

  function Total(g: Grid): nat {
    (g.nx + 2) * (g.ny + 2) * g.nprops
  }

  /** Two digits of one base are those of their number. */
  lemma SamePair(base: nat, q: nat, r: nat, q': nat, r': nat)
    requires r < base && r' < base && q * base + r == q' * base + r'
    ensures q == q' && r == r'
  {
    MulComm(q, base);
    MulComm(q', base);
    DivModUnique(base, q, r, q', r');
  }

  lemma CellInjective(g: Grid, x: nat, y: nat, p: nat, x': nat, y': nat, p': nat)
    requires y < g.ny + 2 && y' < g.ny + 2 && p < g.nprops && p' < g.nprops
    requires Cell(g, x, y, p) == Cell(g, x', y', p')
    ensures x == x' && y == y' && p == p'
  {
    SamePair(g.nprops, x * (g.ny + 2) + y, p, x' * (g.ny + 2) + y', p');
    SamePair(g.ny + 2, x, y, x', y');
  }

  lemma CellBound(g: Grid, x: nat, y: nat, p: nat)
    requires x < g.nx + 2 && y < g.ny + 2 && p < g.nprops
    ensures Cell(g, x, y, p) < Total(g)
  {
    var q, w := x * (g.ny + 2) + y, (g.nx + 2) * (g.ny + 2);
    MulStep(g.ny + 2, x, g.nx + 2);
    assert (g.ny + 2) * x == x * (g.ny + 2) && (g.ny + 2) * (g.nx + 2) == w;
    MulStep(g.nprops, q, w);
    assert g.nprops * q == q * g.nprops && g.nprops * w == w * g.nprops;
  }

  // ---------------------------------------------------------------- subviews

  /** How many grid points a slot exchanges. */
  function Length(g: Grid, k: nat): nat {
    if k < 2 then g.ny else g.nx
  }

  /** The boundary point (x, y) that slot k sends for its t-th point. */
  function SendPoint(g: Grid, k: nat, t: nat): (nat, nat) {
    if k == 0 then (g.nx, 1 + t)
    else if k == 1 then (1, 1 + t)
    else if k == 2 then (1 + t, g.ny)
    else (1 + t, 1)
  }

  /** The ghost point that slot k receives. */
  function RecvPoint(g: Grid, k: nat, t: nat): (nat, nat) {
    if k == 0 then (0, 1 + t)
    else if k == 1 then (g.nx + 1, 1 + t)
    else if k == 2 then (1 + t, 0)
    else (1 + t, g.ny + 1)
  }

  function SubView(g: Grid, k: nat, first: (nat, nat)): View {
    View(Cell(g, first.0, first.1, 0), [Length(g, k), g.nprops],
         [if k < 2 then g.nprops else (g.ny + 2) * g.nprops, 1])
  }

  function SendView(g: Grid, k: nat): View {
    SubView(g, k, SendPoint(g, k, 0))
  }

  function RecvView(g: Grid, k: nat): View {
    SubView(g, k, RecvPoint(g, k, 0))
  }

  lemma DotTwo(s: seq<nat>, i: seq<nat>)
    requires |s| == |i| == 2
    ensures Dot(s, i) == s[0] * i[0] + s[1] * i[1]
  {
    assert Dot(s[1..], i[1..]) == s[1] * i[1] + Dot(s[1..][1..], i[1..][1..]);
  }

  lemma SubViewAddr(g: Grid, k: nat, first: (nat, nat), i: seq<nat>)
    requires InBounds(SubView(g, k, first).extents, i)
    ensures Addr(SubView(g, k, first), i) ==
      if k < 2 then Cell(g, first.0, first.1 + i[0], i[1]) else Cell(g, first.0 + i[0], first.1, i[1])
  {
    var v, t, n := SubView(g, k, first), i[0], g.nprops;
    DotTwo(v.strides, i);
    if k < 2 {
      var q := first.0 * (g.ny + 2) + first.1;
      assert (q + t) * n == q * n + n * t;
    } else {
      var w := g.ny + 2;
      var q := first.0 * w + first.1;
      assert (first.0 + t) * w + first.1 == q + t * w;
      assert (q + t * w) * n == q * n + (t * w) * n;
      assert (t * w) * n == (w * n) * t;
    }
  }

  lemma SendAddr(g: Grid, k: nat, i: seq<nat>)
    requires InBounds(SendView(g, k).extents, i)
    ensures i[0] < Length(g, k) && i[1] < g.nprops
    ensures var pt := SendPoint(g, k, i[0]); Addr(SendView(g, k), i) == Cell(g, pt.0, pt.1, i[1])
  {
    SubViewAddr(g, k, SendPoint(g, k, 0), i);
  }

  lemma RecvAddr(g: Grid, k: nat, i: seq<nat>)
    requires InBounds(RecvView(g, k).extents, i)
    ensures i[0] < Length(g, k) && i[1] < g.nprops
    ensures var pt := RecvPoint(g, k, i[0]); Addr(RecvView(g, k), i) == Cell(g, pt.0, pt.1, i[1])
  {
    SubViewAddr(g, k, RecvPoint(g, k, 0), i);
  }

  lemma SubViewApart(g: Grid, k: nat, first: (nat, nat), i: seq<nat>, j: seq<nat>)
    requires if k < 2 then first.1 + g.ny <= g.ny + 2 else first.1 < g.ny + 2
    requires InBounds(SubView(g, k, first).extents, i) && InBounds(SubView(g, k, first).extents, j)
    requires Addr(SubView(g, k, first), i) == Addr(SubView(g, k, first), j)
    ensures i == j
  {
    SubViewAddr(g, k, first, i);
    SubViewAddr(g, k, first, j);
    if k < 2 {
      CellInjective(g, first.0, first.1 + i[0], i[1], first.0, first.1 + j[0], j[1]);
    } else {
      CellInjective(g, first.0 + i[0], first.1, i[1], first.0 + j[0], first.1, j[1]);
    }
  }

  lemma SubViewFits(g: Grid, k: nat, first: (nat, nat))
    requires ValidGrid(g)
    requires if k < 2 then first.0 < g.nx + 2 && first.1 + g.ny <= g.ny + 2
             else first.0 + g.nx <= g.nx + 2 && first.1 < g.ny + 2
    ensures Fits(SubView(g, k, first), Total(g))
  {
    var v := SubView(g, k, first);
    if Size(v) == 0 {
      SizeTwo(v.extents);
      assert g.nprops == 0;
    } else {
      var l := LastIndex(v.extents);
      LastOffset(v.extents, v.strides);
      SubViewAddr(g, k, first, l);
      if k < 2 {
        CellBound(g, first.0, first.1 + l[0], l[1]);
      } else {
        CellBound(g, first.0 + l[0], first.1, l[1]);
      }
    }
  }

  lemma SubViewInjective(g: Grid, k: nat, first: (nat, nat))
    requires if k < 2 then first.1 + g.ny <= g.ny + 2 else first.1 < g.ny + 2
    ensures Injective(SubView(g, k, first))
  {
    var v := SubView(g, k, first);
    forall i, j | InBounds(v.extents, i) && InBounds(v.extents, j) && Dot(v.strides, i) == Dot(v.strides, j)
      ensures i == j
    {
      SubViewApart(g, k, first, i, j);
    }
  }

  lemma SizeTwo(ext: seq<nat>)
    requires |ext| == 2
    ensures Product(ext) == ext[0] * ext[1]
  {
    assert Product(ext[1..]) == ext[1] * Product(ext[1..][1..]);
  }

  lemma ViewsFit(g: Grid, k: nat)
    requires ValidGrid(g)
    ensures Fits(SendView(g, k), Total(g)) && Injective(SendView(g, k))
    ensures Fits(RecvView(g, k), Total(g)) && Injective(RecvView(g, k))
    ensures SendView(g, k).extents == RecvView(g, k).extents
    ensures Size(SendView(g, k)) == Size(RecvView(g, k))
    ensures Contiguous(SendView(g, k)) == Contiguous(RecvView(g, k))
    ensures forall layout: Layout :: SameWireOrder(SendView(g, k), layout, RecvView(g, k), layout)
  {
    SubViewFits(g, k, SendPoint(g, k, 0));
    SubViewFits(g, k, RecvPoint(g, k, 0));
    SubViewInjective(g, k, SendPoint(g, k, 0));
    SubViewInjective(g, k, RecvPoint(g, k, 0));
  }

  /** A ghost cell belongs to one slot only, and is never a cell that is sent. */
  lemma GhostsDisjoint(g: Grid, k: nat, i: seq<nat>, l: nat, j: seq<nat>)
    requires ValidGrid(g) && k < 4 && l < 4
    requires InBounds(RecvView(g, k).extents, i)
    ensures InBounds(RecvView(g, l).extents, j) && k != l ==> Addr(RecvView(g, k), i) != Addr(RecvView(g, l), j)
    ensures InBounds(SendView(g, l).extents, j) ==> Addr(RecvView(g, k), i) != Addr(SendView(g, l), j)
  {
    RecvAddr(g, k, i);
    var a := RecvPoint(g, k, i[0]);
    if InBounds(RecvView(g, l).extents, j) && k != l {
      RecvAddr(g, l, j);
      var b := RecvPoint(g, l, j[0]);
      if Addr(RecvView(g, k), i) == Addr(RecvView(g, l), j) {
        CellInjective(g, a.0, a.1, i[1], b.0, b.1, j[1]);
        assert false;
      }
    }
    if InBounds(SendView(g, l).extents, j) {
      SendAddr(g, l, j);
      var b := SendPoint(g, l, j[0]);
      if Addr(RecvView(g, k), i) == Addr(SendView(g, l), j) {
        CellInjective(g, a.0, a.1, i[1], b.0, b.1, j[1]);
        assert false;
      }
    }
  }

  // ---------------------------------------------------------------- torus

  function RankAt(rs: nat, x: nat, y: nat): nat {
    y * rs + x
  }

  function Plus(rs: nat, a: nat): nat
    requires rs > 0
  {
    (a + 1) % rs
  }

  function Minus(rs: nat, a: nat): nat
    requires rs > 0
  {
    (a + rs - 1) % rs
  }

  /** The rank to which slot k of a rank is sent. */
  function ToRank(rs: nat, k: nat, r: nat): nat
    requires rs > 0
  {
    var rx, ry := r % rs, r / rs;
    if k == 0 then RankAt(rs, Plus(rs, rx), ry)
    else if k == 1 then RankAt(rs, Minus(rs, rx), ry)
    else if k == 2 then RankAt(rs, rx, Plus(rs, ry))
    else RankAt(rs, rx, Minus(rs, ry))
  }

  /** The rank from which slot k of a rank is filled. */
  function FromRank(rs: nat, k: nat, r: nat): nat
    requires rs > 0
  {
    var rx, ry := r % rs, r / rs;
    if k == 0 then RankAt(rs, Minus(rs, rx), ry)
    else if k == 1 then RankAt(rs, Plus(rs, rx), ry)
    else if k == 2 then RankAt(rs, rx, Minus(rs, ry))
    else RankAt(rs, rx, Plus(rs, ry))
  }

  lemma PlusMinus(rs: nat, a: nat)
    requires a < rs
    ensures Plus(rs, a) == (if a + 1 == rs then 0 else a + 1)
    ensures Minus(rs, a) == (if a == 0 then rs - 1 else a - 1)
    ensures Plus(rs, Minus(rs, a)) == a && Minus(rs, Plus(rs, a)) == a
  {
    ModSmall(rs, a + 1);
    ModSmall(rs, a + rs - 1);
    ModSmall(rs, Minus(rs, a) + 1);
    ModSmall(rs, Plus(rs, a) + rs - 1);
  }

  lemma ModSmall(rs: nat, b: nat)
    requires rs > 0 && b < 2 * rs
    ensures b % rs == if b < rs then b else b - rs
  {
    if b < rs { DivMod(rs, 0, b); } else { DivMod(rs, 1, b - rs); }
  }

  lemma RankAtParts(rs: nat, x: nat, y: nat)
    requires x < rs && y < rs
    ensures RankAt(rs, x, y) < rs * rs
    ensures RankAt(rs, x, y) % rs == x && RankAt(rs, x, y) / rs == y
  {
    MulStep(rs, y, rs);
    assert rs * y == y * rs;
    DivMod(rs, y, x);
  }

  lemma TorusAt(rs: nat, k: nat, r: nat, x: nat, y: nat)
    requires x < rs && y < rs && r == RankAt(rs, x, y) && r % rs == x && r / rs == y && k < 4
    ensures ToRank(rs, k, r) < rs * rs && FromRank(rs, k, r) < rs * rs
    ensures FromRank(rs, k, ToRank(rs, k, r)) == r && ToRank(rs, k, FromRank(rs, k, r)) == r
  {
    if k < 2 {
      PlusMinus(rs, x);
      RankAtParts(rs, Plus(rs, x), y);
      RankAtParts(rs, Minus(rs, x), y);
    } else {
      PlusMinus(rs, y);
      RankAtParts(rs, x, Plus(rs, y));
      RankAtParts(rs, x, Minus(rs, y));
    }
  }

  /** ToRank and FromRank undo each other: slot k sent by a arrives at b exactly when b fills slot k from a. */
  lemma Torus(rs: nat, k: nat, r: nat)
    requires rs > 0 && r < rs * rs && k < 4
    ensures ToRank(rs, k, r) < rs * rs && FromRank(rs, k, r) < rs * rs
    ensures FromRank(rs, k, ToRank(rs, k, r)) == r && ToRank(rs, k, FromRank(rs, k, r)) == r
  {
    DivBound(r, rs, rs);
    MulComm(rs, r / rs);
    TorusAt(rs, k, r, r % rs, r / rs);
  }

  /**
   The rank at (rx, ry) of the torus: slot 0 goes one to the right and is filled from the left, slot 1
   the other way round; slot 2 goes one up and is filled from below, slot 3 the other way round.
   */
  lemma NeighbourRanks(rs: nat, rx: nat, ry: nat, r: nat)
    requires rx < rs && ry < rs && r == ry * rs + rx
    ensures r < rs * rs && r % rs == rx && r / rs == ry
    ensures ToRank(rs, 0, r) == FromRank(rs, 1, r) == ry * rs + (rx + 1) % rs
    ensures ToRank(rs, 1, r) == FromRank(rs, 0, r) == ry * rs + (rx + rs - 1) % rs
    ensures ToRank(rs, 2, r) == FromRank(rs, 3, r) == (ry + 1) % rs * rs + rx
    ensures ToRank(rs, 3, r) == FromRank(rs, 2, r) == (ry + rs - 1) % rs * rs + rx
  {
    RankAtParts(rs, rx, ry);
  }

  lemma RowMajor(e: nat, f: nat, x: nat, y: nat, p: nat)
    ensures e * f * x + (f * y + p) == (x * e + y) * f + p
  {
    assert e * f * x == (x * e) * f;
    assert (x * e + y) * f == (x * e) * f + y * f;
  }

  lemma PositionThree(a: nat, b: nat, c: nat, x: nat, y: nat, p: nat)
    requires x < a && y < b && p < c
    ensures InBounds([a, b, c], [x, y, p])
    ensures Position(LayoutRight, [a, b, c], [x, y, p]) == b * c * x + (c * y + p)
  {
    var ext, i := [a, b, c], [x, y, p];
    assert ext[1..] == [b, c] && i[1..] == [y, p];
    assert [b, c][1..] == [c] && [y, p][1..] == [p];
    assert [c][1..] == [] && [p][1..] == [];
    SizeTwo([b, c]);
    assert Product([c]) == c && Position(LayoutRight, [c], [p]) == p;
    assert Position(LayoutRight, [b, c], [y, p]) == c * y + p;
  }

  /** Cells lie in the grid as LayoutRight has them: x slowest, then y, the properties fastest. */
  lemma CellPosition(g: Grid, x: nat, y: nat, p: nat)
    requires x < g.nx + 2 && y < g.ny + 2 && p < g.nprops
    ensures InBounds([g.nx + 2, g.ny + 2, g.nprops], [x, y, p])
    ensures Cell(g, x, y, p) == Position(LayoutRight, [g.nx + 2, g.ny + 2, g.nprops], [x, y, p])
  {
    PositionThree(g.nx + 2, g.ny + 2, g.nprops, x, y, p);
    RowMajor(g.ny + 2, g.nprops, x, y, p);
  }
}
