/** The periodic 2D halo exchange: the neighbour exchange on a torus of rs * rs ranks. */
module Halo {
  import opened MixedRadix
  import opened StridedView
  import opened HaloGrid
  import X = NeighbourExchange
  import opened ExchangeDelivery
  import opened Network
  import P = ExchangeProgress

  datatype Halo = Halo(grid: Grid, rs: nat, layout: Layout, sync: bool, init: seq<seq<int>>)

  ghost predicate ValidHalo(h: Halo) {
    && ValidGrid(h.grid) && h.rs >= 1 && |h.init| == h.rs * h.rs
    && forall r :: 0 <= r < |h.init| ==> |h.init[r]| == Total(h.grid)
  }

  function StartWire(h: Halo, k: nat, r: nat): seq<int> {
    if r < |h.init| && Fits(SendView(h.grid, k), |h.init[r]|)
    then WireOf(h.init[r], SendView(h.grid, k), h.layout)
    else []
  }

  function ToRanks(rs: nat, k: nat, n: nat): (s: seq<nat>)
    requires rs >= 1
    ensures |s| == n && forall r :: 0 <= r < n ==> s[r] == ToRank(rs, k, r)
  {
    if n == 0 then [] else ToRanks(rs, k, n - 1) + [ToRank(rs, k, n - 1)]
  }

  function FromRanks(rs: nat, k: nat, n: nat): (s: seq<nat>)
    requires rs >= 1
    ensures |s| == n && forall r :: 0 <= r < n ==> s[r] == FromRank(rs, k, r)
  {
    if n == 0 then [] else FromRanks(rs, k, n - 1) + [FromRank(rs, k, n - 1)]
  }

  function StartWires(h: Halo, k: nat, n: nat): (s: seq<seq<int>>)
    ensures |s| == n && forall r :: 0 <= r < n ==> s[r] == StartWire(h, k, r)
  {
    if n == 0 then [] else StartWires(h, k, n - 1) + [StartWire(h, k, n - 1)]
  }

  /** The exchange that send_recv sets up: four directions, in the order of its pushes. */
  function Setup(h: Halo): X.Config
    requires h.rs >= 1
  {
    var g, rs, n := h.grid, h.rs, |h.init|;
    var send := [SendView(g, 0), SendView(g, 1), SendView(g, 2), SendView(g, 3)];
    var recv := [RecvView(g, 0), RecvView(g, 1), RecvView(g, 2), RecvView(g, 3)];
    X.Config(
      send, recv,
      [Contiguous(send[0]), Contiguous(send[1]), Contiguous(send[2]), Contiguous(send[3])],
      [Contiguous(recv[0]), Contiguous(recv[1]), Contiguous(recv[2]), Contiguous(recv[3])],
      [ToRanks(rs, 0, n), ToRanks(rs, 1, n), ToRanks(rs, 2, n), ToRanks(rs, 3, n)],
      [FromRanks(rs, 0, n), FromRanks(rs, 1, n), FromRanks(rs, 2, n), FromRanks(rs, 3, n)],
      h.layout, h.sync, Total(g), h.init,
      [StartWires(h, 0, n), StartWires(h, 1, n), StartWires(h, 2, n), StartWires(h, 3, n)])
  }

  lemma SetupViews(h: Halo, k: nat)
    requires ValidHalo(h) && k < 4
    ensures X.ValidViews(Setup(h), k)
  {
    ViewsFit(h.grid, k);
  }

  lemma SetupRoute(h: Halo, k: nat, r: nat)
    requires ValidHalo(h) && k < 4 && r < |h.init|
    ensures X.Dest(Setup(h), k, r) == ToRank(h.rs, k, r) && X.Source(Setup(h), k, r) == FromRank(h.rs, k, r)
  {}

  lemma SetupRoutes(h: Halo, k: nat, r: nat)
    requires ValidHalo(h) && k < 4 && r < |h.init|
    ensures X.ValidRoute(Setup(h), k, r) && X.ValidStart(Setup(h), k, r)
  {
    Torus(h.rs, k, r);
    SetupRoute(h, k, r);
    SetupRoute(h, k, ToRank(h.rs, k, r));
    SetupRoute(h, k, FromRank(h.rs, k, r));
  }

  lemma SetupApart(h: Halo, k: nat, l: nat)
    requires ValidHalo(h) && k < 4 && l < 4
    ensures X.Apart(RecvView(h.grid, k), SendView(h.grid, l))
    ensures k != l ==> X.Apart(RecvView(h.grid, k), RecvView(h.grid, l))
  {
    var v, w, u := RecvView(h.grid, k), SendView(h.grid, l), RecvView(h.grid, l);
    forall i, j | InBounds(v.extents, i) && InBounds(w.extents, j) ensures Addr(v, i) != Addr(w, j) {
      GhostsDisjoint(h.grid, k, i, l, j);
    }
    if k != l {
      forall i, j | InBounds(v.extents, i) && InBounds(u.extents, j) ensures Addr(v, i) != Addr(u, j) {
        GhostsDisjoint(h.grid, k, i, l, j);
      }
    }
  }

  lemma SetupSlots(h: Halo, k: nat)
    requires h.rs >= 1 && k < 4
    ensures Setup(h).send[k] == SendView(h.grid, k) && Setup(h).recv[k] == RecvView(h.grid, k)
  {}

  lemma SetupAparts(h: Halo, k: nat, l: nat)
    requires ValidHalo(h) && k < 4 && l < 4
    ensures X.Apart(Setup(h).recv[k], Setup(h).send[l]) && (k != l ==> X.Apart(Setup(h).recv[k], Setup(h).recv[l]))
  {
    SetupSlots(h, k);
    SetupSlots(h, l);
    SetupApart(h, k, l);
  }

  lemma SetupShape(h: Halo)
    requires ValidHalo(h)
    ensures var c := Setup(h);
      && |c.recv| == |c.dest| == |c.source| == X.Slots(c) == 4
      && X.Ranks(c) == |h.init| && forall r :: 0 <= r < X.Ranks(c) ==> |c.init[r]| == c.total
  {}

  lemma SetupAllRoutes(h: Halo)
    requires ValidHalo(h)
    ensures var c := Setup(h);
      forall k, r :: 0 <= k < X.Slots(c) && 0 <= r < X.Ranks(c) ==> X.ValidRoute(c, k, r) && X.ValidStart(c, k, r)
  {
    SetupShape(h);
    forall k, r | 0 <= k < X.Slots(Setup(h)) && 0 <= r < X.Ranks(Setup(h))
      ensures X.ValidRoute(Setup(h), k, r) && X.ValidStart(Setup(h), k, r)
    {
      SetupRoutes(h, k, r);
    }
  }

  lemma SetupAllViews(h: Halo)
    requires ValidHalo(h)
    ensures forall k :: 0 <= k < X.Slots(Setup(h)) ==> X.ValidViews(Setup(h), k)
  {
    SetupShape(h);
    forall k | 0 <= k < X.Slots(Setup(h)) ensures X.ValidViews(Setup(h), k) { SetupViews(h, k); }
  }

  lemma SetupAllApart(h: Halo)
    requires ValidHalo(h)
    ensures |Setup(h).recv| == X.Slots(Setup(h))
    ensures var c := Setup(h);
      forall k, l :: 0 <= k < X.Slots(c) && 0 <= l < X.Slots(c) ==>
        X.Apart(c.recv[k], c.send[l]) && (k != l ==> X.Apart(c.recv[k], c.recv[l]))
  {
    SetupShape(h);
    var c := Setup(h);
    forall k, l | 0 <= k < X.Slots(c) && 0 <= l < X.Slots(c)
      ensures X.Apart(c.recv[k], c.send[l]) && (k != l ==> X.Apart(c.recv[k], c.recv[l]))
    {
      SetupAparts(h, k, l);
    }
  }

  /** The halo exchange is a valid neighbour exchange for every torus side and grid size. */
  lemma SetupValid(h: Halo)
    requires ValidHalo(h)
    ensures X.ValidConfig(Setup(h))
  {
    SetupShape(h);
    SetupAllRoutes(h);
    SetupAllViews(h);
    SetupAllApart(h);
  }

  /** The pushes of the rank at (rx, ry): four sends, then the four receives that fill their slots. */
  method PushRequests(rs: nat, rx: nat, ry: nat) returns (reqs: seq<Op>)
    requires rx < rs && ry < rs
    ensures reqs == [
      Send(ry * rs + (rx + 1) % rs, X.TAG), Send(ry * rs + (rx + rs - 1) % rs, X.TAG),
      Send((ry + 1) % rs * rs + rx, X.TAG), Send((ry + rs - 1) % rs * rs + rx, X.TAG),
      Recv(ry * rs + (rx + rs - 1) % rs, X.TAG), Recv(ry * rs + (rx + 1) % rs, X.TAG),
      Recv((ry + rs - 1) % rs * rs + rx, X.TAG), Recv((ry + 1) % rs * rs + rx, X.TAG)]
  {
    var xm1, ym1 := (rx + rs - 1) % rs, (ry + rs - 1) % rs;
    var xp1, yp1 := (rx + 1) % rs, (ry + 1) % rs;
    reqs := [];
    reqs := reqs + [Send(RankAt(rs, xp1, ry), X.TAG)];
    reqs := reqs + [Send(RankAt(rs, xm1, ry), X.TAG)];
    reqs := reqs + [Send(RankAt(rs, rx, yp1), X.TAG)];
    reqs := reqs + [Send(RankAt(rs, rx, ym1), X.TAG)];
    reqs := reqs + [Recv(RankAt(rs, xm1, ry), X.TAG)];
    reqs := reqs + [Recv(RankAt(rs, xp1, ry), X.TAG)];
    reqs := reqs + [Recv(RankAt(rs, rx, ym1), X.TAG)];
    reqs := reqs + [Recv(RankAt(rs, rx, yp1), X.TAG)];
  }

  lemma PushedOp(h: Halo, rank: nat, k: nat)
    requires ValidHalo(h) && rank < |h.init| && k < 8
    ensures X.OpAt(Setup(h), rank, k)
      == if k < 4 then Send(ToRank(h.rs, k, rank), X.TAG) else Recv(FromRank(h.rs, k - 4, rank), X.TAG)
  {
    SetupRoute(h, if k < 4 then k else k - 4, rank);
  }

  /** The requests a rank pushes, in order, are the program the state machine runs for it. */
  method SendRecv(h: Halo, rx: nat, ry: nat, ghost rank: nat) returns (reqs: seq<Op>)
    requires ValidHalo(h) && rx < h.rs && ry < h.rs && rank == ry * h.rs + rx
    ensures reqs == X.Program(Setup(h), rank)
  {
    reqs := PushRequests(h.rs, rx, ry);
    NeighbourRanks(h.rs, rx, ry, rank);
    ProgramIs(h, rank, reqs);
  }

  lemma ProgramIs(h: Halo, rank: nat, ops: seq<Op>)
    requires ValidHalo(h) && rank < |h.init|
    requires ops == [
      Send(ToRank(h.rs, 0, rank), X.TAG), Send(ToRank(h.rs, 1, rank), X.TAG),
      Send(ToRank(h.rs, 2, rank), X.TAG), Send(ToRank(h.rs, 3, rank), X.TAG),
      Recv(FromRank(h.rs, 0, rank), X.TAG), Recv(FromRank(h.rs, 1, rank), X.TAG),
      Recv(FromRank(h.rs, 2, rank), X.TAG), Recv(FromRank(h.rs, 3, rank), X.TAG)]
    ensures ops == X.Program(Setup(h), rank)
  {
    forall k | 0 <= k < 8 ensures ops[k] == X.OpAt(Setup(h), rank, k) {
      PushedOp(h, rank, k);
    }
  }

  /** The cell (x, y, p) of rank r is what (x', y', p) of rank q was at the start. */
  ghost predicate SameCell(h: Halo, s: X.State, r: nat, x: nat, y: nat, q: nat, x': nat, y': nat, p: nat) {
    && r < |s.grids| && q < |h.init|
    && Cell(h.grid, x, y, p) < |s.grids[r]| && Cell(h.grid, x', y', p) < |h.init[q]|
    && s.grids[r][Cell(h.grid, x, y, p)] == h.init[q][Cell(h.grid, x', y', p)]
  }

  lemma NotGhostCell(g: Grid, x: nat, y: nat, p: nat, k: nat, i: seq<nat>)
    requires ValidGrid(g) && x < g.nx + 2 && y < g.ny + 2 && p < g.nprops && k < 4
    requires (1 <= x <= g.nx && 1 <= y <= g.ny) || ((x == 0 || x == g.nx + 1) && (y == 0 || y == g.ny + 1))
    requires InBounds(RecvView(g, k).extents, i)
    ensures Addr(RecvView(g, k), i) != Cell(g, x, y, p)
  {
    RecvAddr(g, k, i);
    var pt := RecvPoint(g, k, i[0]);
    if Addr(RecvView(g, k), i) == Cell(g, x, y, p) {
      CellInjective(g, pt.0, pt.1, i[1], x, y, p);
      assert false;
    }
  }

  /** The interior and the corners are unchanged, at any time of any run. */
  lemma HaloFrame(h: Halo, steps: seq<X.Step>, s: X.State, r: nat, x: nat, y: nat, p: nat)
    requires ValidHalo(h) && X.Reaches(Setup(h), steps, s) && r < |h.init|
    requires x < h.grid.nx + 2 && y < h.grid.ny + 2 && p < h.grid.nprops
    requires (1 <= x <= h.grid.nx && 1 <= y <= h.grid.ny)
             || ((x == 0 || x == h.grid.nx + 1) && (y == 0 || y == h.grid.ny + 1))
    ensures SameCell(h, s, r, x, y, r, x, y, p)
  {
    SetupValid(h);
    var a := Cell(h.grid, x, y, p);
    CellBound(h.grid, x, y, p);
    forall k | 0 <= k < 4 ensures !X.IsReceived(Setup(h), k, a) {
      SetupSlots(h, k);
      forall i | InBounds(RecvView(h.grid, k).extents, i) ensures Addr(RecvView(h.grid, k), i) != a {
        NotGhostCell(h.grid, x, y, p, k, i);
      }
    }
    ExchangeFrame(Setup(h), steps, s, r, a);
  }

  /** All four slots of rank r are filled. */
  ghost predicate Returned(h: Halo, s: X.State, r: nat)
    requires ValidHalo(h)
  {
    X.ValidConfig(Setup(h)) && r < |h.init| && r < |s.grids| && AllFilled(Setup(h), r, s.grids[r])
  }

  /** Point t of slot k of rank r holds what the rank it is filled from had in point t of its slot k. */
  ghost predicate PointDelivered(h: Halo, s: X.State, r: nat, k: nat, t: nat, p: nat)
    requires h.rs >= 1
  {
    var to, from := RecvPoint(h.grid, k, t), SendPoint(h.grid, k, t);
    SameCell(h, s, r, to.0, to.1, FromRank(h.rs, k, r), from.0, from.1, p)
  }

  lemma PointOfSlot(h: Halo, s: X.State, r: nat, k: nat, t: nat, p: nat)
    requires ValidHalo(h) && Returned(h, s, r) && k < 4 && t < Length(h.grid, k) && p < h.grid.nprops
    ensures PointDelivered(h, s, r, k, t, p)
  {
    var i := [t, p];
    SetupSlots(h, k);
    SetupRoute(h, k, r);
    SetupRoutes(h, k, r);
    assert X.Filled(Setup(h), r, k, s.grids[r]);
    assert InBounds(RecvView(h.grid, k).extents, i);
    RecvAddr(h.grid, k, i);
    SendAddr(h.grid, k, i);
  }

  /** All points of all four slots have arrived. */
  ghost predicate AllPoints(h: Halo, s: X.State, r: nat)
    requires h.rs >= 1
  {
    forall k: nat, t: nat, p: nat :: k < 4 && t < Length(h.grid, k) && p < h.grid.nprops ==>
      PointDelivered(h, s, r, k, t, p)
  }

  lemma PointsOfSlots(h: Halo, s: X.State, r: nat)
    requires ValidHalo(h) && Returned(h, s, r)
    ensures AllPoints(h, s, r)
  {
    forall k: nat, t: nat, p: nat | k < 4 && t < Length(h.grid, k) && p < h.grid.nprops
      ensures PointDelivered(h, s, r, k, t, p)
    {
      PointOfSlot(h, s, r, k, t, p);
    }
  }

  /** In every interleaving, once a rank's wait_all has returned, every point of every slot has arrived. */
  lemma HaloReturned(h: Halo, steps: seq<X.Step>, s: X.State, r: nat)
    requires ValidHalo(h) && X.Reaches(Setup(h), steps, s) && r in s.returned
    ensures AllPoints(h, s, r)
  {
    SetupValid(h);
    AllDelivered(Setup(h), steps, s, r);
    PointsOfSlots(h, s, r);
  }

  lemma PointIs(h: Halo, s: X.State, r: nat, k: nat, t: nat, p: nat, x: nat, y: nat, x': nat, y': nat)
    requires h.rs >= 1 && PointDelivered(h, s, r, k, t, p)
    requires RecvPoint(h.grid, k, t) == (x, y) && SendPoint(h.grid, k, t) == (x', y')
    ensures SameCell(h, s, r, x, y, FromRank(h.rs, k, r), x', y', p)
  {}

  lemma Columns(h: Halo, s: X.State, r: nat, y: nat, p: nat)
    requires h.rs >= 1 && AllPoints(h, s, r) && 1 <= y <= h.grid.ny && p < h.grid.nprops
    ensures SameCell(h, s, r, 0, y, FromRank(h.rs, 0, r), h.grid.nx, y, p)
    ensures SameCell(h, s, r, h.grid.nx + 1, y, FromRank(h.rs, 1, r), 1, y, p)
  {
    PointIs(h, s, r, 0, y - 1, p, 0, y, h.grid.nx, y);
    PointIs(h, s, r, 1, y - 1, p, h.grid.nx + 1, y, 1, y);
  }

  lemma Rows(h: Halo, s: X.State, r: nat, x: nat, p: nat)
    requires h.rs >= 1 && AllPoints(h, s, r) && 1 <= x <= h.grid.nx && p < h.grid.nprops
    ensures SameCell(h, s, r, x, 0, FromRank(h.rs, 2, r), x, h.grid.ny, p)
    ensures SameCell(h, s, r, x, h.grid.ny + 1, FromRank(h.rs, 3, r), x, 1, p)
  {
    PointIs(h, s, r, 2, x - 1, p, x, 0, x, h.grid.ny);
    PointIs(h, s, r, 3, x - 1, p, x, h.grid.ny + 1, x, 1);
  }

  lemma ColumnsReturned(h: Halo, steps: seq<X.Step>, s: X.State, r: nat, west: nat, east: nat, y: nat, p: nat)
    requires ValidHalo(h) && X.Reaches(Setup(h), steps, s) && r in s.returned
    requires west == FromRank(h.rs, 0, r) && east == FromRank(h.rs, 1, r)
    requires 1 <= y <= h.grid.ny && p < h.grid.nprops
    ensures SameCell(h, s, r, 0, y, west, h.grid.nx, y, p) && SameCell(h, s, r, h.grid.nx + 1, y, east, 1, y, p)
  {
    HaloReturned(h, steps, s, r);
    Columns(h, s, r, y, p);
  }

  lemma RowsReturned(h: Halo, steps: seq<X.Step>, s: X.State, r: nat, south: nat, north: nat, x: nat, p: nat)
    requires ValidHalo(h) && X.Reaches(Setup(h), steps, s) && r in s.returned
    requires south == FromRank(h.rs, 2, r) && north == FromRank(h.rs, 3, r)
    requires 1 <= x <= h.grid.nx && p < h.grid.nprops
    ensures SameCell(h, s, r, x, 0, south, x, h.grid.ny, p) && SameCell(h, s, r, x, h.grid.ny + 1, north, x, 1, p)
  {
    HaloReturned(h, steps, s, r);
    Rows(h, s, r, x, p);
  }

  /**
   So the ghost columns x = 0 and x = nx + 1 (corners aside) of the rank at (rx, ry) are the boundary
   columns of the ranks at (rx - 1, ry) and (rx + 1, ry) of the torus ...
   */
  lemma HaloDeliveredX(h: Halo, steps: seq<X.Step>, s: X.State, rx: nat, ry: nat, r: nat, west: nat, east: nat,
                       y: nat, p: nat)
    requires ValidHalo(h) && rx < h.rs && ry < h.rs && r == ry * h.rs + rx
    requires west == ry * h.rs + (rx + h.rs - 1) % h.rs && east == ry * h.rs + (rx + 1) % h.rs
    requires X.Reaches(Setup(h), steps, s) && r in s.returned
    requires 1 <= y <= h.grid.ny && p < h.grid.nprops
    ensures SameCell(h, s, r, 0, y, west, h.grid.nx, y, p) && SameCell(h, s, r, h.grid.nx + 1, y, east, 1, y, p)
  {
    NeighbourRanks(h.rs, rx, ry, r);
    ColumnsReturned(h, steps, s, r, west, east, y, p);
  }

  /** ... and the ghost rows y = 0 and y = ny + 1 those of the ranks at (rx, ry - 1) and (rx, ry + 1). */
  lemma HaloDeliveredY(h: Halo, steps: seq<X.Step>, s: X.State, rx: nat, ry: nat, r: nat, south: nat, north: nat,
                       x: nat, p: nat)
    requires ValidHalo(h) && rx < h.rs && ry < h.rs && r == ry * h.rs + rx
    requires south == (ry + h.rs - 1) % h.rs * h.rs + rx && north == (ry + 1) % h.rs * h.rs + rx
    requires X.Reaches(Setup(h), steps, s) && r in s.returned
    requires 1 <= x <= h.grid.nx && p < h.grid.nprops
    ensures SameCell(h, s, r, x, 0, south, x, h.grid.ny, p) && SameCell(h, s, r, x, h.grid.ny + 1, north, x, 1, p)
  {
    NeighbourRanks(h.rs, rx, ry, r);
    RowsReturned(h, steps, s, r, south, north, x, p);
  }

  // ---------------------------------------------------------------- termination

  lemma {:induction false} RankWorkBound(c: X.Config, s: X.State, r: nat, n: nat)
    ensures P.RankWork(c, s, r, n) <= 1 + 4 * n
    decreases n
  {
    if n > 0 { RankWorkBound(c, s, r, n - 1); }
  }

  lemma {:induction false} WorkBound(c: X.Config, s: X.State, n: nat)
    requires X.Slots(c) == 4
    ensures P.WorkUpTo(c, s, n) <= 33 * n
    decreases n
  {
    if n > 0 {
      WorkBound(c, s, n - 1);
      RankWorkBound(c, s, n - 1, 8);
    }
  }

  /**
   Every interleaving ends after at most 33 steps a rank, and it can only end with every rank back
   from its wait_all, even if every send completes only when matched.
   */
  lemma HaloEnds(h: Halo, steps: seq<X.Step>, s: X.State)
    requires ValidHalo(h) && X.Reaches(Setup(h), steps, s)
    ensures |steps| <= 33 * |h.init|
    ensures (forall st :: !X.Enabled(Setup(h), s, st)) ==> forall r :: 0 <= r < |h.init| ==> r in s.returned
  {
    var c := Setup(h);
    SetupValid(h);
    P.Terminates(c, steps, s);
    WorkBound(c, X.Init(c), |h.init|);
    if forall st :: !X.Enabled(c, s, st) { P.NoDeadlock(c, steps, s); }
  }

  /** Every interleaving so far can be continued until every rank is back from its wait_all. */
  lemma HaloCompletes(h: Halo, steps: seq<X.Step>, s: X.State) returns (all: seq<X.Step>, s': X.State)
    requires ValidHalo(h) && X.Reaches(Setup(h), steps, s)
    ensures steps <= all && X.Reaches(Setup(h), all, s') && P.AllReturned(Setup(h), s')
  {
    SetupValid(h);
    all, s' := P.Completes(Setup(h), steps, s);
  }
}
