/** What a clearance reading promises about a point: the slack, the exact condition under which the reading is a
    lower bound on the distance to the point, the convex case, and a gap that breaks it. */
module Clearance {
  import opened Arith
  import opened Geom
  import opened DistanceTransform
  import opened CellScan
  import opened HalfPlane
  import R = Raster

  /** Half the diagonal of a cell; the slack is three of them. */
  function HalfDiag(cell: real): real {
    cell * FRAC_1_SQRT_2
  }

  lemma SlackIsThreeHalfDiagonals(cell: real)
    ensures CLEARANCE_SLACK * cell == 3.0 * HalfDiag(cell)
  {
  }

  // ----- cells and readings -----

  /** A point is within half a diagonal of the centre of its cell. */
  lemma CentreIsNear(g: Grid, p: Point)
    requires g.cell > 0.0 && 0 <= g.CellOf(p).0 < CELL_BUDGET && 0 <= g.CellOf(p).1 < CELL_BUDGET
    ensures Within(g.Center(g.CellOf(p).0, g.CellOf(p).1), p, HalfDiag(g.cell))
  {
    R.CellOfContains(g, p);
    var c := g.Center(g.CellOf(p).0, g.CellOf(p).1);
    HalfDiagonal(p.x - c.x, p.y - c.y, g.cell);
    MulNonneg(g.cell, FRAC_1_SQRT_2);
  }

  /** Centres within m of each other: the distance less the slack is at most m less the slack. */
  lemma GapReading(g: Grid, i: nat, j: nat, k: nat, l: nat, m: real, root: real -> real)
    requires g.cell > 0.0 && IsRoot(root) && Within(g.Center(i, j), g.Center(k, l), m)
    ensures ToClearance(root, CellGap2(i, j, k, l), g.cell) <= Max(m - 3.0 * HalfDiag(g.cell), 0.0)
  {
    CellGapScaled(g, i, j, k, l);
    CellGapNonneg(i, j, k, l);
    hide Sq, Axis, CellGap2, HalfDiag;
    RootOf(root, CellGap2(i, j, k, l));
    ScaledRoot(root(CellGap2(i, j, k, l)), g.cell, CellGap2(i, j, k, l), m);
    SlackIsThreeHalfDiagonals(g.cell);
  }

  /** The distance itself joins the two centres. */
  lemma GapJoins(g: Grid, i: nat, j: nat, k: nat, l: nat, root: real -> real, m: real)
    requires g.cell > 0.0 && IsRoot(root) && m == root(CellGap2(i, j, k, l)) * g.cell
    ensures Within(g.Center(i, j), g.Center(k, l), m)
  {
    CellGapScaled(g, i, j, k, l);
    CellGapNonneg(i, j, k, l);
    hide Sq, Axis, CellGap2, Dist2;
    RootOf(root, CellGap2(i, j, k, l));
    SquareScaled(root(CellGap2(i, j, k, l)), CellGap2(i, j, k, l), g.cell, m);
  }

  lemma SquareScaled(s: real, v: real, cell: real, m: real)
    requires s >= 0.0 && cell >= 0.0 && Sq(s) == v && m == s * cell
    ensures m >= 0.0 && Sq(m) == v * Sq(cell)
  {
    SquareOfProduct(s, cell);
    MulNonneg(s, cell);
  }

  lemma CellGapNonneg(i: nat, j: nat, k: nat, l: nat)
    ensures CellGap2(i, j, k, l) >= 0.0
  {
  }

  lemma CellGapScaled(g: Grid, i: nat, j: nat, k: nat, l: nat)
    ensures Dist2(g.Center(i, j), g.Center(k, l)) == CellGap2(i, j, k, l) * Sq(g.cell)
  {
    AxisGapScaled(g.origin.x, g.cell, i, k);
    AxisGapScaled(g.origin.y, g.cell, j, l);
    hide Axis;
  }

  lemma AxisGapScaled(origin: real, cell: real, i: nat, k: nat)
    ensures Sq(Axis(origin, cell, k) - Axis(origin, cell, i)) == Sq(i as real - k as real) * Sq(cell)
  {
  }

  /** s is the root of v, and v scaled by the cell is at most m squared, so s cells are at most m. */
  lemma ScaledRoot(s: real, cell: real, v: real, m: real)
    requires s >= 0.0 && cell > 0.0 && m >= 0.0 && Sq(s) == v && v * Sq(cell) <= Sq(m)
    ensures s * cell <= m
  {
    MulNonneg(s, cell);
    SquareOfProduct(s, cell);
    hide Sq;
    if s * cell > m { SqStrict(m, s * cell); }
  }

  /** What a raster is built from, and the square root the proofs use. */
  datatype Island = Island(segs: seq<Segment>, min: Point, max: Point, halfWidth: real, root: real -> real)

  /** The raster of an island, as built. */
  ghost predicate Rastered(r: R.Raster, s: Island)
    reads r, r.solid, r.clearance
  {
    r.IsRasterOf(s.segs, s.min, s.max, s.halfWidth, s.root) && IsRoot(s.root)
  }

  /** Its beads all lie in the box. */
  ghost predicate Built(r: R.Raster, s: Island)
    reads r, r.solid, r.clearance
  {
    Rastered(r, s) && forall n | 0 <= n < |s.segs| :: R.InBounds(s.segs[n], s.min, s.max)
  }

  lemma BuiltGrid(r: R.Raster, s: Island)
    requires Rastered(r, s)
    ensures r.Valid() && r.cell > 0.0 && s.halfWidth > 0.0 && IsRoot(s.root)
    ensures r.nx <= CELL_BUDGET && r.ny <= CELL_BUDGET && HalfDiag(r.cell) >= 0.0
  {
    hide CellIndex, CellX, CellY;
  }

  /** The stored clearance of a cell is that of a nearest background cell, and none is closer. */
  lemma Stored(r: R.Raster, s: Island, i: nat, j: nat) returns (k: nat, l: nat)
    requires Built(r, s) && i < r.nx && j < r.ny
    ensures CellIndex(r.nx, i, j) < r.clearance.Length
    ensures Background(r.solid[..], r.nx, r.ny, k, l)
    ensures r.clearance[CellIndex(r.nx, i, j)] == ToClearance(s.root, CellGap2(i, j, k, l), r.cell)
    ensures forall k', l' | Background(r.solid[..], r.nx, r.ny, k', l') :: CellGap2(i, j, k, l) <= CellGap2(i, j, k', l')
  {
    hide CellIndex, CellX, CellY, CellGap2, ToClearance, R.FirstFit, R.SideCells, Marks;
    k, l := R.ClearanceIsOfNearestBackground(r, s.segs, s.min, s.max, s.halfWidth, s.root, i, j);
  }

  /** A background centre within m of the cell's centre keeps the stored clearance below m less the slack. */
  lemma StoredBelow(r: R.Raster, s: Island, i: nat, j: nat, k: nat, l: nat, m: real)
    requires Rastered(r, s) && i < r.nx && j < r.ny
    requires Background(r.solid[..], r.nx, r.ny, k, l) && Within(r.TheGrid().Center(i, j), r.TheGrid().Center(k, l), m)
    ensures CellIndex(r.nx, i, j) < r.clearance.Length
    ensures r.clearance[CellIndex(r.nx, i, j)] <= Max(m - 3.0 * HalfDiag(r.cell), 0.0)
  {
    BuiltGrid(r, s);
    var c := StoredReading(r, s, i, j, k, l);
    hide Rastered, CellIndex, CellX, CellY, CellGap2, ToClearance, Background, Within, IsRoot, HalfDiag;
    ClearanceMonotone(s.root, c, CellGap2(i, j, k, l), r.cell);
    GapReading(r.TheGrid(), i, j, k, l, m, s.root);
  }

  lemma StoredReading(r: R.Raster, s: Island, i: nat, j: nat, k: nat, l: nat) returns (v: real)
    requires Rastered(r, s) && i < r.nx && j < r.ny && Background(r.solid[..], r.nx, r.ny, k, l)
    ensures CellIndex(r.nx, i, j) < r.clearance.Length
    ensures r.clearance[CellIndex(r.nx, i, j)] == ToClearance(s.root, v, r.cell) && 0.0 <= v <= CellGap2(i, j, k, l)
  {
    hide CellIndex, CellX, CellY, CellGap2, ToClearance, R.FirstFit, R.SideCells, Marks, R.HasAreaOf;
    assert IsClearance(r.solid[..], r.nx, r.ny, i, j, r.clearance[CellIndex(r.nx, i, j)], r.cell, s.root);
    v :| IsBackgroundDistance2(r.solid[..], r.nx, r.ny, i, j, v) && r.clearance[CellIndex(r.nx, i, j)] == ToClearance(s.root, v, r.cell);
    DistanceNonneg(r.solid[..], r.nx, r.ny, i, j, v);
  }

  /** A reading is nothing, or the stored clearance of a cell whose centre is within half a diagonal. */
  lemma ReadingAt(r: R.Raster, s: Island, p: Point) returns (i: nat, j: nat)
    requires Rastered(r, s)
    ensures r.Valid()
    ensures r.ClearanceAt(p) > 0.0 ==>
              && i < r.nx && j < r.ny && r.TheGrid().CellOf(p) == (i, j) && Within(r.TheGrid().Center(i, j), p, HalfDiag(r.cell))
              && CellIndex(r.nx, i, j) < r.clearance.Length && r.ClearanceAt(p) == r.clearance[CellIndex(r.nx, i, j)]
  {
    BuiltGrid(r, s);
    var (k, l) := r.TheGrid().CellOf(p);
    i, j := 0, 0;
    if 0 <= k < r.nx && 0 <= l < r.ny {
      i, j := k, l;
      ReadingOfCell(r, p, i, j);
      hide Rastered, CellIndex, CellX, CellY, Within, AxisCell, Axis;
      CentreIsNear(r.TheGrid(), p);
    }
  }

  // ----- points near background -----

  /** A background centre within d plus the slack keeps the stored clearance within d. */
  lemma SlackCovers(r: R.Raster, s: Island, i: nat, j: nat, k: nat, l: nat, d: real)
    requires Rastered(r, s) && i < r.nx && j < r.ny && d >= 0.0 && Background(r.solid[..], r.nx, r.ny, k, l)
    requires Within(r.TheGrid().Center(i, j), r.TheGrid().Center(k, l), d + 3.0 * HalfDiag(r.cell))
    ensures CellIndex(r.nx, i, j) < r.clearance.Length && r.clearance[CellIndex(r.nx, i, j)] <= d
  {
    hide Rastered, CellIndex, CellX, CellY, Background, Within, HalfDiag;
    StoredBelow(r, s, i, j, k, l, d + 3.0 * HalfDiag(r.cell));
  }

  /** Half a diagonal to p, on to w, and two half diagonals to the background centre. */
  lemma ThreeLegs(c: Point, p: Point, w: Point, e: Point, half: real, d: real)
    requires Within(c, p, half) && Within(p, w, d) && Within(w, e, 2.0 * half)
    ensures Within(c, e, d + 3.0 * half)
  {
    hide Within;
    WithinAdds(c, p, w, half, d);
    WithinAdds(c, w, e, half + d, 2.0 * half);
    assert half + d + 2.0 * half == d + 3.0 * half;
  }

  lemma LegsByRoot(root: real -> real, c: Point, p: Point, w: Point, e: Point, half: real)
    requires IsRoot(root) && Within(c, p, half) && Within(w, e, 2.0 * half)
    ensures root(Dist2(p, w)) >= 0.0 && Within(c, e, root(Dist2(p, w)) + 3.0 * half)
  {
    RootIsWithin(root, p, w);
    hide Within, Dist2, IsRoot;
    ThreeLegs(c, p, w, e, half, root(Dist2(p, w)));
  }

  /** A reading never exceeds the distance to a point within the square root of two cells of a background centre. */
  lemma NearBackgroundIsBounded(r: R.Raster, s: Island, p: Point, w: Point, k: nat, l: nat)
    requires Rastered(r, s)
    requires Background(r.solid[..], r.nx, r.ny, k, l) && Within(w, r.TheGrid().Center(k, l), 2.0 * HalfDiag(r.cell))
    ensures r.Valid() && r.ClearanceAt(p) <= s.root(Dist2(p, w))
  {
    hide Rastered, CellIndex, CellX, CellY, Background, Within, IsRoot, HalfDiag, Axis, AxisCell, Dist2, IsGrid, R.Raster.ClearanceAt, R.Raster.Valid;
    var i, j := ReadingAt(r, s, p);
    BuiltGrid(r, s);
    RootIsWithin(s.root, p, w);
    if r.ClearanceAt(p) > 0.0 { NearBackgroundInCell(r, s, i, j, p, w, k, l); }
  }

  lemma NearBackgroundInCell(r: R.Raster, s: Island, i: nat, j: nat, p: Point, w: Point, k: nat, l: nat)
    requires Rastered(r, s) && i < r.nx && j < r.ny && Within(r.TheGrid().Center(i, j), p, HalfDiag(r.cell))
    requires Background(r.solid[..], r.nx, r.ny, k, l) && Within(w, r.TheGrid().Center(k, l), 2.0 * HalfDiag(r.cell))
    ensures CellIndex(r.nx, i, j) < r.clearance.Length && r.clearance[CellIndex(r.nx, i, j)] <= s.root(Dist2(p, w))
  {
    hide Rastered, CellIndex, CellX, CellY, Background, Within, IsRoot, HalfDiag, Dist2, IsGrid, Grid.Center, R.Raster.Valid;
    BuiltGrid(r, s);
    LegsByRoot(s.root, r.TheGrid().Center(i, j), p, w, r.TheGrid().Center(k, l), HalfDiag(r.cell));
    SlackCovers(r, s, i, j, k, l, s.root(Dist2(p, w)));
  }

  /** In particular a reading never exceeds the distance to a point of a background cell. */
  lemma ClearanceBelowDistance(r: R.Raster, s: Island, p: Point, w: Point)
    requires Rastered(r, s)
    requires var (k, l) := r.TheGrid().CellOf(w); 0 <= k && 0 <= l && Background(r.solid[..], r.nx, r.ny, k, l)
    ensures r.Valid() && r.ClearanceAt(p) <= s.root(Dist2(p, w))
  {
    hide Rastered, CellIndex, CellX, CellY, Within, HalfDiag, Grid.Center, Grid.CellOf, R.Raster.Valid, R.Raster.ClearanceAt, Dist2;
    BuiltGrid(r, s);
    var (k, l) := r.TheGrid().CellOf(w);
    CentreIsNear(r.TheGrid(), w);
    WithinSym(r.TheGrid().Center(k, l), w, HalfDiag(r.cell));
    WithinMore(w, r.TheGrid().Center(k, l), HalfDiag(r.cell), 2.0 * HalfDiag(r.cell));
    NearBackgroundIsBounded(r, s, p, w, k, l);
  }

  // ----- exactly when the reading is a lower bound -----

  function CellLow(g: Grid, i: nat, j: nat): Point {
    Point(g.Center(i, j).x - 0.5 * g.cell, g.Center(i, j).y - 0.5 * g.cell)
  }

  function CellHigh(g: Grid, i: nat, j: nat): Point {
    Point(g.Center(i, j).x + 0.5 * g.cell, g.Center(i, j).y + 0.5 * g.cell)
  }

  /** Squared distance from w to the square of a cell. */
  function CellDist2(g: Grid, i: nat, j: nat, w: Point): real {
    PointBoxDist2(w, CellLow(g, i, j), CellHigh(g, i, j))
  }

  /** Every cell has a background centre within its distance from w and the slack. */
  ghost predicate BackgroundInReach(solid: seq<bool>, g: Grid, w: Point, root: real -> real) {
    forall i: nat, j: nat | i < g.nx && j < g.ny ::
      BackgroundWithin(solid, g, i, j, root(CellDist2(g, i, j, w)) + 3.0 * HalfDiag(g.cell))
  }

  ghost predicate BackgroundWithin(solid: seq<bool>, g: Grid, i: nat, j: nat, m: real) {
    exists k: nat, l: nat :: Background(solid, g.nx, g.ny, k, l) && Within(g.Center(i, j), g.Center(k, l), m)
  }

  ghost predicate BoundsEveryReading(r: R.Raster, w: Point, root: real -> real)
    reads r, r.solid, r.clearance
    requires r.Valid()
  {
    forall p: Point :: r.ClearanceAt(p) <= root(Dist2(p, w))
  }

  /** The documented bound, for one point w and every query: the readings are at most the distance to w exactly when
      every cell has a background centre within its distance from w and the slack. */
  lemma BoundExactlyWhenBackgroundInReach(r: R.Raster, s: Island, w: Point)
    requires Built(r, s)
    ensures r.Valid() && (BoundsEveryReading(r, w, s.root) <==> BackgroundInReach(r.solid[..], r.TheGrid(), w, s.root))
  {
    hide Rastered, R.InBounds, R.Raster.Valid, BoundsEveryReading, BackgroundInReach;
    BuiltGrid(r, s);
    if BackgroundInReach(r.solid[..], r.TheGrid(), w, s.root) { ReachBoundsAll(r, s, w); }
    if BoundsEveryReading(r, w, s.root) { BoundReachesAll(r, s, w); }
  }

  lemma ReachBoundsAll(r: R.Raster, s: Island, w: Point)
    requires Rastered(r, s) && r.Valid() && BackgroundInReach(r.solid[..], r.TheGrid(), w, s.root)
    ensures BoundsEveryReading(r, w, s.root)
  {
    hide Rastered, R.Raster.Valid, BackgroundInReach, R.Raster.ClearanceAt, Dist2;
    forall p: Point
      ensures r.ClearanceAt(p) <= s.root(Dist2(p, w))
    {
      ReachBounds(r, s, p, w);
    }
  }

  lemma BoundReachesAll(r: R.Raster, s: Island, w: Point)
    requires Built(r, s) && r.Valid() && BoundsEveryReading(r, w, s.root)
    ensures BackgroundInReach(r.solid[..], r.TheGrid(), w, s.root)
  {
    hide Rastered, R.InBounds, R.Raster.Valid, BoundsEveryReading, BackgroundWithin, CellDist2, HalfDiag;
    var g := r.TheGrid();
    forall i: nat, j: nat | i < g.nx && j < g.ny
      ensures BackgroundWithin(r.solid[..], g, i, j, s.root(CellDist2(g, i, j, w)) + 3.0 * HalfDiag(g.cell))
    {
      BoundReaches(r, s, i, j, w);
    }
  }

  lemma ReachBounds(r: R.Raster, s: Island, p: Point, w: Point)
    requires Rastered(r, s) && BackgroundInReach(r.solid[..], r.TheGrid(), w, s.root)
    ensures r.Valid() && r.ClearanceAt(p) <= s.root(Dist2(p, w))
  {
    hide Rastered, CellIndex, CellX, CellY, Background, Within, IsRoot, HalfDiag, Axis, AxisCell, Dist2, R.Raster.ClearanceAt, R.Raster.Valid, CellDist2;
    BuiltGrid(r, s);
    RootIsWithin(s.root, p, w);
    var i, j := ReadingAt(r, s, p);
    if r.ClearanceAt(p) > 0.0 {
      var d := s.root(CellDist2(r.TheGrid(), i, j, w));
      CellDistanceBelow(r.TheGrid(), i, j, p, w, s.root);
      var k: nat, l: nat :| Background(r.solid[..], r.nx, r.ny, k, l) &&
        Within(r.TheGrid().Center(i, j), r.TheGrid().Center(k, l), d + 3.0 * HalfDiag(r.cell));
      SlackCovers(r, s, i, j, k, l, d);
    }
  }

  /** The cell of p is no farther from w than p. */
  lemma CellDistanceBelow(g: Grid, i: nat, j: nat, p: Point, w: Point, root: real -> real)
    requires g.cell > 0.0 && IsRoot(root) && g.CellOf(p) == (i, j) && i < CELL_BUDGET && j < CELL_BUDGET
    ensures 0.0 <= root(CellDist2(g, i, j, w)) <= root(Dist2(p, w))
  {
    R.CellOfContains(g, p);
    PointBoxNearest(w, CellLow(g, i, j), CellHigh(g, i, j), p);
    Dist2Sym(p, w);
    BoxDistanceNonneg(w, CellLow(g, i, j), CellHigh(g, i, j));
    hide CellLow, CellHigh, Dist2, PointBoxDist2, IsRoot;
    RootOf(root, CellDist2(g, i, j, w));
    RootMonotone(root, CellDist2(g, i, j, w), Dist2(p, w));
  }

  lemma BoxDistanceNonneg(w: Point, lo: Point, hi: Point)
    ensures PointBoxDist2(w, lo, hi) >= 0.0
  {
  }

  /** If a cell's nearest background is out of reach, its reading exceeds the distance from some of its points to w. */
  lemma BoundReaches(r: R.Raster, s: Island, i: nat, j: nat, w: Point)
    requires Built(r, s) && r.Valid() && BoundsEveryReading(r, w, s.root) && i < r.nx && j < r.ny
    ensures BackgroundWithin(r.solid[..], r.TheGrid(), i, j, s.root(CellDist2(r.TheGrid(), i, j, w)) + 3.0 * HalfDiag(r.cell))
  {
    hide Rastered, R.InBounds, CellIndex, CellX, CellY, Background, Within, IsRoot, HalfDiag, Axis, AxisCell, Dist2, CellDist2, CellGap2, R.Raster.Valid, IsGrid;
    BuiltGrid(r, s);
    var g := r.TheGrid();
    var k, l := Stored(r, s, i, j);
    var m := s.root(CellGap2(i, j, k, l)) * r.cell;
    GapJoins(g, i, j, k, l, s.root, m);
    var d := s.root(CellDist2(g, i, j, w));
    if m <= d + 3.0 * HalfDiag(r.cell) {
      WithinMore(g.Center(i, j), g.Center(k, l), m, d + 3.0 * HalfDiag(r.cell));
    } else {
      SlackIsThreeHalfDiagonals(r.cell);
      var p := CloserPoint(g, i, j, w, s.root, m - 3.0 * HalfDiag(r.cell));
      ReadingOfCell(r, p, i, j);
    }
  }

  lemma ReadingOfCell(r: R.Raster, p: Point, i: nat, j: nat)
    requires r.Valid() && i < r.nx && j < r.ny && r.TheGrid().CellOf(p) == (i, j)
    ensures CellIndex(r.nx, i, j) < r.clearance.Length && r.ClearanceAt(p) == r.clearance[CellIndex(r.nx, i, j)]
  {
    hide CellIndex, CellX, CellY;
  }

  /** A point of the cell closer to w than m, when the cell's square is. */
  lemma CloserPoint(g: Grid, i: nat, j: nat, w: Point, root: real -> real, m: real) returns (p: Point)
    requires g.cell > 0.0 && IsRoot(root) && i < CELL_BUDGET && j < CELL_BUDGET && root(CellDist2(g, i, j, w)) < m
    ensures g.CellOf(p) == (i, j) && root(Dist2(p, w)) < m
  {
    var lo, hi, c := CellLow(g, i, j), CellHigh(g, i, j), g.Center(i, j);
    var d := root(CellDist2(g, i, j, w));
    var n := ClampToBox(w, lo, hi);
    var half := HalfDiag(g.cell);
    ClampAttains(w, lo, hi);
    CornerInReach(g, i, j, n);
    var t := StepInto(half, m - d);
    p := Lerp(n, c, t);
    InteriorPoint(g, i, j, n, t);
    BoxDistanceNonneg(w, lo, hi);
    hide Mix, IsRoot, Axis, AxisCell, CellLow, CellHigh, PointBoxDist2, Sq, HalfDiag;
    RootIsWithin(root, w, n);
    LegTowards(n, c, t, half);
    WithinAdds(w, n, p, d, Scaled(t, half));
    WithinSym(w, p, d + Scaled(t, half));
    WithinBoundsRoot(root, p, w, d + Scaled(t, half));
  }

  lemma StepInto(half: real, room: real) returns (t: real)
    requires half >= 0.0 && room > 0.0
    ensures 0.0 < t <= 1.0 && Scaled(t, half) < room
  {
    t := if half < room then 0.5 else room / (2.0 * half);
    if half >= room {
      DivMul(room, 2.0 * half);
      HalfQuotient(room, half, t);
    }
  }

  lemma HalfQuotient(room: real, half: real, t: real)
    requires 0.0 < room <= half && t * (2.0 * half) == room
    ensures 0.0 < t <= 1.0 && Scaled(t, half) < room
  {
    if t <= 0.0 { MulLe(t, 0.0, 2.0 * half); }
    if t > 1.0 { MulLe(1.0, t, 2.0 * half); }
    assert 2.0 * Scaled(t, half) == room;
  }

  lemma CornerInReach(g: Grid, i: nat, j: nat, n: Point)
    requires g.cell > 0.0 && InBox(n, CellLow(g, i, j), CellHigh(g, i, j))
    ensures Within(n, g.Center(i, j), HalfDiag(g.cell))
  {
    var c := g.Center(i, j);
    HalfDiagonal(c.x - n.x, c.y - n.y, g.cell);
    MulNonneg(g.cell, FRAC_1_SQRT_2);
  }

  lemma LegTowards(n: Point, c: Point, t: real, half: real)
    requires 0.0 <= t <= 1.0 && Within(n, c, half)
    ensures Within(n, Lerp(n, c, t), Scaled(t, half))
  {
    ScaledVector(c.x - n.x, c.y - n.y, t, half);
    TowardsIsScaled(n.x, c.x, t);
    TowardsIsScaled(n.y, c.y, t);
    hide Sq, Mix, Scaled;
  }

  lemma TowardsIsScaled(u: real, v: real, t: real)
    ensures Mix(u, v, t) - u == Scaled(t, v - u)
  {
  }

  /** A point of the square moved towards the centre lies in the half-open cell. */
  lemma InteriorPoint(g: Grid, i: nat, j: nat, n: Point, t: real)
    requires g.cell > 0.0 && i < CELL_BUDGET && j < CELL_BUDGET && 0.0 < t <= 1.0
    requires InBox(n, CellLow(g, i, j), CellHigh(g, i, j))
    ensures g.CellOf(Lerp(n, g.Center(i, j), t)) == (i, j)
  {
    hide Axis, AxisCell;
    TowardsCentre(n.x, g.Center(i, j).x, g.cell, t);
    TowardsCentre(n.y, g.Center(i, j).y, g.cell, t);
    AxisCellOf(g.origin.x, g.cell, Mix(n.x, g.Center(i, j).x, t), i);
    AxisCellOf(g.origin.y, g.cell, Mix(n.y, g.Center(i, j).y, t), j);
  }

  lemma TowardsCentre(n: real, c: real, cell: real, t: real)
    requires cell > 0.0 && 0.0 < t <= 1.0 && -cell <= 2.0 * (n - c) <= cell
    ensures -cell < 2.0 * (Mix(n, c, t) - c) < cell
  {
    BackFromCentre(n, c, t);
    ShrunkBelow(2.0 * (n - c), cell, t);
    ShrunkBelow(-2.0 * (n - c), cell, t);
  }

  lemma BackFromCentre(n: real, c: real, t: real)
    ensures 2.0 * (Mix(n, c, t) - c) == Scaled(1.0 - t, 2.0 * (n - c))
    ensures -2.0 * (Mix(n, c, t) - c) == Scaled(1.0 - t, -2.0 * (n - c))
  {
  }

  lemma ShrunkBelow(u: real, cell: real, t: real)
    requires cell > 0.0 && 0.0 < t <= 1.0 && u <= cell
    ensures Scaled(1.0 - t, u) < cell
  {
    MulPos(t, cell);
    MulNonneg(1.0 - t, cell - u);
    Complement(t, cell - u);
    Complement(t, u);
  }

  lemma Complement(t: real, v: real)
    ensures (1.0 - t) * v == v - t * v
  {
  }

  lemma AxisCellOf(origin: real, cell: real, v: real, i: nat)
    requires cell > 0.0 && i < CELL_BUDGET && -cell < 2.0 * (v - Axis(origin, cell, i)) < cell
    ensures AxisCell(origin, cell, v) == i
  {
    var q := (v - origin) / cell;
    DivMul(v - origin, cell);
    LessByFactor(i as real, q, cell);
    QuotientBelow(q, i as real + 1.0, cell);
  }

  lemma QuotientBelow(u: real, v: real, k: real)
    requires k > 0.0 && u * k < v * k
    ensures u < v
  {
    if u >= v { MulLe(v, u, k); }
  }

  // ----- convex material -----

  /** A cell outside the material is background, truncated or not. */
  lemma OutsideIsBackground(r: R.Raster, s: Island, k: nat, l: nat)
    requires Built(r, s) && k < r.nx && l < r.ny && !Material(s.segs, s.halfWidth, r.TheGrid().Center(k, l))
    ensures Background(r.solid[..], r.nx, r.ny, k, l)
  {
    hide CellIndex, CellX, CellY, R.FirstFit, R.SideCells, IsClearance, R.HasAreaOf;
    MarkAt(r.TheGrid(), s.segs, s.halfWidth, r.solid[..], !r.truncated, k, l);
    assert !NearAny(r.TheGrid(), s.segs, s.halfWidth, k, l);
  }

  /** Border cells are background. */
  lemma BorderIsBackground(r: R.Raster, s: Island, k: nat, l: nat)
    requires Built(r, s) && k < r.nx && l < r.ny && (k == 0 || k == r.nx - 1 || l == 0 || l == r.ny - 1)
    ensures Background(r.solid[..], r.nx, r.ny, k, l)
  {
    if Material(s.segs, s.halfWidth, r.TheGrid().Center(k, l)) {
      var n :| 0 <= n < |s.segs| && OnBead(s.segs[n], s.halfWidth, r.TheGrid().Center(k, l));
      R.NearCellsInsideRing(s.segs[n], s.min, s.max, s.halfWidth, r.TheGrid(), k, l);
    } else {
      OutsideIsBackground(r, s, k, l);
    }
  }

  /** Index of the cell holding coordinate v, before clamping. */
  function Column(origin: real, cell: real, v: real): int
    requires cell > 0.0
  {
    ((v - origin) / cell).Floor
  }

  lemma ColumnHolds(origin: real, cell: real, v: real)
    requires cell > 0.0
    ensures -cell <= 2.0 * (v - Axis(origin, cell, Column(origin, cell, v))) <= cell
  {
    var u := (v - origin) / cell;
    DivMul(v - origin, cell);
    R.FloorContains(origin, cell, v, u, u.Floor);
  }

  /** One step of half a diagonal outward from w lands in a cell whose centre is beyond w and at most two away. */
  lemma StepOutward(g: Grid, w: Point, u: Point) returns (k: int, l: int)
    requires g.cell > 0.0 && Unit(u)
    ensures Along(g.Center(k, l), w, u) >= 0.0 && Within(w, g.Center(k, l), 2.0 * HalfDiag(g.cell))
  {
    var half := HalfDiag(g.cell);
    MulNonneg(g.cell, FRAC_1_SQRT_2);
    var q := Stepped(w, u, half);
    k, l := Column(g.origin.x, g.cell, q.x), Column(g.origin.y, g.cell, q.y);
    ColumnHolds(g.origin.x, g.cell, q.x);
    ColumnHolds(g.origin.y, g.cell, q.y);
    StepLength(w, u, half);
    hide Sq, Axis, Column, HalfDiag, Along, Unit, Stepped;
    var e := g.Center(k, l);
    CentreWithin(q, e, g.cell);
    WithinAdds(w, q, e, half, half);
    AlongIsShort(e, q, u, half);
    AlongAdds(e, q, w, u);
  }

  lemma CentreWithin(q: Point, e: Point, cell: real)
    requires cell > 0.0 && -cell <= 2.0 * (q.x - e.x) <= cell && -cell <= 2.0 * (q.y - e.y) <= cell
    ensures Within(q, e, HalfDiag(cell))
  {
    HalfDiagonal(e.x - q.x, e.y - q.y, cell);
    MulNonneg(cell, FRAC_1_SQRT_2);
  }

  /** With a line through w that leaves all the material behind, no reading exceeds the distance to w. */
  lemma SupportedIsBounded(r: R.Raster, s: Island, p: Point, w: Point, u: Point)
    requires Built(r, s) && Supports(s.segs, s.halfWidth, w, u)
    ensures r.Valid() && r.ClearanceAt(p) <= s.root(Dist2(p, w))
  {
    hide Rastered, R.InBounds, Material, R.Raster.ClearanceAt, R.Raster.Valid, Dist2, Within, HalfDiag, Grid.Center, Unit, IsRoot, Along;
    BuiltGrid(r, s);
    var k, l := StepOutward(r.TheGrid(), w, u);
    OutsideCentreBounds(r, s, p, w, k, l);
  }

  /** A lattice centre that is not material bounds every reading at points within two half diagonals of it. */
  lemma OutsideCentreBounds(r: R.Raster, s: Island, p: Point, w: Point, k: int, l: int)
    requires Built(r, s) && !Material(s.segs, s.halfWidth, r.TheGrid().Center(k, l))
    requires Within(w, r.TheGrid().Center(k, l), 2.0 * HalfDiag(r.cell))
    ensures r.Valid() && r.ClearanceAt(p) <= s.root(Dist2(p, w))
  {
    hide Rastered, R.InBounds, Material, R.Raster.ClearanceAt, R.Raster.Valid, Dist2, Within, HalfDiag, Grid.Center, CellIndex, IsRoot;
    BuiltGrid(r, s);
    if 0 <= k < r.nx && 0 <= l < r.ny {
      OutsideIsBackground(r, s, k, l);
      NearBackgroundIsBounded(r, s, p, w, k, l);
    } else {
      OffGridIsBounded(r, s, p, w, k, l);
    }
  }

  /** A point within two half diagonals of a lattice centre off the grid is beyond the padding: no reading reaches it. */
  lemma OffGridIsBounded(r: R.Raster, s: Island, p: Point, w: Point, k: int, l: int)
    requires Built(r, s) && !(0 <= k < r.nx && 0 <= l < r.ny)
    requires Within(w, r.TheGrid().Center(k, l), 2.0 * HalfDiag(r.cell))
    ensures r.Valid() && r.ClearanceAt(p) <= s.root(Dist2(p, w))
  {
    hide Rastered, R.InBounds, CellIndex, CellX, CellY, Background, Within, IsRoot, HalfDiag, Axis, AxisCell, Dist2, IsGrid, R.Raster.ClearanceAt, R.Raster.Valid;
    var i, j := ReadingAt(r, s, p);
    BuiltGrid(r, s);
    RootIsWithin(s.root, p, w);
    if r.ClearanceAt(p) > 0.0 { OffGridInCell(r, s, i, j, p, w, k, l); }
  }

  lemma OffGridInCell(r: R.Raster, s: Island, i: nat, j: nat, p: Point, w: Point, k: int, l: int)
    requires Built(r, s) && i < r.nx && j < r.ny && Within(r.TheGrid().Center(i, j), p, HalfDiag(r.cell))
    requires !(0 <= k < r.nx && 0 <= l < r.ny) && Within(w, r.TheGrid().Center(k, l), 2.0 * HalfDiag(r.cell))
    ensures CellIndex(r.nx, i, j) < r.clearance.Length && r.clearance[CellIndex(r.nx, i, j)] <= s.root(Dist2(p, w))
  {
    hide Rastered, R.InBounds, CellIndex, CellX, CellY, Background, Within, IsRoot, HalfDiag, Axis, AxisCell, Dist2, IsGrid, R.Raster.Valid;
    BuiltGrid(r, s);
    var g := r.TheGrid();
    var d := s.root(Dist2(p, w));
    LegsByRoot(s.root, g.Center(i, j), p, w, g.Center(k, l), HalfDiag(r.cell));
    var a, b := BorderOnTheWay(r.nx, r.ny, i, j, k, l);
    BorderIsBackground(r, s, a, b);
    BorderIsCloser(g, i, j, k, l, a, b, d + 3.0 * HalfDiag(r.cell));
    SlackCovers(r, s, i, j, a, b, d);
  }

  lemma BorderOnTheWay(nx: nat, ny: nat, i: nat, j: nat, k: int, l: int) returns (a: nat, b: nat)
    requires i < nx && j < ny && !(0 <= k < nx && 0 <= l < ny)
    ensures a < nx && b < ny && (a == 0 || a == nx - 1 || b == 0 || b == ny - 1)
    ensures (b == j && (k <= a <= i || i <= a <= k)) || (a == i && (l <= b <= j || j <= b <= l))
  {
    a := if k < 0 then 0 else if k >= nx then nx - 1 else i;
    b := if k < 0 || k >= nx then j else if l < 0 then 0 else ny - 1;
  }

  /** The border cell of the same row or column on the way out is at most as far as the off-grid centre. */
  lemma BorderIsCloser(g: Grid, i: nat, j: nat, k: int, l: int, a: nat, b: nat, m: real)
    requires g.cell > 0.0 && i < g.nx && j < g.ny && Within(g.Center(i, j), g.Center(k, l), m)
    requires (b == j && (k <= a <= i || i <= a <= k)) || (a == i && (l <= b <= j || j <= b <= l))
    ensures Within(g.Center(i, j), g.Center(a, b), m)
  {
    if b == j {
      StepsAlong(g.origin.x, g.cell, i, a, k);
      StepsAlong(g.origin.y, g.cell, j, b, j);
    } else {
      StepsAlong(g.origin.y, g.cell, j, b, l);
      StepsAlong(g.origin.x, g.cell, i, a, i);
    }
    hide Axis;
    assert Sq(0.0) == 0.0;
  }

  lemma StepsAlong(origin: real, cell: real, i: int, a: int, k: int)
    requires cell > 0.0 && (k <= a <= i || i <= a <= k)
    ensures Sq(Axis(origin, cell, a) - Axis(origin, cell, i)) <= Sq(Axis(origin, cell, k) - Axis(origin, cell, i))
    ensures a == i ==> Axis(origin, cell, a) - Axis(origin, cell, i) == 0.0
  {
    var near := if a >= i then a - i else i - a;
    var far := if k >= i then k - i else i - k;
    MulLe(near as real, far as real, cell);
    MulNonneg(near as real, cell);
    SqMonotone(near as real * cell, far as real * cell);
    SqNeg(near as real * cell);
    SqNeg(far as real * cell);
    AxisGap1(origin, cell, a, i);
    AxisGap1(origin, cell, k, i);
    hide Sq, Axis;
  }

  lemma AxisGap1(origin: real, cell: real, a: int, i: int)
    ensures Axis(origin, cell, a) - Axis(origin, cell, i) == (a - i) as real * cell
  {
  }

  /** Convex material: the documented bound holds for every query and every point that is not material. */
  lemma ConvexMaterialIsBounded(r: R.Raster, s: Island, p: Point, w: Point)
    requires Built(r, s) && ConvexMaterial(s.segs, s.halfWidth) && !Material(s.segs, s.halfWidth, w)
    ensures r.Valid() && r.ClearanceAt(p) <= s.root(Dist2(p, w))
  {
    hide Rastered, R.InBounds, Supports, Material, ConvexMaterial, IsRoot, R.Raster.ClearanceAt, R.Raster.Valid, Dist2;
    BuiltGrid(r, s);
    var u := ConvexIsSupported(s.segs, s.halfWidth, w, s.root);
    SupportedIsBounded(r, s, p, w, u);
  }

  /** In particular for an island of one bead. */
  lemma OneBeadIsBounded(r: R.Raster, s: Island, p: Point, w: Point)
    requires Built(r, s) && |s.segs| == 1 && !Material(s.segs, s.halfWidth, w)
    ensures r.Valid() && r.ClearanceAt(p) <= s.root(Dist2(p, w))
  {
    hide Rastered, R.InBounds, Material, ConvexMaterial, IsRoot, R.Raster.ClearanceAt, R.Raster.Valid, Dist2;
    BuiltGrid(r, s);
    OneBeadIsConvex(s.segs[0], s.halfWidth);
    assert s.segs == [s.segs[0]];
    ConvexMaterialIsBounded(r, s, p, w);
  }

  // ----- where the bound fails -----

  /** Two beads 0.1 mm apart, half width 3, cell 1: no cell centre falls in the gap. */
  const GAP_BEADS := [Segment(Point(0.0, 0.0), Point(20.0, 0.0)), Segment(Point(0.0, 6.1), Point(20.0, 6.1))]
  const GAP_GRID := Grid(Point(-5.0, -5.0), 1.0, 31, 18)

  function GapIsland(root: real -> real): Island {
    Island(GAP_BEADS, Point(0.0, 0.0), Point(20.0, 6.1), 3.0, root)
  }

  /** The raster of that island, as built, reads more than 3.8 at (10.5, 2.5), although the point (10.5, 3.05) of the gap
      is not material and only 0.55 away. */
  lemma GapNarrowerThanACellIsMissed(r: R.Raster, root: real -> real)
    requires IsRoot(root) && Built(r, GapIsland(root)) && !r.truncated
    ensures !Material(GAP_BEADS, 3.0, Point(10.5, 3.05))
    ensures r.Valid() && r.ClearanceAt(Point(10.5, 2.5)) > 3.8 > 0.6 > root(Dist2(Point(10.5, 2.5), Point(10.5, 3.05)))
  {
    GapPointOutside();
    GapGridIsBuilt(r, root);
    GapDistance(root);
    BuiltGrid(r, GapIsland(root));
    ReadingOfCell(r, Point(10.5, 2.5), 15, 7);
    var k, l := Stored(r, GapIsland(root), 15, 7);
    NearestIsFar(r, root, k, l);
    hide Rastered, R.InBounds, CellIndex, CellX, CellY, R.Raster.ClearanceAt, R.Raster.Valid, Material, Background, CellGap2, Dist2;
    RootMonotone(root, 36.0, CellGap2(15, 7, k, l));
    RootOf(root, 36.0);
    if root(36.0) < 6.0 { SqStrict(root(36.0), 6.0); }
  }

  lemma GapDistance(root: real -> real)
    requires IsRoot(root)
    ensures root(Dist2(Point(10.5, 2.5), Point(10.5, 3.05))) < 0.6
  {
    var v := Dist2(Point(10.5, 2.5), Point(10.5, 3.05));
    assert Sq(0.0) == 0.0 && v == Sq(0.55);
    assert Within(Point(10.5, 2.5), Point(10.5, 3.05), 0.55);
    WithinBoundsRoot(root, Point(10.5, 2.5), Point(10.5, 3.05), 0.55);
  }

  lemma GapGridIsBuilt(r: R.Raster, root: real -> real)
    requires Built(r, GapIsland(root))
    ensures r.TheGrid() == GAP_GRID && GAP_GRID.CellOf(Point(10.5, 2.5)) == (15, 7)
  {
    hide CellIndex, CellX, CellY, Marks, IsClearance, R.HasAreaOf, Background, Near;
    assert R.SideCells(20.0, 3.0, 1.0) == 31 && R.SideCells(6.1, 3.0, 1.0) == 18;
    assert BaseCell(3.0) == 1.0 && Grown(1.0, 0) == 1.0 && R.Fits(20.0, 6.1, 3.0, Grown(1.0, 0));
    assert r.cell == 1.0;
  }

  lemma NearestIsFar(r: R.Raster, root: real -> real, k: nat, l: nat)
    requires Built(r, GapIsland(root)) && !r.truncated && Background(r.solid[..], r.nx, r.ny, k, l) && r.TheGrid() == GAP_GRID
    ensures CellGap2(15, 7, k, l) >= 36.0
  {
    hide CellIndex, CellX, CellY, Near, IsClearance, R.HasAreaOf, R.FirstFit, R.SideCells, CellGap2;
    if CellGap2(15, 7, k, l) < 36.0 {
      NearCellSolid(k, l);
      MarkAt(GAP_GRID, GAP_BEADS, 3.0, r.solid[..], true, k, l);
    }
  }

  lemma GapPointOutside()
    ensures !Material(GAP_BEADS, 3.0, Point(10.5, 3.05))
  {
    OffLevelBead(Point(10.5, 3.05), 0.0);
    OffLevelBead(Point(10.5, 3.05), 6.1);
    hide OnBead;
    BothOutside(Point(10.5, 3.05));
  }

  lemma BothOutside(p: Point)
    requires !OnBead(GAP_BEADS[0], 3.0, p) && !OnBead(GAP_BEADS[1], 3.0, p)
    ensures !Material(GAP_BEADS, 3.0, p)
  {
    hide OnBead;
  }

  lemma OffLevelBead(p: Point, y: real)
    requires y - p.y > 3.0 || p.y - y > 3.0
    ensures !OnBead(Segment(Point(0.0, y), Point(20.0, y)), 3.0, p)
  {
    FarFromLevel(p, 0.0, 20.0, y);
    SqNeg(y - p.y);
    hide PointSegDist2;
    SqStrict(3.0, if y > p.y then y - p.y else p.y - y);
  }

  lemma FarFromLevel(p: Point, x0: real, x1: real, y: real)
    ensures PointSegDist2(p, Point(x0, y), Point(x1, y)) >= Sq(y - p.y)
  {
    hide ClosestT, Sq;
    MixSame(y, ClosestT(p, Point(x0, y), Point(x1, y)));
  }

  lemma NearCellSolid(i: nat, j: nat)
    requires CellGap2(15, 7, i, j) < 36.0
    ensures Near(GAP_GRID, GAP_BEADS[if j <= 7 then 0 else 1], 3.0, i, j)
  {
    GapOffsets(i, j);
    var y := if j <= 7 then 0.0 else 6.1;
    R.LevelBead(GAP_GRID.Center(i, j), 20.0, y, 3.0);
  }

  lemma GapOffsets(i: nat, j: nat)
    requires CellGap2(15, 7, i, j) < 36.0
    ensures 9 < i < 21 && 1 < j < 13
  {
    hide Sq;
    WithinSix(i as real - 15.0, j as real - 7.0);
  }

  lemma WithinSix(u: real, v: real)
    requires Sq(-u) + Sq(-v) < 36.0
    ensures -6.0 < u < 6.0 && -6.0 < v < 6.0
  {
    SqNeg(u);
    SqNeg(v);
    assert Sq(6.0) == 36.0;
    ComponentBound(u, v, 6.0);
    ComponentBound(v, u, 6.0);
    if u == 6.0 || u == -6.0 { SqNeg(6.0); }
    if v == 6.0 || v == -6.0 { SqNeg(6.0); }
  }
}
