/** The raster of one island as built: the grid that fits the cell budget, the marked cells, the clearance
    of every cell and the strict area, with the queries the structural checks make. */
module Raster {
  import opened Arith
  import opened Geom
  import opened DistanceTransform
  import opened CellScan

  datatype Option<T> = None | Some(value: T)

  function Padding(halfWidth: real, cell: real): real {
    halfWidth + 2.0 * cell
  }

  /** Cells along one side of the padded box, with one to spare. */
  function SideCells(length: real, halfWidth: real, cell: real): int
    requires cell > 0.0
  {
    Ceil((length + 2.0 * Padding(halfWidth, cell)) / cell) + 1
  }

  function FittedGrid(min: Point, cell: real, halfWidth: real, nx: nat, ny: nat): Grid {
    Grid(Point(min.x - Padding(halfWidth, cell), min.y - Padding(halfWidth, cell)), cell, nx, ny)
  }

  predicate Fits(w: real, h: real, halfWidth: real, cell: real)
    requires cell > 0.0
  {
    SideCells(w, halfWidth, cell) * SideCells(h, halfWidth, cell) <= CELL_BUDGET
  }

  /** The first cell of the coarsening sequence whose grid fits the budget. */
  ghost predicate FirstFit(w: real, h: real, halfWidth: real, base: real, cell: real)
    requires base > 0.0
  {
    exists n: nat :: n < GROW_STEPS && cell == Grown(base, n) && Fits(w, h, halfWidth, Grown(base, n)) &&
      forall m: nat | m < n :: !Fits(w, h, halfWidth, Grown(base, m))
  }

  /** No cell of the sequence fits. */
  ghost predicate NoneFits(w: real, h: real, halfWidth: real, base: real)
    requires base > 0.0
  {
    forall n: nat | n < GROW_STEPS :: !Fits(w, h, halfWidth, Grown(base, n))
  }

  /** The finest cell of the coarsening sequence whose grid fits the budget. */
  method FitGrid(w: real, h: real, halfWidth: real, base: real) returns (r: Option<(real, nat, nat)>)
    requires w >= 0.0 && h >= 0.0 && halfWidth > 0.0 && base > 0.0
    ensures r.None? <==> NoneFits(w, h, halfWidth, base)
    ensures r.Some? ==>
              && r.value.0 >= base && FirstFit(w, h, halfWidth, base, r.value.0)
              && r.value.1 == SideCells(w, halfWidth, r.value.0)
              && r.value.2 == SideCells(h, halfWidth, r.value.0)
              && r.value.1 * r.value.2 <= CELL_BUDGET
  {
    hide Padding, SideCells;
    var cell := base;
    for step := 0 to GROW_STEPS
      invariant cell == Grown(base, step) >= base
      invariant forall m: nat | m < step :: !Fits(w, h, halfWidth, Grown(base, m))
    {
      SideCellsPositive(w, halfWidth, cell);
      SideCellsPositive(h, halfWidth, cell);
      var nx, ny := SideCells(w, halfWidth, cell) - 1, SideCells(h, halfWidth, cell) - 1;
      FewerCells(nx, ny);
      if nx * ny <= CELL_BUDGET {
        if (nx + 1) * (ny + 1) <= CELL_BUDGET {
          assert Fits(w, h, halfWidth, Grown(base, step));
          return Some((cell, nx + 1, ny + 1));
        }
      }
      cell := cell * 1.5;
    }
    return None;
  }

  lemma FewerCells(nx: nat, ny: nat)
    ensures nx * ny <= (nx + 1) * (ny + 1)
  {
  }

  lemma SideCellsPositive(length: real, halfWidth: real, cell: real)
    requires length >= 0.0 && halfWidth > 0.0 && cell > 0.0
    ensures SideCells(length, halfWidth, cell) >= 5
  {
    var total := length + 2.0 * Padding(halfWidth, cell);
    DivMul(total, cell);
    LessByFactor(4.0, total / cell, cell);
    CeilBound(total / cell);
  }

  // ----- the padding leaves a ring of background -----

  predicate InBounds(seg: Segment, min: Point, max: Point) {
    InBox(seg.start, min, max) && InBox(seg.end, min, max)
  }

  /** Every lattice cell near a segment of the box is in the grid, two cells away from its border. */
  lemma NearCellsInsideRing(seg: Segment, min: Point, max: Point, halfWidth: real, g: Grid, i: int, j: int)
    requires g.cell > 0.0 && halfWidth > 0.0 && InBounds(seg, min, max)
    requires g.nx == SideCells(max.x - min.x, halfWidth, g.cell) && g.ny == SideCells(max.y - min.y, halfWidth, g.cell)
    requires g == FittedGrid(min, g.cell, halfWidth, g.nx, g.ny)
    requires Near(g, seg, halfWidth, i, j)
    ensures 2 <= i < g.nx - 3 && 2 <= j < g.ny - 3
  {
    hide Sq, Mix, ClosestT, Axis, SideCells, Padding;
    var c := g.Center(i, j);
    var t := ClosestT(c, seg.start, seg.end);
    Between(seg.start.x, seg.end.x, t);
    Between(seg.start.y, seg.end.y, t);
    ComponentBound(Mix(seg.start.x, seg.end.x, t) - c.x, Mix(seg.start.y, seg.end.y, t) - c.y, halfWidth);
    ComponentBound(Mix(seg.start.y, seg.end.y, t) - c.y, Mix(seg.start.x, seg.end.x, t) - c.x, halfWidth);
    AxisInsideRing(min.x, max.x, halfWidth, g.cell, i);
    AxisInsideRing(min.y, max.y, halfWidth, g.cell, j);
  }

  lemma AxisInsideRing(lo: real, hi: real, halfWidth: real, cell: real, i: int)
    requires cell > 0.0 && halfWidth > 0.0
    requires lo - halfWidth <= Axis(lo - Padding(halfWidth, cell), cell, i) <= hi + halfWidth
    ensures 2 <= i < SideCells(hi - lo, halfWidth, cell) - 3
  {
    var total := (hi - lo) + 2.0 * Padding(halfWidth, cell);
    DivMul(total, cell);
    CeilBound(total / cell);
    InsideRing(total / cell, total, lo, hi, halfWidth, cell, i);
  }

  lemma InsideRing(cells: real, total: real, lo: real, hi: real, halfWidth: real, cell: real, i: int)
    requires cell > 0.0 && cells * cell == total && total == (hi - lo) + 2.0 * halfWidth + 4.0 * cell
    requires lo - halfWidth <= lo - halfWidth - 2.0 * cell + (i as real + 0.5) * cell <= hi + halfWidth
    ensures 2.0 <= i as real + 0.5 <= cells - 2.0
  {
    LessByFactor(2.0, i as real + 0.5, cell);
    LessByFactor(i as real + 0.5, cells - 2.0, cell);
  }

  // ----- the raster object -----

  class Raster {
    var cell: real
    var origin: Point
    var nx: nat
    var ny: nat
    var solid: array<bool>
    var clearance: array<real>
    var area: real
    var coarsened: bool
    var truncated: bool

    function TheGrid(): Grid
      reads this
    {
      Grid(origin, cell, nx, ny)
    }

    ghost predicate Valid()
      reads this, solid, clearance
    {
      && cell > 0.0 && nx <= CELL_BUDGET && ny <= CELL_BUDGET
      && IsGrid(solid.Length, nx, ny) && clearance.Length == solid.Length
    }

    /** No material anywhere. */
    constructor Empty(cell: real)
      requires cell > 0.0
      ensures Valid() && fresh(solid) && fresh(clearance)
      ensures this.cell == cell && nx == 0 && ny == 0 && area == 0.0 && !coarsened && !truncated
    {
      this.cell, origin, nx, ny := cell, Point(0.0, 0.0), 0, 0;
      solid, clearance := new bool[0], new real[0];
      area, coarsened, truncated := 0.0, false, false;
      new;
      GridOfSize(0, 0);
    }

    /** Nothing marked yet. */
    constructor Blank(g: Grid, coarsened: bool)
      requires g.cell > 0.0 && g.nx <= CELL_BUDGET && g.ny <= CELL_BUDGET
      ensures Valid() && fresh(solid) && fresh(clearance)
      ensures TheGrid() == g && this.coarsened == coarsened && !truncated && area == 0.0
      ensures solid.Length == g.nx * g.ny
      ensures forall k | 0 <= k < solid.Length :: !solid[k]
    {
      cell, origin, nx, ny := g.cell, g.origin, g.nx, g.ny;
      solid, clearance := new bool[g.nx * g.ny](_ => false), new real[g.nx * g.ny](_ => 0.0);
      area, this.coarsened, truncated := 0.0, coarsened, false;
      new;
      GridOfSize(g.nx, g.ny);
    }

    /** Mark the cells near every segment.  Without truncation exactly the near cells end up solid; the test
        budget can only leave cells out. */
    method Fill(segs: seq<Segment>, halfWidth: real, root: real -> real)
      requires Valid() && IsRoot(root) && 0.0 < halfWidth <= 3.0 * cell
      requires !truncated && forall k | 0 <= k < solid.Length :: !solid[k]
      modifies this`truncated, solid
      ensures Marks(TheGrid(), segs, halfWidth, solid[..], !truncated)
      ensures Work(segs, cell, root) <= TEST_BUDGET as real ==> !truncated
    {
      hide CellIndex, CellX, CellY, Near, IsRoot, Work, SegmentWork;
      var g := TheGrid();
      var tests: nat := 0;
      NoWork(cell, root);
      for s := 0 to |segs|
        invariant tests <= TEST_BUDGET && !truncated && tests as real <= Work(segs[..s], cell, root)
        invariant Marks(g, segs[..s], halfWidth, solid[..], true)
      {
        ghost var before := solid[..];
        WorkOfPrefix(segs, s, cell, root);
        WorkGrows(segs, s + 1, cell, root);
        tests := ScanSegment(g, segs[s], halfWidth, halfWidth, root, solid, tests);
        MarksGrow(g, segs, halfWidth, before, solid[..], s, tests <= TEST_BUDGET);
        if tests > TEST_BUDGET {
          MarksOfPrefix(g, segs, halfWidth, solid[..], s + 1);
          truncated := true;
          return;
        }
      }
      assert segs[..|segs|] == segs;
    }

    /** The separate area pass; a sweep cut short marks the raster truncated. */
    method MeasureArea(segs: seq<Segment>, min: Point, max: Point, halfWidth: real, root: real -> real)
      requires halfWidth > 0.0 && IsRoot(root)
      modifies this`area, this`truncated
      ensures old(truncated) ==> truncated
      ensures !old(truncated) && AreaWorkFits(segs, min, max, halfWidth, root) ==> !truncated
      ensures HasAreaOf(area, !truncated, segs, min, max, halfWidth)
    {
      hide IsRoot, CountedArea, AreaGrid, AreaWorkFits;
      var counted, cut, g, strict := StrictArea(segs, min, max, halfWidth, root);
      area := counted;
      truncated := truncated || cut;
      assert IsAreaOf(area, !truncated, g, segs, min, max, halfWidth);
    }

    /** Rasterize `segs` over the box min..max as capsules of radius `halfWidth`. */
    static method Build(segs: seq<Segment>, min: Point, max: Point, halfWidth: real, root: real -> real) returns (r: Raster)
      requires IsRoot(root)
      ensures fresh(r) && fresh(r.solid) && fresh(r.clearance) && r.Valid()
      ensures halfWidth <= 0.0 || max.x < min.x || max.y < min.y ==> r.nx == 0 && r.ny == 0 && r.area == 0.0
      ensures halfWidth > 0.0 && max.x >= min.x && max.y >= min.y ==>
                (r.nx == 0 <==> NoneFits(max.x - min.x, max.y - min.y, halfWidth, BaseCell(halfWidth)))
      ensures r.nx > 0 && Work(segs, r.cell, root) <= TEST_BUDGET as real && AreaWorkFits(segs, min, max, halfWidth, root) ==> !r.truncated
      ensures r.nx == 0 || r.IsRasterOf(segs, min, max, halfWidth, root)
    {
      hide IsRoot, CellIndex, CellX, CellY, IsGrid, IsClearance, SideCells, HasAreaOf, Padding, FirstFit, NoneFits, Work, AreaWorkFits;
      var base := BaseCell(halfWidth);
      var w, h := max.x - min.x, max.y - min.y;
      if halfWidth <= 0.0 || w < 0.0 || h < 0.0 {
        r := new Raster.Empty(base);
        return;
      }
      var fit := FitGrid(w, h, halfWidth, base);
      if fit.None? {
        r := new Raster.Empty(base);
        return;
      }
      var (cell, nx, ny) := fit.value;
      SideCellsPositive(w, halfWidth, cell);
      SideCellsPositive(h, halfWidth, cell);
      FactorBelow(nx, ny);
      r := new Raster.Blank(FittedGrid(min, cell, halfWidth, nx, ny), cell > base);
      r.Fill(segs, halfWidth, root);
      GridOfSize(nx, ny);
      r.clearance := ClearanceField(r.solid[..], nx, ny, cell, root);
      r.MeasureArea(segs, min, max, halfWidth, root);
    }

    /** Whether `p` lies on the island's material, by the midpoint rule. */
    function IsMaterial(p: Point): bool
      requires Valid()
      reads this, solid, clearance
    {
      var (i, j) := TheGrid().CellOf(p);
      0 <= i < nx && 0 <= j < ny && solid[CellIndex(nx, i, j)]
    }

    /** The clearance stored for the cell holding `p`; 0 off the grid. */
    function ClearanceAt(p: Point): real
      requires Valid()
      reads this, solid, clearance
    {
      var (i, j) := TheGrid().CellOf(p);
      if 0 <= i < nx && 0 <= j < ny then clearance[CellIndex(nx, i, j)] else 0.0
    }

    /** What `Build` promises of a raster with cells. */
    ghost predicate IsRasterOf(segs: seq<Segment>, min: Point, max: Point, halfWidth: real, root: real -> real)
      reads this, solid, clearance
    {
      && Valid() && 0.0 < halfWidth <= 3.0 * cell
      && nx == SideCells(max.x - min.x, halfWidth, cell) && ny == SideCells(max.y - min.y, halfWidth, cell)
      && nx * ny <= CELL_BUDGET && TheGrid() == FittedGrid(min, cell, halfWidth, nx, ny)
      && FirstFit(max.x - min.x, max.y - min.y, halfWidth, BaseCell(halfWidth), cell)
      && coarsened == (cell > BaseCell(halfWidth))
      && Marks(TheGrid(), segs, halfWidth, solid[..], !truncated)
      && (forall i, j | 0 <= i < nx && 0 <= j < ny ::
            IsClearance(solid[..], nx, ny, i, j, clearance[CellIndex(nx, i, j)], cell, root))
      && HasAreaOf(area, !truncated, segs, min, max, halfWidth)
    }
  }

  /** `area` is at most the area of the strictly inside cells of `g`, and exactly that of the finest grid when `exact`. */
  ghost predicate IsAreaOf(area: real, exact: bool, g: Grid, segs: seq<Segment>, min: Point, max: Point, halfWidth: real)
    requires g.cell > 0.0
  {
    var strict := StrictRadius(halfWidth, g.cell);
    && g == AreaGrid(min, max, halfWidth, BaseCell(halfWidth), g.cell)
    && 0.0 <= area <= CountedArea(g, segs, strict) && (area > 0.0 ==> strict > 0.0)
    && (exact ==> g.cell == BaseCell(halfWidth) && area == CountedArea(g, segs, strict))
  }

  ghost predicate HasAreaOf(area: real, exact: bool, segs: seq<Segment>, min: Point, max: Point, halfWidth: real) {
    exists g: Grid :: g.cell > 0.0 && IsAreaOf(area, exact, g, segs, min, max, halfWidth)
  }

  lemma FactorBelow(nx: nat, ny: nat)
    requires nx > 0 && ny > 0
    ensures nx <= nx * ny && ny <= nx * ny
  {
  }

  // ----- what the readings mean -----

  /** The padding guarantees background: the corner cell of a built raster is never solid. */
  lemma PaddingIsBackground(r: Raster, segs: seq<Segment>, min: Point, max: Point, halfWidth: real, root: real -> real)
    requires r.IsRasterOf(segs, min, max, halfWidth, root) && r.nx > 0 && r.ny > 0
    requires forall s | 0 <= s < |segs| :: InBounds(segs[s], min, max)
    ensures Background(r.solid[..], r.nx, r.ny, 0, 0)
  {
    hide Near, SideCells, FirstFit, CellIndex, CellX, CellY, IsClearance, HasAreaOf;
    var g := r.TheGrid();
    if NearAny(g, segs, halfWidth, 0, 0) {
      var s :| 0 <= s < |segs| && Near(g, segs[s], halfWidth, 0, 0);
      NearCellsInsideRing(segs[s], min, max, halfWidth, g, 0, 0);
    }
    assert CellIndex(r.nx, 0, 0) < r.solid.Length;
  }

  /** The midpoint rule, for every point of the plane: unless the fill was truncated, a point is material exactly when
      the centre of its lattice cell is within the half width of a segment; truncated, only then. */
  lemma MaterialByMidpoint(r: Raster, segs: seq<Segment>, min: Point, max: Point, halfWidth: real, root: real -> real, p: Point)
    requires r.IsRasterOf(segs, min, max, halfWidth, root)
    requires forall s | 0 <= s < |segs| :: InBounds(segs[s], min, max)
    ensures var (i, j) := r.TheGrid().CellOf(p);
            && (r.IsMaterial(p) ==> NearAny(r.TheGrid(), segs, halfWidth, i, j))
            && (!r.truncated && NearAny(r.TheGrid(), segs, halfWidth, i, j) ==> r.IsMaterial(p))
  {
    hide Near, SideCells, CellIndex, CellX, CellY, IsClearance, HasAreaOf, FirstFit;
    var g := r.TheGrid();
    var (i, j) := g.CellOf(p);
    if NearAny(g, segs, halfWidth, i, j) {
      var s :| 0 <= s < |segs| && Near(g, segs[s], halfWidth, i, j);
      NearCellsInsideRing(segs[s], min, max, halfWidth, g, i, j);
    }
  }

  // ----- one bead -----

  /** A 10 mm bead, 0.45 mm wide. */
  const BEAD := [Segment(Point(0.0, 0.0), Point(10.0, 0.0))]
  const BEAD_START := Point(0.0, 0.0)
  const BEAD_END := Point(10.0, 0.0)

  /** Its fill, and so its area, takes fewer than 11000 tests. */
  lemma OneBeadWork(root: real -> real)
    requires IsRoot(root)
    ensures Work(BEAD, 0.075, root) <= 11000.0
  {
    assert Dist2(BEAD_START, BEAD_END) == Sq(10.0) && Sq(10.0) == 100.0;
    RootOf(root, 100.0);
    if root(100.0) > 10.0 { SqStrict(10.0, root(100.0)); }
    assert BEAD[..0] == [] && Work([], 0.075, root) == 0.0;
    assert Work(BEAD, 0.075, root) == SegmentWork(BEAD[0], 0.075, root);
    assert root(100.0) / 0.075 <= 134.0;
  }

  lemma OneBeadAreaFits(root: real -> real)
    requires IsRoot(root)
    ensures AreaWorkFits(BEAD, BEAD_START, BEAD_END, 0.225, root)
  {
    OneBeadWork(root);
    OneBeadAreaGrid();
    hide Work, IsRoot, AreaGrid, FewTiles;
    assert Load(1, Work(BEAD, 0.075, root)) == Work(BEAD, 0.075, root);
  }

  lemma OneBeadAreaGrid()
    ensures BaseCell(0.225) == 0.075 && StrictRadius(0.225, 0.075) > 0.0 && FewTiles(10.6, 0.6, 0.075)
    ensures var g := AreaGrid(BEAD_START, BEAD_END, 0.225, 0.075, 0.075); TileCount(g.nx) * TileCount(g.ny) == 1
  {
    assert CellsAcross(10.6, 0.075) == 142 && CellsAcross(0.6, 0.075) == 8;
    assert CellsAcross(10.6, 75.0) == 1 && CellsAcross(0.6, 75.0) == 1;
  }

  lemma OneBeadGrid()
    ensures BaseCell(0.225) == 0.075 && !NoneFits(10.0, 0.0, 0.225, 0.075)
    ensures forall cell | FirstFit(10.0, 0.0, 0.225, 0.075, cell) :: cell == 0.075
  {
    assert SideCells(10.0, 0.225, 0.075) == 145 && SideCells(0.0, 0.225, 0.075) == 11;
    assert Grown(0.075, 0) == 0.075 && Fits(10.0, 0.0, 0.225, Grown(0.075, 0));
    hide SideCells, Fits, Grown;
  }

  /** A point level with part of a horizontal bead, within the half width of it. */
  lemma LevelBead(c: Point, x1: real, y: real, halfWidth: real)
    requires x1 > 0.0 && 0.0 <= c.x <= x1 && -halfWidth <= y - c.y <= halfWidth
    ensures PointSegDist2(c, Point(0.0, y), Point(x1, y)) <= Sq(halfWidth)
  {
    var t := FractionOf(c.x, x1);
    ClosestIsNearest(c, Point(0.0, y), Point(x1, y), t);
    MixSame(y, t);
    hide ClosestT, Mix;
    SqBelow(y - c.y, halfWidth);
    LevelDistance(c, y);
    assert halfWidth * halfWidth == Sq(halfWidth);
  }

  lemma FractionOf(x: real, x1: real) returns (t: real)
    requires x1 > 0.0 && 0.0 <= x <= x1
    ensures 0.0 <= t <= 1.0 && Mix(0.0, x1, t) == x
  {
    t := Geom.Reach(0.0, x1, x);
  }

  lemma LevelDistance(c: Point, y: real)
    ensures Dist2(c, Point(c.x, y)) == Sq(y - c.y)
  {
  }

  lemma OneBeadCell(g: Grid)
    requires g.cell == 0.075 && g.origin == Point(-0.375, -0.375)
    ensures NearAny(g, BEAD, 0.225, g.CellOf(Point(5.0, 0.0)).0, g.CellOf(Point(5.0, 0.0)).1)
  {
    var p := Point(5.0, 0.0);
    assert g.CellOf(p) == (71, 5);
    CellOfContains(g, p);
    LevelBead(g.Center(71, 5), 10.0, 0.0, 0.225);
    assert Near(g, BEAD[0], 0.225, 71, 5);
  }

  /** The raster of one bead is neither truncated nor coarsened, and has material where the bead is. */
  method RasterOfOneBead(root: real -> real) returns (r: Raster)
    requires IsRoot(root)
    ensures r.Valid() && r.nx > 0 && !r.truncated && !r.coarsened && r.IsMaterial(Point(5.0, 0.0))
  {
    hide IsRoot, NoneFits, FirstFit, AreaWorkFits, SideCells, Near, Marks, IsClearance, HasAreaOf, Work, IsGrid, CellIndex, CellX, CellY;
    r := Raster.Build(BEAD, BEAD_START, BEAD_END, 0.225, root);
    OneBeadGrid();
    OneBeadAreaFits(root);
    OneBeadWork(root);
    MaterialByMidpoint(r, BEAD, BEAD_START, BEAD_END, 0.225, root, Point(5.0, 0.0));
    OneBeadCell(r.TheGrid());
  }

  /** Hence every stored clearance is that of a true nearest background cell, never of the sentinel. */
  lemma ClearanceIsOfNearestBackground(r: Raster, segs: seq<Segment>, min: Point, max: Point, halfWidth: real, root: real -> real,
                                       i: nat, j: nat) returns (p: nat, q: nat)
    requires r.IsRasterOf(segs, min, max, halfWidth, root) && i < r.nx && j < r.ny
    requires forall s | 0 <= s < |segs| :: InBounds(segs[s], min, max)
    ensures Background(r.solid[..], r.nx, r.ny, p, q)
    ensures forall p', q' | Background(r.solid[..], r.nx, r.ny, p', q') :: CellGap2(i, j, p, q) <= CellGap2(i, j, p', q')
    ensures CellIndex(r.nx, i, j) < r.clearance.Length
    ensures r.clearance[CellIndex(r.nx, i, j)] == ToClearance(root, CellGap2(i, j, p, q), r.cell)
  {
    hide Near, SideCells, FirstFit, CellIndex, CellX, CellY, HasAreaOf, CellGap2, ToClearance, Marks;
    PaddingIsBackground(r, segs, min, max, halfWidth, root);
    assert IsClearance(r.solid[..], r.nx, r.ny, i, j, r.clearance[CellIndex(r.nx, i, j)], r.cell, root);
    var v :| IsBackgroundDistance2(r.solid[..], r.nx, r.ny, i, j, v) && r.clearance[CellIndex(r.nx, i, j)] == ToClearance(root, v, r.cell);
    p, q :| Background(r.solid[..], r.nx, r.ny, p, q) && v == CellGap2(i, j, p, q);
  }

  /** The containing cell's centre is within half a cell in each coordinate. */
  lemma CellOfContains(g: Grid, p: Point)
    requires g.cell > 0.0
    requires 0 <= g.CellOf(p).0 < CELL_BUDGET && 0 <= g.CellOf(p).1 < CELL_BUDGET
    ensures var c := g.Center(g.CellOf(p).0, g.CellOf(p).1);
            && -g.cell <= 2.0 * (p.x - c.x) <= g.cell && -g.cell <= 2.0 * (p.y - c.y) <= g.cell
  {
    AxisContains(g.origin.x, g.cell, p.x);
    AxisContains(g.origin.y, g.cell, p.y);
  }

  lemma AxisContains(origin: real, cell: real, v: real)
    requires cell > 0.0 && 0 <= AxisCell(origin, cell, v) < CELL_BUDGET
    ensures -cell <= 2.0 * (v - Axis(origin, cell, AxisCell(origin, cell, v))) <= cell
  {
    var u := (v - origin) / cell;
    DivMul(v - origin, cell);
    FloorContains(origin, cell, v, u, u.Floor);
  }

  lemma FloorContains(origin: real, cell: real, v: real, u: real, i: int)
    requires cell > 0.0 && u * cell == v - origin && i as real <= u <= i as real + 1.0
    ensures -cell <= 2.0 * (v - Axis(origin, cell, i)) <= cell
  {
    MulNonneg(u - i as real, cell);
    MulNonneg(i as real + 1.0 - u, cell);
  }
}
