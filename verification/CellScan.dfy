/** The material raster of one island: sampled neighbourhood scans that mark the cells near a segment,
    the clearance field over the marked cells, and the tiled strict area count. */
module CellScan {
  import opened Arith
  import opened Geom
  import opened DistanceTransform

  const CELL_BUDGET := 1_000_000
  const TEST_BUDGET := 40_000_000
  const MIN_CELL: real := 0.01
  /** A quarter of the largest 64-bit index. */
  const INDEX_LIMIT: int := 0x1FFF_FFFF_FFFF_FFFF

  datatype Segment = Segment(start: Point, end: Point)

  /** A uniform grid: `origin` is the lower-left corner of cell (0, 0). */
  datatype Grid = Grid(origin: Point, cell: real, nx: nat, ny: nat) {
    function Center(i: int, j: int): Point {
      Point(Axis(origin.x, cell, i), Axis(origin.y, cell, j))
    }

    function CellOf(p: Point): (int, int) {
      (AxisCell(origin.x, cell, p.x), AxisCell(origin.y, cell, p.y))
    }
  }

  /** Centre coordinate of cell `i` along one axis. */
  function Axis(origin: real, cell: real, i: int): real {
    origin + (i as real + 0.5) * cell
  }

  /** Index of the cell holding coordinate `v`, clamped so that neighbourhood offsets cannot overflow. */
  function AxisCell(origin: real, cell: real, v: real): int {
    if cell == 0.0 then 0 else ClampIndex(((v - origin) / cell).Floor)
  }

  function ClampIndex(i: int): int {
    if i < -INDEX_LIMIT then -INDEX_LIMIT else if i > INDEX_LIMIT then INDEX_LIMIT else i
  }

  function Ceil(v: real): int {
    -((-v).Floor)
  }

  /** The cell centre lies within `radius` of the segment. */
  predicate Near(g: Grid, seg: Segment, radius: real, i: int, j: int) {
    PointSegDist2(g.Center(i, j), seg.start, seg.end) <= Sq(radius)
  }

  predicate NearAny(g: Grid, segs: seq<Segment>, radius: real, i: int, j: int) {
    exists s | 0 <= s < |segs| :: Near(g, segs[s], radius, i, j)
  }

  // ----- why the samples miss nothing -----

  /** How many cells a radius can reach from the cell of a sample. */
  function Reach(halfWidth: real, cell: real): int
    requires cell > 0.0
  {
    Ceil(halfWidth / cell) + 1
  }

  /** Samples are at most one cell apart along the segment. */
  function Steps(seg: Segment, cell: real, root: real -> real): int
    requires cell > 0.0
  {
    var n := Ceil(root(Dist2(seg.start, seg.end)) / cell);
    if n >= 1 then n else 1
  }

  /** n cells. */
  function Span(n: int, cell: real): real {
    n as real * cell
  }

  function Sample(seg: Segment, k: int, steps: int): Point
    requires steps >= 1
  {
    Lerp(seg.start, seg.end, k as real / steps as real)
  }

  predicate InReach(g: Grid, p: Point, reach: int, i: int, j: int) {
    g.CellOf(p).0 - reach <= i <= g.CellOf(p).0 + reach && g.CellOf(p).1 - reach <= j <= g.CellOf(p).1 + reach
  }

  lemma CeilBound(v: real)
    ensures v <= Ceil(v) as real < v + 1.0
  {
  }

  /** Component bound from a squared length: |u| <= r. */
  lemma ComponentBound(u: real, v: real, r: real)
    requires r >= 0.0 && Sq(u) + Sq(v) <= Sq(r)
    ensures -r <= u <= r
  {
    if u > r {
      SqStrict(r, u);
    } else if u < -r {
      SqStrict(r, -u);
      SqNeg(u);
    }
  }

  lemma StepsCover(seg: Segment, cell: real, root: real -> real, n: int)
    requires cell > 0.0 && IsRoot(root) && n == Steps(seg, cell, root)
    ensures n >= 1
    ensures Dist2(seg.start, seg.end) <= Sq(Span(n, cell))
  {
    hide Sq, Dist2, IsRoot, Span;
    var len2 := Dist2(seg.start, seg.end);
    Dist2Nonneg(seg.start, seg.end);
    RootOf(root, len2);
    CeilBound(root(len2) / cell);
    DivMul(root(len2), cell);
    SpanCovers(root(len2) / cell, n, cell, root(len2));
    SqMonotone(root(len2), Span(n, cell));
  }

  lemma SpanCovers(cells: real, n: int, cell: real, length: real)
    requires cells <= n as real && cell >= 0.0 && cells * cell == length
    ensures length <= Span(n, cell)
  {
    MulLe(cells, n as real, cell);
  }

  /** Index of the sample nearest to parameter t. */
  ghost function SampleIndex(t: real, n: int): int {
    (t * n as real + 0.5).Floor
  }

  /** That sample is at most half a cell away in each coordinate. */
  lemma HalfCell(d: real, t: real, n: int, cell: real, k: int)
    requires 0.0 <= t <= 1.0 && n >= 1 && cell > 0.0 && -Span(n, cell) <= d <= Span(n, cell)
    requires k == SampleIndex(t, n)
    ensures 0 <= k <= n && -cell <= 2.0 * (d * (t - k as real / n as real)) <= cell
  {
    MulNonneg(t, n as real);
    MulNonneg(1.0 - t, n as real);
    DivMul(k as real, n as real);
    HalfOfSpan(d, t - k as real / n as real, n as real, cell, t * n as real - k as real);
  }

  lemma HalfOfSpan(d: real, e: real, m: real, cell: real, me: real)
    requires cell > 0.0 && -(m * cell) <= d <= m * cell && e * m == me && -1.0 <= 2.0 * me <= 1.0
    ensures -cell <= 2.0 * (d * e) <= cell
  {
    var y := if e >= 0.0 then e else -e;
    MulNonneg(y, m * cell - d);
    MulNonneg(y, m * cell + d);
    MulNonneg(cell, 1.0 - 2.0 * me);
    MulNonneg(cell, 1.0 + 2.0 * me);
    MulZero(cell, e * m - me);
  }

  /** A centre within hw + cell/2 of a sample, along one axis, has an index within reach of the sample's. */
  lemma AxisReach(origin: real, cell: real, v: real, i: int, halfWidth: real, n: nat)
    requires cell > 0.0 && 0.0 <= halfWidth <= 3.0 * cell && 0 <= i < n <= CELL_BUDGET
    requires -(2.0 * halfWidth + cell) <= 2.0 * (Axis(origin, cell, i) - v) <= 2.0 * halfWidth + cell
    ensures AxisCell(origin, cell, v) - Reach(halfWidth, cell) <= i <= AxisCell(origin, cell, v) + Reach(halfWidth, cell)
  {
    var u := (v - origin) / cell;
    var w := halfWidth / cell;
    DivMul(v - origin, cell);
    DivMul(halfWidth, cell);
    GapInCells(origin, cell, v, i, halfWidth, u, w);
    CeilBound(w);
    var c := u.Floor;
    assert c as real - Ceil(w) as real - 1.0 <= i as real <= c as real + Ceil(w) as real + 1.0;
    assert c - Ceil(w) - 1 <= i <= c + Ceil(w) + 1;
  }

  lemma GapInCells(origin: real, cell: real, v: real, i: int, halfWidth: real, u: real, w: real)
    requires cell > 0.0 && u * cell == v - origin && w * cell == halfWidth && halfWidth <= 3.0 * cell
    requires -(2.0 * halfWidth + cell) <= 2.0 * (Axis(origin, cell, i) - v) <= 2.0 * halfWidth + cell
    ensures -w - 0.5 <= i as real + 0.5 - u <= w + 0.5 && w <= 3.0
  {
    LessByFactor(i as real + 0.5 - u, w + 0.5, cell);
    LessByFactor(-w - 0.5, i as real + 0.5 - u, cell);
    LessByFactor(w, 3.0, cell);
  }

  lemma MixDifference(u: real, v: real, t: real, s: real)
    ensures Mix(u, v, t) - Mix(u, v, s) == (v - u) * (t - s)
  {
  }

  /** Every cell whose centre is within the half width of a segment is in reach of one of its samples. */
  lemma SomeSampleReaches(g: Grid, seg: Segment, halfWidth: real, radius: real, root: real -> real, i: nat, j: nat) returns (k: int)
    requires g.cell > 0.0 && 0.0 <= radius <= halfWidth <= 3.0 * g.cell && IsRoot(root)
    requires i < g.nx <= CELL_BUDGET && j < g.ny <= CELL_BUDGET && Near(g, seg, radius, i, j)
    ensures 0 <= k <= Steps(seg, g.cell, root)
    ensures Steps(seg, g.cell, root) >= 1
    ensures InReach(g, Sample(seg, k, Steps(seg, g.cell, root)), Reach(halfWidth, g.cell), i, j)
  {
    hide Sq, Mix, ClosestT, IsRoot, Axis, AxisCell, Span, Steps;
    var a, b, c := seg.start, seg.end, g.Center(i, j);
    var t := ClosestT(c, a, b);
    var n := Steps(seg, g.cell, root);
    StepsCover(seg, g.cell, root, n);
    ComponentBound(Mix(a.x, b.x, t) - c.x, Mix(a.y, b.y, t) - c.y, radius);
    ComponentBound(Mix(a.y, b.y, t) - c.y, Mix(a.x, b.x, t) - c.x, radius);
    k := SampleIndex(t, n);
    StepGap(a.x, b.x, b.y - a.y, t, g.cell, n);
    StepGap(a.y, b.y, b.x - a.x, t, g.cell, n);
    var p := Sample(seg, k, n);
    AxisReach(g.origin.x, g.cell, p.x, i, halfWidth, g.nx);
    AxisReach(g.origin.y, g.cell, p.y, j, halfWidth, g.ny);
  }

  lemma StepGap(u: real, v: real, other: real, t: real, cell: real, n: int)
    requires 0.0 <= t <= 1.0 && n >= 1 && cell > 0.0 && Sq(v - u) + Sq(other) <= Sq(Span(n, cell))
    ensures var k := SampleIndex(t, n);
            0 <= k <= n && -cell <= 2.0 * (Mix(u, v, t) - Mix(u, v, k as real / n as real)) <= cell
  {
    hide Sq, Mix, Span;
    var k := SampleIndex(t, n);
    SpanCovers(0.0, n, cell, 0.0);
    ComponentBound(v - u, other, Span(n, cell));
    HalfCell(v - u, t, n, cell, k);
    MixDifference(u, v, t, k as real / n as real);
  }

  // ----- the scans -----

  /** Cells were only added, and only near the segment. */
  ghost predicate AddedNear(g: Grid, seg: Segment, radius: real, before: seq<bool>, after: seq<bool>)
    requires IsGrid(|before|, g.nx, g.ny) && |after| == |before|
  {
    forall i, j | 0 <= i < g.nx && 0 <= j < g.ny ::
      && (before[CellIndex(g.nx, i, j)] ==> after[CellIndex(g.nx, i, j)])
      && (after[CellIndex(g.nx, i, j)] ==> before[CellIndex(g.nx, i, j)] || Near(g, seg, radius, i, j))
  }

  /** Flat index of grid cell (i, j), when it is inside the grid. */
  function Index(g: Grid, i: int, j: int): (r: int)
    ensures r == -1 <==> !(0 <= i < g.nx && 0 <= j < g.ny)
  {
    if i < 0 || j < 0 || i >= g.nx || j >= g.ny then -1 else CellIndex(g.nx, i, j)
  }

  /** Test one row of the cells in reach of a sample; gives up once the test budget is passed. */
  method ScanRow(g: Grid, seg: Segment, ci: int, j: int, reach: int, radius: real, occupied: array<bool>, tests: nat)
    returns (tests': nat)
    requires IsGrid(occupied.Length, g.nx, g.ny) && tests <= TEST_BUDGET && reach >= 0
    modifies occupied
    ensures tests' <= TEST_BUDGET + 1 && tests' <= tests + 2 * reach + 1
    ensures AddedNear(g, seg, radius, old(occupied[..]), occupied[..])
    ensures tests' <= TEST_BUDGET && 0 <= j < g.ny ==>
              forall i | 0 <= i < g.nx && ci - reach <= i <= ci + reach && Near(g, seg, radius, i, j) :: occupied[CellIndex(g.nx, i, j)]
  {
    hide CellIndex, CellX, CellY, Near;
    tests' := tests;
    for di := -reach to reach + 1
      invariant tests' <= TEST_BUDGET && tests' <= tests + di + reach
      invariant AddedNear(g, seg, radius, old(occupied[..]), occupied[..])
      invariant 0 <= j < g.ny ==>
                  forall i | 0 <= i < g.nx && ci - reach <= i < ci + di && Near(g, seg, radius, i, j) :: occupied[CellIndex(g.nx, i, j)]
    {
      var idx := Index(g, ci + di, j);
      if idx == -1 || occupied[idx] {
        continue;
      }
      tests' := tests' + 1;
      if tests' > TEST_BUDGET {
        return;
      }
      if Near(g, seg, radius, ci + di, j) {
        occupied[idx] := true;
      }
    }
  }

  /** Test all the cells in reach of one sample. */
  method ScanAround(g: Grid, seg: Segment, p: Point, reach: int, radius: real, occupied: array<bool>, tests: nat)
    returns (tests': nat)
    requires IsGrid(occupied.Length, g.nx, g.ny) && tests <= TEST_BUDGET && 0 <= reach <= MAX_REACH
    modifies occupied
    ensures tests' <= TEST_BUDGET + 1 && tests' <= tests + TESTS_PER_SAMPLE
    ensures AddedNear(g, seg, radius, old(occupied[..]), occupied[..])
    ensures tests' <= TEST_BUDGET ==>
              forall i, j | 0 <= i < g.nx && 0 <= j < g.ny && InReach(g, p, reach, i, j) && Near(g, seg, radius, i, j) ::
                occupied[CellIndex(g.nx, i, j)]
  {
    hide CellIndex, CellX, CellY, Near;
    tests' := tests;
    var (ci, cj) := g.CellOf(p);
    for dj := -reach to reach + 1
      invariant tests' <= TEST_BUDGET && tests' <= tests + 9 * (dj + reach)
      invariant AddedNear(g, seg, radius, old(occupied[..]), occupied[..])
      invariant forall i, j | 0 <= i < g.nx && 0 <= j < g.ny && InReach(g, p, reach, i, j) && j < cj + dj && Near(g, seg, radius, i, j) ::
                  occupied[CellIndex(g.nx, i, j)]
    {
      tests' := ScanRow(g, seg, ci, cj + dj, reach, radius, occupied, tests');
      if tests' > TEST_BUDGET {
        return;
      }
    }
  }

  /** Test the cells around every sample of one segment: all its near cells end up marked. */
  method ScanSegment(g: Grid, seg: Segment, halfWidth: real, radius: real, root: real -> real, occupied: array<bool>, tests: nat)
    returns (tests': nat)
    requires g.cell > 0.0 && 0.0 <= radius <= halfWidth <= 3.0 * g.cell && IsRoot(root)
    requires g.nx <= CELL_BUDGET && g.ny <= CELL_BUDGET
    requires IsGrid(occupied.Length, g.nx, g.ny) && tests <= TEST_BUDGET
    modifies occupied
    ensures tests' <= TEST_BUDGET + 1 && tests' as real <= tests as real + SegmentWork(seg, g.cell, root)
    ensures AddedNear(g, seg, radius, old(occupied[..]), occupied[..])
    ensures tests' <= TEST_BUDGET ==>
              forall i, j | 0 <= i < g.nx && 0 <= j < g.ny && Near(g, seg, radius, i, j) :: occupied[CellIndex(g.nx, i, j)]
  {
    hide CellIndex, CellX, CellY, Near, IsRoot, InReach, SegmentWork;
    tests' := tests;
    var reach := Reach(halfWidth, g.cell);
    ReachNonneg(halfWidth, g.cell);
    var steps := Steps(seg, g.cell, root);
    StepsCover(seg, g.cell, root, steps);
    SamplesAreFew(seg, g.cell, root, steps);
    for k := 0 to steps + 1
      invariant tests' <= TEST_BUDGET && tests' <= tests + TESTS_PER_SAMPLE * k
      invariant AddedNear(g, seg, radius, old(occupied[..]), occupied[..])
      invariant forall m, i, j | 0 <= m < k && 0 <= i < g.nx && 0 <= j < g.ny && InReach(g, Sample(seg, m, steps), reach, i, j) && Near(g, seg, radius, i, j) ::
                  occupied[CellIndex(g.nx, i, j)]
    {
      tests' := ScanAround(g, seg, Sample(seg, k, steps), reach, radius, occupied, tests');
      if tests' > TEST_BUDGET {
        return;
      }
    }
    forall i, j | 0 <= i < g.nx && 0 <= j < g.ny && Near(g, seg, radius, i, j)
      ensures occupied[CellIndex(g.nx, i, j)]
    {
      var m := SomeSampleReaches(g, seg, halfWidth, radius, root, i, j);
    }
  }

  lemma ReachNonneg(halfWidth: real, cell: real)
    requires cell > 0.0 && 0.0 <= halfWidth <= 3.0 * cell
    ensures 1 <= Reach(halfWidth, cell) <= MAX_REACH
  {
    var w := halfWidth / cell;
    DivMul(halfWidth, cell);
    if w < 0.0 { MulPos(-w, cell); }
    LessByFactor(w, 3.0, cell);
    CeilBound(w);
  }

  // ----- how much work a scan can be -----

  /** With a half width of at most three cells a sample reaches four cells each way: nine rows of nine tests. */
  const MAX_REACH := 4
  const TESTS_PER_SAMPLE := 81

  /** A bound on the tests for one bead: its length in cells, and two more samples. */
  function SegmentWork(seg: Segment, cell: real, root: real -> real): real
    requires cell > 0.0
  {
    81.0 * (root(Dist2(seg.start, seg.end)) / cell + 2.0)
  }

  /** The same for all the beads. */
  function Work(segs: seq<Segment>, cell: real, root: real -> real): real
    requires cell > 0.0
  {
    if segs == [] then 0.0 else Work(segs[..|segs| - 1], cell, root) + SegmentWork(segs[|segs| - 1], cell, root)
  }

  lemma SamplesAreFew(seg: Segment, cell: real, root: real -> real, steps: int)
    requires cell > 0.0 && IsRoot(root) && steps == Steps(seg, cell, root)
    ensures (TESTS_PER_SAMPLE * (steps + 1)) as real <= SegmentWork(seg, cell, root)
    ensures SegmentWork(seg, cell, root) >= 0.0
  {
    var length := root(Dist2(seg.start, seg.end));
    Dist2Nonneg(seg.start, seg.end);
    RootOf(root, Dist2(seg.start, seg.end));
    hide Dist2, IsRoot;
    DivMul(length, cell);
    LessByFactor(0.0, length / cell, cell);
    CeilBound(length / cell);
  }

  lemma NoWork(cell: real, root: real -> real)
    requires cell > 0.0
    ensures forall segs: seq<Segment> :: Work(segs[..0], cell, root) == 0.0
  {
  }

  lemma {:induction false} WorkOfPrefix(segs: seq<Segment>, n: nat, cell: real, root: real -> real)
    requires cell > 0.0 && n < |segs|
    ensures Work(segs[..n + 1], cell, root) == Work(segs[..n], cell, root) + SegmentWork(segs[n], cell, root)
  {
    assert segs[..n + 1][..n] == segs[..n];
  }

  lemma {:induction false} WorkGrows(segs: seq<Segment>, n: nat, cell: real, root: real -> real)
    requires cell > 0.0 && n <= |segs| && IsRoot(root)
    ensures 0.0 <= Work(segs[..n], cell, root) <= Work(segs, cell, root)
    decreases |segs| - n
  {
    WorkNonneg(segs[..n], cell, root);
    if n < |segs| {
      WorkGrows(segs, n + 1, cell, root);
      WorkOfPrefix(segs, n, cell, root);
      SamplesAreFew(segs[n], cell, root, Steps(segs[n], cell, root));
    } else {
      assert segs[..n] == segs;
    }
  }

  lemma {:induction false} WorkNonneg(segs: seq<Segment>, cell: real, root: real -> real)
    requires cell > 0.0 && IsRoot(root)
    ensures Work(segs, cell, root) >= 0.0
  {
    if segs != [] {
      WorkNonneg(segs[..|segs| - 1], cell, root);
      var last := segs[|segs| - 1];
      SamplesAreFew(last, cell, root, Steps(last, cell, root));
    }
  }

  // ----- counting cells -----

  ghost function CountBelow(s: seq<bool>, n: nat): nat
    requires n <= |s|
  {
    if n == 0 then 0 else CountBelow(s, n - 1) + if s[n - 1] then 1 else 0
  }

  method CountTrue(s: seq<bool>) returns (count: nat)
    ensures count == CountBelow(s, |s|)
  {
    count := 0;
    for k := 0 to |s|
      invariant count == CountBelow(s, k)
    {
      if s[k] { count := count + 1; }
    }
  }

  /** Cells of row j with i0 <= i < i1 whose centre is within `radius` of a segment. */
  ghost function RowCount(g: Grid, segs: seq<Segment>, radius: real, i0: int, i1: int, j: int): nat
    decreases i1 - i0
  {
    if i1 <= i0 then 0 else RowCount(g, segs, radius, i0, i1 - 1, j) + if NearAny(g, segs, radius, i1 - 1, j) then 1 else 0
  }

  /** Cells of the rectangle [i0, i1) x [j0, j1) whose centre is within `radius` of a segment. */
  ghost function RectCount(g: Grid, segs: seq<Segment>, radius: real, i0: int, i1: int, j0: int, j1: int): nat
    decreases j1 - j0
  {
    if j1 <= j0 then 0 else RectCount(g, segs, radius, i0, i1, j0, j1 - 1) + RowCount(g, segs, radius, i0, i1, j1 - 1)
  }

  lemma {:induction false} RowCountSplits(g: Grid, segs: seq<Segment>, radius: real, i0: int, i1: int, i2: int, j: int)
    requires i0 <= i1 <= i2
    ensures RowCount(g, segs, radius, i0, i2, j) == RowCount(g, segs, radius, i0, i1, j) + RowCount(g, segs, radius, i1, i2, j)
    decreases i2 - i1
  {
    hide NearAny;
    if i1 < i2 { RowCountSplits(g, segs, radius, i0, i1, i2 - 1, j); }
  }

  lemma {:induction false} RectCountSplitsAcross(g: Grid, segs: seq<Segment>, radius: real, i0: int, i1: int, i2: int, j0: int, j1: int)
    requires i0 <= i1 <= i2
    ensures RectCount(g, segs, radius, i0, i2, j0, j1) ==
            RectCount(g, segs, radius, i0, i1, j0, j1) + RectCount(g, segs, radius, i1, i2, j0, j1)
    decreases j1 - j0
  {
    if j0 < j1 {
      RectCountSplitsAcross(g, segs, radius, i0, i1, i2, j0, j1 - 1);
      RowCountSplits(g, segs, radius, i0, i1, i2, j1 - 1);
    }
  }

  lemma {:induction false} RectCountSplitsUp(g: Grid, segs: seq<Segment>, radius: real, i0: int, i1: int, j0: int, j1: int, j2: int)
    requires j0 <= j1 <= j2
    ensures RectCount(g, segs, radius, i0, i1, j0, j2) ==
            RectCount(g, segs, radius, i0, i1, j0, j1) + RectCount(g, segs, radius, i0, i1, j1, j2)
    decreases j2 - j1
  {
    if j1 < j2 { RectCountSplitsUp(g, segs, radius, i0, i1, j0, j1, j2 - 1); }
  }

  /** A tile is the same cells seen from a shifted origin. */
  ghost predicate IsTile(g: Grid, tile: Grid, ti: int, tj: int) {
    tile.cell == g.cell && tile.origin == Point(g.origin.x + ti as real * g.cell, g.origin.y + tj as real * g.cell)
  }

  lemma TileCenter(g: Grid, tile: Grid, ti: int, tj: int, i: int, j: int)
    requires IsTile(g, tile, ti, tj)
    ensures tile.Center(i, j) == g.Center(ti + i, tj + j)
  {
    ShiftedAxis(g.origin.x, g.cell, ti, i);
    ShiftedAxis(g.origin.y, g.cell, tj, j);
  }

  lemma ShiftedAxis(origin: real, cell: real, t: int, i: int)
    ensures Axis(origin + t as real * cell, cell, i) == Axis(origin, cell, t + i)
  {
  }

  lemma {:induction false} TileRow(g: Grid, tile: Grid, segs: seq<Segment>, radius: real, ti: int, tj: int, i: int, j: int)
    requires IsTile(g, tile, ti, tj) && i >= 0
    ensures RowCount(tile, segs, radius, 0, i, j) == RowCount(g, segs, radius, ti, ti + i, tj + j)
    decreases i
  {
    hide PointSegDist2, Axis;
    if i > 0 {
      TileRow(g, tile, segs, radius, ti, tj, i - 1, j);
      TileCenter(g, tile, ti, tj, i - 1, j);
      assert forall s | 0 <= s < |segs| :: Near(tile, segs[s], radius, i - 1, j) == Near(g, segs[s], radius, ti + i - 1, tj + j);
      assert NearAny(tile, segs, radius, i - 1, j) == NearAny(g, segs, radius, ti + i - 1, tj + j);
    }
  }

  lemma {:induction false} TileRect(g: Grid, tile: Grid, segs: seq<Segment>, radius: real, ti: int, tj: int, w: int, h: int)
    requires IsTile(g, tile, ti, tj) && w >= 0 && h >= 0
    ensures RectCount(tile, segs, radius, 0, w, 0, h) == RectCount(g, segs, radius, ti, ti + w, tj, tj + h)
    decreases h
  {
    hide IsTile;
    if h > 0 {
      TileRect(g, tile, segs, radius, ti, tj, w, h - 1);
      TileRow(g, tile, segs, radius, ti, tj, w, h - 1);
    }
  }

  /** Marks that are only near cells, and all of them when `exact`. */
  ghost predicate Marks(g: Grid, segs: seq<Segment>, radius: real, s: seq<bool>, exact: bool)
    requires IsGrid(|s|, g.nx, g.ny)
  {
    forall i, j | 0 <= i < g.nx && 0 <= j < g.ny ::
      && (s[CellIndex(g.nx, i, j)] ==> NearAny(g, segs, radius, i, j))
      && (exact && NearAny(g, segs, radius, i, j) ==> s[CellIndex(g.nx, i, j)])
  }

  lemma MarkAt(g: Grid, segs: seq<Segment>, radius: real, s: seq<bool>, exact: bool, i: nat, j: nat)
    requires IsGrid(|s|, g.nx, g.ny) && Marks(g, segs, radius, s, exact) && i < g.nx && j < g.ny
    ensures CellIndex(g.nx, i, j) < |s|
    ensures s[CellIndex(g.nx, i, j)] ==> NearAny(g, segs, radius, i, j)
    ensures exact && NearAny(g, segs, radius, i, j) ==> s[CellIndex(g.nx, i, j)]
  {
    hide NearAny, CellIndex, CellX, CellY;
  }

  /** The marks counted in storage order are the cells counted row by row. */
  lemma {:induction false} MarksCounted(g: Grid, segs: seq<Segment>, radius: real, s: seq<bool>, exact: bool, i: nat, j: nat)
    requires IsGrid(|s|, g.nx, g.ny) && Marks(g, segs, radius, s, exact)
    requires (j < g.ny && i <= g.nx) || (j == g.ny && i == 0)
    requires CellIndex(g.nx, i, j) <= |s|
    ensures CountBelow(s, CellIndex(g.nx, i, j)) <= RectCount(g, segs, radius, 0, g.nx, 0, j) + RowCount(g, segs, radius, 0, i, j)
    ensures exact ==> CountBelow(s, CellIndex(g.nx, i, j)) == RectCount(g, segs, radius, 0, g.nx, 0, j) + RowCount(g, segs, radius, 0, i, j)
    decreases j, i
  {
    hide NearAny, CellIndex, CellX, CellY, Marks, IsGrid;
    CellIndexOrder(g.nx, if i > 0 then i - 1 else 0, if i == 0 && j > 0 then j - 1 else j);
    if i > 0 {
      MarkAt(g, segs, radius, s, exact, i - 1, j);
      MarksCounted(g, segs, radius, s, exact, i - 1, j);
    } else if j > 0 {
      MarksCounted(g, segs, radius, s, exact, g.nx, j - 1);
    }
  }

  // ----- the strict area -----

  /** The double nearest to one over the square root of two. */
  const FRAC_1_SQRT_2: real := 6369051672525773.0 / 9007199254740992.0

  /** Side of an area tile: the whole square root of the cell budget. */
  const TILE_SIDE := 1000

  const MAX_AREA_TILES := 256

  function StrictRadius(halfWidth: real, cell: real): real {
    halfWidth - cell * FRAC_1_SQRT_2
  }

  /** The strict radius is the half width less half a cell diagonal, to within a hundred-thousandth of a cell. */
  lemma StrictRadiusIsHalfADiagonalLess(halfWidth: real, cell: real)
    requires cell > 0.0
    ensures halfWidth - 0.70711 * cell <= StrictRadius(halfWidth, cell) <= halfWidth - 0.70710 * cell
  {
    MulLe(0.70710, FRAC_1_SQRT_2, cell);
    MulLe(FRAC_1_SQRT_2, 0.70711, cell);
  }

  /** The capsule of the segment cannot reach the tile. */
  predicate OutOfTile(seg: Segment, tile: Grid, halfWidth: real) {
    var hi := Point(tile.origin.x + Span(tile.nx, tile.cell), tile.origin.y + Span(tile.ny, tile.cell));
    || Max(seg.start.x, seg.end.x) + halfWidth < tile.origin.x || Min(seg.start.x, seg.end.x) - halfWidth > hi.x
    || Max(seg.start.y, seg.end.y) + halfWidth < tile.origin.y || Min(seg.start.y, seg.end.y) - halfWidth > hi.y
  }

  /** Rejected segments have no near cell in the tile. */
  lemma RejectedMissesNothing(seg: Segment, tile: Grid, halfWidth: real, radius: real, i: nat, j: nat)
    requires 0.0 <= radius <= halfWidth && tile.cell > 0.0 && i < tile.nx && j < tile.ny && OutOfTile(seg, tile, halfWidth)
    ensures !Near(tile, seg, radius, i, j)
  {
    hide Sq, Mix, ClosestT, Axis, Span;
    var c := tile.Center(i, j);
    var t := ClosestT(c, seg.start, seg.end);
    CenterInTile(tile.origin.x, tile.cell, i, tile.nx);
    CenterInTile(tile.origin.y, tile.cell, j, tile.ny);
    Between(seg.start.x, seg.end.x, t);
    Between(seg.start.y, seg.end.y, t);
    if Near(tile, seg, radius, i, j) {
      ComponentBound(Mix(seg.start.x, seg.end.x, t) - c.x, Mix(seg.start.y, seg.end.y, t) - c.y, radius);
      ComponentBound(Mix(seg.start.y, seg.end.y, t) - c.y, Mix(seg.start.x, seg.end.x, t) - c.x, radius);
    }
  }

  lemma CenterInTile(origin: real, cell: real, i: nat, n: nat)
    requires cell > 0.0 && i < n
    ensures origin < Axis(origin, cell, i) < origin + Span(n, cell)
  {
    MulPos(i as real + 0.5, cell);
    MulPos(n as real - i as real - 0.5, cell);
  }

  /** Mark and count the strictly inside cells of one tile. */
  method MarkTile(segs: seq<Segment>, tile: Grid, strict: real, halfWidth: real, root: real -> real, tests: nat)
    returns (count: nat, tests': nat)
    requires tile.cell > 0.0 && 0.0 <= strict <= halfWidth <= 3.0 * tile.cell && IsRoot(root)
    requires tile.nx <= CELL_BUDGET && tile.ny <= CELL_BUDGET && tests <= TEST_BUDGET
    ensures tests' <= TEST_BUDGET + 1 && tests' as real <= tests as real + Work(segs, tile.cell, root)
    ensures count <= RectCount(tile, segs, strict, 0, tile.nx, 0, tile.ny)
    ensures tests' <= TEST_BUDGET ==> count == RectCount(tile, segs, strict, 0, tile.nx, 0, tile.ny)
  {
    hide CellIndex, CellX, CellY, Near, IsRoot, OutOfTile, Work, SegmentWork;
    NoWork(tile.cell, root);
    GridOfSize(tile.nx, tile.ny);
    CellIndexOrder(tile.nx, 0, tile.ny);
    var occupied := new bool[tile.nx * tile.ny](_ => false);
    tests' := tests;
    for s := 0 to |segs|
      invariant tests' <= TEST_BUDGET && tests' as real <= tests as real + Work(segs[..s], tile.cell, root)
      invariant Marks(tile, segs[..s], strict, occupied[..], true)
    {
      WorkOfPrefix(segs, s, tile.cell, root);
      WorkGrows(segs, s + 1, tile.cell, root);
      if !OutOfTile(segs[s], tile, halfWidth) {
        ghost var before := occupied[..];
        tests' := ScanSegment(tile, segs[s], halfWidth, strict, root, occupied, tests');
        MarksGrow(tile, segs, strict, before, occupied[..], s, tests' <= TEST_BUDGET);
        if tests' > TEST_BUDGET {
          MarksOfPrefix(tile, segs, strict, occupied[..], s + 1);
          count := CountTrue(occupied[..]);
          TileCounted(tile, segs, strict, occupied[..], false);
          return;
        }
      } else {
        forall i, j | 0 <= i < tile.nx && 0 <= j < tile.ny
          ensures !Near(tile, segs[s], strict, i, j)
        {
          RejectedMissesNothing(segs[s], tile, halfWidth, strict, i, j);
        }
        MarksGrow(tile, segs, strict, occupied[..], occupied[..], s, true);
        SamplesAreFew(segs[s], tile.cell, root, Steps(segs[s], tile.cell, root));
      }
    }
    assert segs[..|segs|] == segs;
    count := CountTrue(occupied[..]);
    TileCounted(tile, segs, strict, occupied[..], true);
  }

  lemma {:induction false} TileCounted(g: Grid, segs: seq<Segment>, radius: real, s: seq<bool>, exact: bool)
    requires IsGrid(|s|, g.nx, g.ny) && Marks(g, segs, radius, s, exact)
    ensures CountBelow(s, |s|) <= RectCount(g, segs, radius, 0, g.nx, 0, g.ny)
    ensures exact ==> CountBelow(s, |s|) == RectCount(g, segs, radius, 0, g.nx, 0, g.ny)
  {
    assert CellIndex(g.nx, 0, g.ny) == |s|;
    MarksCounted(g, segs, radius, s, exact, 0, g.ny);
  }

  lemma MarksOfPrefix(g: Grid, segs: seq<Segment>, radius: real, s: seq<bool>, n: nat)
    requires n <= |segs| && IsGrid(|s|, g.nx, g.ny) && Marks(g, segs[..n], radius, s, false)
    ensures Marks(g, segs, radius, s, false)
  {
    hide Near, CellIndex, CellX, CellY;
    assert forall k | 0 <= k < n :: segs[..n][k] == segs[k];
    forall i, j | NearAny(g, segs[..n], radius, i, j)
      ensures NearAny(g, segs, radius, i, j)
    {
      var k :| 0 <= k < n && Near(g, segs[..n][k], radius, i, j);
    }
  }

  /** One more segment scanned. */
  lemma MarksGrow(g: Grid, segs: seq<Segment>, radius: real, before: seq<bool>, after: seq<bool>, s: nat, whole: bool)
    requires s < |segs| && IsGrid(|before|, g.nx, g.ny) && |after| == |before|
    requires Marks(g, segs[..s], radius, before, true) && AddedNear(g, segs[s], radius, before, after)
    requires whole ==> forall i, j | 0 <= i < g.nx && 0 <= j < g.ny && Near(g, segs[s], radius, i, j) :: after[CellIndex(g.nx, i, j)]
    ensures Marks(g, segs[..s + 1], radius, after, whole)
  {
    hide Near, CellIndex, CellX, CellY, NearAny;
    forall i, j | 0 <= i < g.nx && 0 <= j < g.ny
      ensures NearAny(g, segs[..s + 1], radius, i, j) <==> NearAny(g, segs[..s], radius, i, j) || Near(g, segs[s], radius, i, j)
    {
      NearAnyNext(g, segs, radius, s, i, j);
    }
  }

  lemma NearAnyNext(g: Grid, segs: seq<Segment>, radius: real, s: nat, i: int, j: int)
    requires s < |segs|
    ensures NearAny(g, segs[..s + 1], radius, i, j) <==> NearAny(g, segs[..s], radius, i, j) || Near(g, segs[s], radius, i, j)
  {
    hide Near;
    assert segs[..s + 1] == segs[..s] + [segs[s]];
    if NearAny(g, segs[..s], radius, i, j) {
      var k :| 0 <= k < s && Near(g, segs[..s][k], radius, i, j);
      assert Near(g, segs[..s + 1][k], radius, i, j);
    }
    if Near(g, segs[s], radius, i, j) {
      assert Near(g, segs[..s + 1][s], radius, i, j);
    }
    if NearAny(g, segs[..s + 1], radius, i, j) {
      var k :| 0 <= k < s + 1 && Near(g, segs[..s + 1][k], radius, i, j);
      if k < s { assert Near(g, segs[..s][k], radius, i, j); }
    }
  }

  function BaseCell(halfWidth: real): (r: real)
    ensures r > 0.0 && halfWidth <= 3.0 * r
  {
    Max(halfWidth / 3.0, MIN_CELL)
  }

  function MaxInt(u: int, v: int): int {
    if u >= v then u else v
  }

  function MinInt(u: int, v: int): int {
    if u <= v then u else v
  }

  /** Cells needed to cover `length`, at least one. */
  function CellsAcross(length: real, cell: real): (n: nat)
    requires cell > 0.0
    ensures n >= 1
  {
    MaxInt(Ceil(length / cell), 1)
  }

  /** The area grid: the box padded by the half width and one cell. */
  function AreaGrid(min: Point, max: Point, halfWidth: real, cell0: real, cell: real): Grid
    requires cell > 0.0
  {
    var pad := halfWidth + cell0;
    Grid(Point(min.x - pad, min.y - pad), cell,
         CellsAcross(max.x - min.x + 2.0 * pad, cell), CellsAcross(max.y - min.y + 2.0 * pad, cell))
  }

  /** Area of the grid cells whose centre is within `radius` of a segment. */
  ghost function CountedArea(g: Grid, segs: seq<Segment>, radius: real): real {
    RectCount(g, segs, radius, 0, g.nx, 0, g.ny) as real * Sq(g.cell)
  }

  /** The area of the finest grid can be swept: its strict radius is positive, it keeps the tile budget, and the work of
      all its tiles is within the test budget. */
  ghost predicate AreaWorkFits(segs: seq<Segment>, min: Point, max: Point, halfWidth: real, root: real -> real) {
    var base := BaseCell(halfWidth);
    var g := AreaGrid(min, max, halfWidth, base, base);
    && StrictRadius(halfWidth, base) > 0.0
    && FewTiles(max.x - min.x + 2.0 * (halfWidth + base), max.y - min.y + 2.0 * (halfWidth + base), base)
    && Load(TileCount(g.nx) * TileCount(g.ny), Work(segs, base, root)) <= TEST_BUDGET as real
  }

  /** The tiled sweep.  The ghost results name the grid it settled on and its strict radius.  Unless it is
      cut short the area is exactly that of the strictly inside cells of the whole grid; it never exceeds it. */
  method StrictArea(segs: seq<Segment>, min: Point, max: Point, halfWidth: real, root: real -> real)
    returns (area: real, cut: bool, ghost g: Grid, ghost strict: real)
    requires halfWidth > 0.0 && IsRoot(root)
    ensures 0.0 <= area && g.cell > 0.0 && strict == StrictRadius(halfWidth, g.cell)
    ensures area > 0.0 ==> strict > 0.0
    ensures g == AreaGrid(min, max, halfWidth, BaseCell(halfWidth), g.cell)
    ensures area <= CountedArea(g, segs, strict)
    ensures !cut ==> g.cell == BaseCell(halfWidth)
    ensures !cut ==> area == CountedArea(g, segs, strict)
    ensures AreaWorkFits(segs, min, max, halfWidth, root) ==> !cut
  {
    hide IsRoot, RectCount, MinInt, FewTiles, Grown, CellsAcross, Work, Load, TileCount, CountedArea, Sq;
    var cell := BaseCell(halfWidth);
    g := AreaGrid(min, max, halfWidth, cell, cell);
    strict := StrictRadius(halfWidth, cell);
    AreaOfCount(g, segs, strict, 0);
    if StrictRadius(halfWidth, cell) <= 0.0 {
      return 0.0, true, g, strict;
    }
    var pad := halfWidth + cell;
    var degraded;
    cell, degraded := GrowCell(max.x - min.x + 2.0 * pad, max.y - min.y + 2.0 * pad, cell);
    var radius := StrictRadius(halfWidth, cell);
    var grid := AreaGrid(min, max, halfWidth, BaseCell(halfWidth), cell);
    g, strict := grid, radius;
    AreaOfCount(g, segs, strict, 0);
    if radius <= 0.0 {
      return 0.0, true, g, strict;
    }
    var count, tests := SweepTiles(grid, segs, radius, halfWidth, root);
    AreaOfCount(g, segs, strict, count);
    area := count as real * Sq(cell);
    cut := tests > TEST_BUDGET || degraded;
  }

  const GROW_STEPS: nat := 64

  /** The cell after n growth steps. */
  function Grown(base: real, n: nat): (cell: real)
    requires base > 0.0
    ensures cell >= base && (cell == base <==> n == 0)
  {
    if n == 0 then base else Grown(base, n - 1) * 1.5
  }

  /** The box needs no more tiles than the budget. */
  predicate FewTiles(w: real, h: real, cell: real)
    requires cell > 0.0
  {
    CellsAcross(w, TILE_SIDE as real * cell) * CellsAcross(h, TILE_SIDE as real * cell) <= MAX_AREA_TILES
  }

  /** Grow the cell until the padded box needs no more than the tile budget. */
  method GrowCell(w: real, h: real, base: real) returns (cell: real, degraded: bool)
    requires base > 0.0
    ensures cell >= base && (!degraded <==> cell == base)
    ensures FewTiles(w, h, base) ==> cell == base
    ensures exists n: nat :: n <= GROW_STEPS && cell == Grown(base, n) && (n < GROW_STEPS ==> FewTiles(w, h, cell)) &&
              forall m: nat | m < n :: !FewTiles(w, h, Grown(base, m))
  {
    hide FewTiles;
    cell, degraded := base, false;
    ghost var n := 0;
    for step := 0 to GROW_STEPS
      invariant n == step && cell == Grown(base, step) && (step > 0 <==> degraded)
      invariant forall m: nat | m < step :: !FewTiles(w, h, Grown(base, m))
    {
      if FewTiles(w, h, cell) {
        break;
      }
      cell := cell * 1.5;
      degraded := true;
      n := n + 1;
    }
    assert cell == Grown(base, n);
  }

  /** Tiles along a side of n cells. */
  function TileCount(n: nat): nat {
    (n + TILE_SIDE - 1) / TILE_SIDE
  }

  /** n tiles of work w. */
  function Load(n: nat, w: real): real {
    n as real * w
  }

  lemma LoadMore(n: nat, m: nat, w: real)
    requires w >= 0.0 && n <= m
    ensures Load(n + 1, w) == Load(n, w) + w && Load(n, w) <= Load(m, w)
  {
    MulLe(n as real, m as real, w);
  }

  /** Sum the tiles: the tiled count is the untiled count, unless the test budget stops the sweep. */
  method SweepTiles(g: Grid, segs: seq<Segment>, strict: real, halfWidth: real, root: real -> real)
    returns (count: nat, tests: nat)
    requires g.cell > 0.0 && 0.0 < strict <= halfWidth <= 3.0 * g.cell && IsRoot(root)
    ensures count <= RectCount(g, segs, strict, 0, g.nx, 0, g.ny)
    ensures tests <= TEST_BUDGET ==> count == RectCount(g, segs, strict, 0, g.nx, 0, g.ny)
    ensures tests as real <= Load(TileCount(g.nx) * TileCount(g.ny), Work(segs, g.cell, root))
  {
    hide IsRoot, RectCount, Work, Load, TileCount;
    WorkNonneg(segs, g.cell, root);
    var w := Work(segs, g.cell, root);
    NoLoad(w);
    count, tests := 0, 0;
    var tj := 0;
    ghost var rows := 0;
    RectEmpty(g, segs, strict, 0, g.nx, 0);
    while tj < g.ny
      invariant tj == TILE_SIDE * rows && tests <= TEST_BUDGET && (rows > 0 ==> TILE_SIDE * (rows - 1) < g.ny)
      invariant tests as real <= Load(rows * TileCount(g.nx), w)
      invariant count == RectCount(g, segs, strict, 0, g.nx, 0, MinInt(tj, g.ny))
    {
      var row, rowTests := SweepRow(g, segs, strict, halfWidth, root, tj, rows, tests);
      RectCountSplitsUp(g, segs, strict, 0, g.nx, 0, tj, MinInt(tj + TILE_SIDE, g.ny));
      count, tests := count + row, rowTests;
      RowsFit(g.nx, g.ny, rows, w);
      if tests > TEST_BUDGET {
        RectCountSplitsUp(g, segs, strict, 0, g.nx, 0, MinInt(tj + TILE_SIDE, g.ny), g.ny);
        return;
      }
      tj, rows := tj + TILE_SIDE, rows + 1;
    }
    AllRows(g.nx, g.ny, rows, w);
  }

  /** One row of tiles. */
  method SweepRow(g: Grid, segs: seq<Segment>, strict: real, halfWidth: real, root: real -> real, tj: nat, ghost rows: nat, before: nat)
    returns (count: nat, tests: nat)
    requires g.cell > 0.0 && 0.0 < strict <= halfWidth <= 3.0 * g.cell && IsRoot(root)
    requires tj == TILE_SIDE * rows < g.ny && before <= TEST_BUDGET
    requires before as real <= Load(rows * TileCount(g.nx), Work(segs, g.cell, root))
    ensures count <= RectCount(g, segs, strict, 0, g.nx, tj, MinInt(tj + TILE_SIDE, g.ny))
    ensures tests <= TEST_BUDGET ==> count == RectCount(g, segs, strict, 0, g.nx, tj, MinInt(tj + TILE_SIDE, g.ny))
    ensures tests as real <= Load((rows + 1) * TileCount(g.nx), Work(segs, g.cell, root))
  {
    hide IsRoot, RectCount, Work, Load, TileCount, IsTile;
    WorkNonneg(segs, g.cell, root);
    var w := Work(segs, g.cell, root);
    count, tests := 0, before;
    var th := MinInt(TILE_SIDE, g.ny - tj);
    var ti := 0;
    ghost var done := 0;
    RectEmptyColumns(g, segs, strict, tj, tj + th);
    while ti < g.nx
      invariant ti == TILE_SIDE * done && tests <= TEST_BUDGET && (done > 0 ==> TILE_SIDE * (done - 1) < g.nx)
      invariant tests as real <= Load(rows * TileCount(g.nx) + done, w)
      invariant count == RectCount(g, segs, strict, 0, MinInt(ti, g.nx), tj, tj + th)
    {
      var tw := MinInt(TILE_SIDE, g.nx - ti);
      var marked;
      marked, tests := MarkNextTile(g, segs, strict, halfWidth, root, ti, tj, tw, th, tests);
      count := count + marked;
      TilesFit(g.nx, done, rows * TileCount(g.nx), w);
      if tests > TEST_BUDGET {
        RowDone(rows, TileCount(g.nx));
        return;
      }
      ti, done := ti + TILE_SIDE, done + 1;
    }
    AllTiles(g.nx, done);
    RowDone(rows, TileCount(g.nx));
  }

  /** The tile at (ti, tj): what it adds to the part of the row before it. */
  method MarkNextTile(g: Grid, segs: seq<Segment>, strict: real, halfWidth: real, root: real -> real, ti: nat, tj: nat, tw: nat, th: nat, before: nat)
    returns (count: nat, tests: nat)
    requires g.cell > 0.0 && 0.0 < strict <= halfWidth <= 3.0 * g.cell && IsRoot(root) && before <= TEST_BUDGET
    requires ti + tw <= g.nx && tw <= TILE_SIDE && th <= TILE_SIDE
    ensures tests as real <= before as real + Work(segs, g.cell, root)
    ensures RectCount(g, segs, strict, 0, ti, tj, tj + th) + count <= RectCount(g, segs, strict, 0, ti + tw, tj, tj + th)
    ensures RectCount(g, segs, strict, 0, ti + tw, tj, tj + th) <= RectCount(g, segs, strict, 0, g.nx, tj, tj + th)
    ensures tests <= TEST_BUDGET ==>
              RectCount(g, segs, strict, 0, ti, tj, tj + th) + count == RectCount(g, segs, strict, 0, ti + tw, tj, tj + th)
  {
    hide IsRoot, RectCount, Work, IsTile;
    var tile := Grid(Point(g.origin.x + ti as real * g.cell, g.origin.y + tj as real * g.cell), g.cell, tw, th);
    count, tests := MarkTile(segs, tile, strict, halfWidth, root, before);
    TileAdds(g, tile, segs, strict, ti, tj, tw, th);
  }

  /** A tile adds its own count to the part of the row before it, and leaves the rest of the row. */
  lemma TileAdds(g: Grid, tile: Grid, segs: seq<Segment>, radius: real, ti: nat, tj: nat, tw: nat, th: nat)
    requires ti + tw <= g.nx
    requires tile == Grid(Point(g.origin.x + ti as real * g.cell, g.origin.y + tj as real * g.cell), g.cell, tw, th)
    ensures RectCount(g, segs, radius, 0, ti + tw, tj, tj + th) ==
            RectCount(g, segs, radius, 0, ti, tj, tj + th) + RectCount(tile, segs, radius, 0, tw, 0, th)
    ensures RectCount(g, segs, radius, 0, ti + tw, tj, tj + th) <= RectCount(g, segs, radius, 0, g.nx, tj, tj + th)
  {
    TileRect(g, tile, segs, radius, ti, tj, tw, th);
    hide RectCount;
    RectCountSplitsAcross(g, segs, radius, 0, ti, ti + tw, tj, tj + th);
    RectCountSplitsAcross(g, segs, radius, 0, ti + tw, g.nx, tj, tj + th);
  }

  lemma NoLoad(w: real)
    ensures Load(0, w) == 0.0
    ensures forall n: nat :: Load(0 * n, w) == 0.0
  {
  }

  lemma RowDone(rows: nat, across: nat)
    ensures rows * across + across == (rows + 1) * across
  {
  }

  /** One more tile of a row is within the row's load. */
  lemma TilesFit(nx: nat, done: nat, before: nat, w: real)
    requires w >= 0.0 && TILE_SIDE * done < nx
    ensures Load(before + done + 1, w) == Load(before + done, w) + w
    ensures Load(before + done + 1, w) <= Load(before + TileCount(nx), w)
  {
    LoadMore(before + done, before + done + 1, w);
    LoadMore(before + done + 1, before + TileCount(nx), w);
  }

  lemma AllTiles(nx: nat, done: nat)
    requires TILE_SIDE * done >= nx && (done > 0 ==> TILE_SIDE * (done - 1) < nx)
    ensures done == TileCount(nx)
  {
  }

  /** One more row is within the load of the grid. */
  lemma RowsFit(nx: nat, ny: nat, rows: nat, w: real)
    requires w >= 0.0 && TILE_SIDE * rows < ny
    ensures Load((rows + 1) * TileCount(nx), w) <= Load(TileCount(nx) * TileCount(ny), w)
  {
    MulLeNat(rows + 1, TileCount(ny), TileCount(nx));
    LoadMore((rows + 1) * TileCount(nx), TileCount(nx) * TileCount(ny), w);
  }

  lemma AllRows(nx: nat, ny: nat, rows: nat, w: real)
    requires TILE_SIDE * rows >= ny && (rows > 0 ==> TILE_SIDE * (rows - 1) < ny)
    ensures Load(rows * TileCount(nx), w) == Load(TileCount(nx) * TileCount(ny), w)
  {
    AllTiles(ny, rows);
  }

  lemma {:induction false} RectEmpty(g: Grid, segs: seq<Segment>, radius: real, i0: int, i1: int, j: int)
    ensures RectCount(g, segs, radius, i0, i1, j, j) == 0
  {
  }

  lemma {:induction false} RectEmptyColumns(g: Grid, segs: seq<Segment>, radius: real, j0: int, j1: int)
    requires j0 <= j1
    ensures RectCount(g, segs, radius, 0, 0, j0, j1) == 0
    decreases j1 - j0
  {
    if j0 < j1 { RectEmptyColumns(g, segs, radius, j0, j1 - 1); }
  }

  /** A count of cells no larger than the grid's is an area no larger than the grid's. */
  lemma {:induction false} AreaOfCount(g: Grid, segs: seq<Segment>, radius: real, count: nat)
    requires count <= RectCount(g, segs, radius, 0, g.nx, 0, g.ny)
    ensures 0.0 <= count as real * Sq(g.cell) <= CountedArea(g, segs, radius)
    ensures count == RectCount(g, segs, radius, 0, g.nx, 0, g.ny) ==> count as real * Sq(g.cell) == CountedArea(g, segs, radius)
  {
    hide RectCount, Sq;
    CountedNonneg(count, g.cell);
    CountedMonotone(count, RectCount(g, segs, radius, 0, g.nx, 0, g.ny), g.cell);
  }

  lemma CountedNonneg(n: nat, cell: real)
    ensures n as real * Sq(cell) >= 0.0
  {
    hide Sq;
    MulNonneg(n as real, Sq(cell));
  }

  lemma CountedMonotone(m: nat, n: nat, cell: real)
    requires m <= n
    ensures 0.0 <= m as real * Sq(cell) <= n as real * Sq(cell)
  {
    hide Sq;
    MulNonneg(m as real, Sq(cell));
    MulLe(m as real, n as real, Sq(cell));
  }

  /** Every lattice cell strictly inside a capsule of the box is in the area grid: the untiled count misses none. */
  lemma StrictCellsInAreaGrid(seg: Segment, min: Point, max: Point, halfWidth: real, cell: real, radius: real, i: int, j: int)
    requires cell > 0.0 && 0.0 < radius <= halfWidth && InBox(seg.start, min, max) && InBox(seg.end, min, max)
    requires Near(AreaGrid(min, max, halfWidth, BaseCell(halfWidth), cell), seg, radius, i, j)
    ensures var g := AreaGrid(min, max, halfWidth, BaseCell(halfWidth), cell); 0 <= i < g.nx && 0 <= j < g.ny
  {
    hide Sq, Mix, ClosestT, Axis, CellsAcross, BaseCell;
    var g := AreaGrid(min, max, halfWidth, BaseCell(halfWidth), cell);
    var c := g.Center(i, j);
    var t := ClosestT(c, seg.start, seg.end);
    Between(seg.start.x, seg.end.x, t);
    Between(seg.start.y, seg.end.y, t);
    ComponentBound(Mix(seg.start.x, seg.end.x, t) - c.x, Mix(seg.start.y, seg.end.y, t) - c.y, radius);
    ComponentBound(Mix(seg.start.y, seg.end.y, t) - c.y, Mix(seg.start.x, seg.end.x, t) - c.x, radius);
    AxisInAreaGrid(min.x, max.x, halfWidth + BaseCell(halfWidth), cell, i);
    AxisInAreaGrid(min.y, max.y, halfWidth + BaseCell(halfWidth), cell, j);
  }

  lemma AxisInAreaGrid(lo: real, hi: real, pad: real, cell: real, i: int)
    requires cell > 0.0 && lo - pad < Axis(lo - pad, cell, i) < hi + pad
    ensures 0 <= i < CellsAcross(hi - lo + 2.0 * pad, cell)
  {
    var total := hi - lo + 2.0 * pad;
    DivMul(total, cell);
    CeilBound(total / cell);
    StrictlyInside(total / cell, total, lo, hi, pad, cell, i);
  }

  lemma StrictlyInside(cells: real, total: real, lo: real, hi: real, pad: real, cell: real, i: int)
    requires cell > 0.0 && cells * cell == total && total == hi - lo + 2.0 * pad
    requires lo - pad < lo - pad + (i as real + 0.5) * cell < hi + pad
    ensures 0.0 <= i as real + 0.5 <= cells
  {
    LessByFactor(0.0, i as real + 0.5, cell);
    LessByFactor(i as real + 0.5, cells, cell);
  }

  /** A counted cell lies wholly inside one capsule: every point of the cell is within the half width of a segment. */
  lemma CountedCellInsideCapsule(g: Grid, segs: seq<Segment>, halfWidth: real, i: int, j: int, p: Point) returns (s: nat)
    requires g.cell > 0.0 && StrictRadius(halfWidth, g.cell) >= 0.0
    requires NearAny(g, segs, StrictRadius(halfWidth, g.cell), i, j)
    requires var c := g.Center(i, j);
             && -g.cell <= 2.0 * (p.x - c.x) <= g.cell && -g.cell <= 2.0 * (p.y - c.y) <= g.cell
    ensures s < |segs| && PointSegDist2(p, segs[s].start, segs[s].end) <= Sq(halfWidth)
  {
    var c := g.Center(i, j);
    var r := StrictRadius(halfWidth, g.cell);
    s :| 0 <= s < |segs| && Near(g, segs[s], r, i, j);
    var a, b := segs[s].start, segs[s].end;
    var t := ClosestT(c, a, b);
    ClosestIsNearest(p, a, b, t);
    HalfDiagonal(p.x - c.x, p.y - c.y, g.cell);
    hide Sq, Mix, ClosestT, Axis;
    var q := Lerp(a, b, t);
    SqNeg(p.x - c.x);
    SqNeg(p.y - c.y);
    Triangle(c.x - p.x, c.y - p.y, q.x - c.x, q.y - c.y, g.cell * FRAC_1_SQRT_2, r);
  }

  /** Half the diagonal of a cell is at most the constant times the cell. */
  lemma HalfDiagonal(u: real, v: real, cell: real)
    requires cell > 0.0 && -cell <= 2.0 * u <= cell && -cell <= 2.0 * v <= cell
    ensures Sq(u) + Sq(v) <= Sq(cell * FRAC_1_SQRT_2)
  {
    SqBelow(u, cell / 2.0);
    SqBelow(v, cell / 2.0);
    var half := cell / 2.0;
    assert Sq(cell * FRAC_1_SQRT_2) == Sq(cell) * Sq(FRAC_1_SQRT_2);
    assert Sq(FRAC_1_SQRT_2) >= 0.5;
    MulLe(0.5, Sq(FRAC_1_SQRT_2), Sq(cell));
    assert half * half == 0.25 * Sq(cell);
  }

  /** The triangle inequality on squared lengths. */
  lemma Triangle(ux: real, uy: real, vx: real, vy: real, m: real, n: real)
    requires m >= 0.0 && n >= 0.0 && Sq(ux) + Sq(uy) <= Sq(m) && Sq(vx) + Sq(vy) <= Sq(n)
    ensures Sq(ux + vx) + Sq(uy + vy) <= Sq(m + n)
  {
    var dot := ux * vx + uy * vy;
    CauchySchwarz(ux, uy, vx, vy, m, n);
    assert Sq(ux + vx) + Sq(uy + vy) == Sq(ux) + Sq(uy) + Sq(vx) + Sq(vy) + 2.0 * dot;
    assert Sq(m + n) == Sq(m) + Sq(n) + 2.0 * (m * n);
  }

  lemma CauchySchwarz(ux: real, uy: real, vx: real, vy: real, m: real, n: real)
    requires m >= 0.0 && n >= 0.0 && Sq(ux) + Sq(uy) <= Sq(m) && Sq(vx) + Sq(vy) <= Sq(n)
    ensures ux * vx + uy * vy <= m * n
  {
    var dot := ux * vx + uy * vy;
    Lagrange(ux, uy, vx, vy);
    ProductBound(Sq(ux) + Sq(uy), Sq(vx) + Sq(vy), Sq(m), Sq(n), Sq(dot), Sq(ux * vy - uy * vx));
    SquareOfProduct(m, n);
    MulNonneg(m, n);
    hide Sq;
    if dot > m * n {
      SqStrict(m * n, dot);
    }
  }

  lemma ProductBound(uu: real, vv: real, mm: real, nn: real, dd: real, gg: real)
    requires 0.0 <= uu <= mm && 0.0 <= vv <= nn && gg >= 0.0 && uu * vv == dd + gg
    ensures dd <= mm * nn
  {
    MulLe(uu, mm, vv);
    MulLe(vv, nn, mm);
  }

  lemma SquareOfProduct(m: real, n: real)
    ensures Sq(m * n) == Sq(m) * Sq(n)
  {
  }

  lemma Lagrange(ux: real, uy: real, vx: real, vy: real)
    ensures (Sq(ux) + Sq(uy)) * (Sq(vx) + Sq(vy)) == Sq(ux * vx + uy * vy) + Sq(ux * vy - uy * vx)
  {
  }
}
