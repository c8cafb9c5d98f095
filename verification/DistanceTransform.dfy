/** The squared Euclidean distance transform: the lower envelope of parabolas on one line, then rows and
    columns of a grid.  The infinite sentinels of the bounds array are the two ends of `Bound`. */
module DistanceTransform {
  import opened Arith
  import opened Geom

  datatype Bound = Below | At(v: real) | Beyond {
    /** this <= x */
    predicate AtMost(x: real) {
      Below? || (At? && v <= x)
    }

    /** x <= this */
    predicate AtLeast(x: real) {
      Beyond? || (At? && x <= v)
    }
  }

  function Parabola(f: seq<real>, p: nat, x: real): real
    requires p < |f|
  {
    Sq(x - p as real) + f[p]
  }

  /** Abscissa where the parabolas rooted at `p` and `q` cross. */
  function Intersection(f: seq<real>, p: nat, q: nat): real
    requires q < p < |f|
  {
    ((f[p] + Sq(p as real)) - (f[q] + Sq(q as real))) / (2.0 * p as real - 2.0 * q as real)
  }

  /** Left of the crossing the older parabola is lower, right of it the newer one. */
  lemma IntersectionOrders(f: seq<real>, p: nat, q: nat, x: real)
    requires q < p < |f|
    ensures Parabola(f, p, x) <= Parabola(f, q, x) <==> Intersection(f, p, q) <= x
    ensures Parabola(f, q, x) <= Parabola(f, p, x) <==> x <= Intersection(f, p, q)
  {
    CrossingOrders(f[p], f[q], p as real, q as real, x, Intersection(f, p, q));
  }

  lemma CrossingOrders(fp: real, fq: real, p: real, q: real, x: real, s: real)
    requires q < p && s == ((fp + Sq(p)) - (fq + Sq(q))) / (2.0 * p - 2.0 * q)
    ensures Sq(x - p) + fp <= Sq(x - q) + fq <==> s <= x
    ensures Sq(x - q) + fq <= Sq(x - p) + fp <==> x <= s
  {
    var d := 2.0 * p - 2.0 * q;
    var gap := (Sq(x - p) + fp) - (Sq(x - q) + fq);
    DivMul((fp + Sq(p)) - (fq + Sq(q)), d);
    LinearGap(fp, fq, p, q, x, s);
    hide Sq;
    GapSign(d, s, x, gap);
  }

  lemma GapSign(d: real, s: real, x: real, gap: real)
    requires d > 0.0 && gap == d * (s - x)
    ensures gap <= 0.0 <==> s <= x
    ensures gap >= 0.0 <==> x <= s
  {
    Opposite(d, s, x);
    if s < x { MulPos(d, x - s); }
    if x < s { MulPos(d, s - x); }
    if s == x { MulZero(d, s - x); }
  }

  lemma Opposite(d: real, s: real, x: real)
    ensures d * (s - x) == -(d * (x - s))
  {
  }

  lemma LinearGap(fp: real, fq: real, p: real, q: real, x: real, s: real)
    requires s * (2.0 * p - 2.0 * q) == (fp + Sq(p)) - (fq + Sq(q))
    ensures (Sq(x - p) + fp) - (Sq(x - q) + fq) == (2.0 * p - 2.0 * q) * (s - x)
  {
  }

  // ----- the hull -----

  ghost predicate HullShape(hull: seq<nat>, bounds: seq<Bound>, n: nat) {
    && 1 <= |hull| && |bounds| == |hull| + 1
    && bounds[0] == Below && (forall k | 1 <= k < |hull| :: bounds[k].At?)
    && (forall k | 0 <= k < |hull| :: hull[k] < n)
  }

  /** Between its two bounds, each hull parabola is lowest among the first `n`. */
  ghost predicate Covers(f: seq<real>, hull: seq<nat>, bounds: seq<Bound>, n: nat)
    requires HullShape(hull, bounds, n) && n <= |f|
  {
    && (forall j, k | 1 <= j < k < |hull| :: bounds[j].v < bounds[k].v)
    && (forall k, p, x: real | 0 <= k < |hull| && 0 <= p < n && bounds[k].AtMost(x) && bounds[k + 1].AtLeast(x) ::
          Parabola(f, hull[k], x) <= Parabola(f, p, x))
  }

  /** From `from` onwards the parabola rooted at `n` is lowest among the first `n + 1`. */
  ghost predicate WinsFrom(f: seq<real>, n: nat, from: Bound)
    requires n < |f|
  {
    forall p, x: real | 0 <= p < n && from.AtMost(x) :: Parabola(f, n, x) <= Parabola(f, p, x)
  }

  /** Popping: a hull parabola whose whole stretch lies right of the crossing is superseded by the new one. */
  lemma PopSupersedes(f: seq<real>, hull: seq<nat>, bounds: seq<Bound>, n: nat)
    requires HullShape(hull, bounds, n) && n < |f| && Covers(f, hull, bounds, n) && WinsFrom(f, n, bounds[|hull|])
    requires bounds[|hull|] != Below
    requires bounds[|hull| - 1].AtLeast(Intersection(f, n, hull[|hull| - 1]))
    ensures |hull| >= 2 && WinsFrom(f, n, bounds[|hull| - 1])
  {
    hide Parabola, Intersection;
    var m := |hull|;
    var last := hull[m - 1];
    forall p, x: real | 0 <= p < n && bounds[m - 1].AtMost(x)
      ensures Parabola(f, n, x) <= Parabola(f, p, x)
    {
      IntersectionOrders(f, n, last, x);
      if !bounds[m].AtLeast(x) {
        assert bounds[m].AtMost(x);
      }
    }
  }

  /** Pushing: the new parabola takes over at its crossing with the last one kept. */
  lemma PushExtends(f: seq<real>, hull: seq<nat>, bounds: seq<Bound>, n: nat)
    requires HullShape(hull, bounds, n) && n < |f| && Covers(f, hull, bounds, n) && WinsFrom(f, n, bounds[|hull|])
    requires bounds[|hull|] != Below
    requires !bounds[|hull| - 1].AtLeast(Intersection(f, n, hull[|hull| - 1]))
    ensures HullShape(hull + [n], bounds[..|hull|] + [At(Intersection(f, n, hull[|hull| - 1])), Beyond], n + 1)
    ensures Covers(f, hull + [n], bounds[..|hull|] + [At(Intersection(f, n, hull[|hull| - 1])), Beyond], n + 1)
  {
    hide Parabola, Intersection;
    var m := |hull|;
    var last := hull[m - 1];
    var c := Intersection(f, n, last);
    var hull', bounds' := hull + [n], bounds[..m] + [At(c), Beyond];
    CrossingInsideLast(f, hull, bounds, n);
    forall k, p, x: real | 0 <= k < |hull'| && 0 <= p < n + 1 && bounds'[k].AtMost(x) && bounds'[k + 1].AtLeast(x)
      ensures Parabola(f, hull'[k], x) <= Parabola(f, p, x)
    {
      IntersectionOrders(f, n, last, x);
      if k < m {
        assert bounds[k].AtMost(x) && bounds[k + 1].AtLeast(x);
        assert Parabola(f, hull[k], x) <= Parabola(f, last, x);
        assert x <= c;
      } else if p < n {
        if !bounds[m].AtMost(x) {
          assert bounds[m - 1].AtMost(x) && bounds[m].AtLeast(x);
          assert Parabola(f, last, x) <= Parabola(f, p, x);
        }
      }
    }
  }

  lemma CrossingInsideLast(f: seq<real>, hull: seq<nat>, bounds: seq<Bound>, n: nat)
    requires HullShape(hull, bounds, n) && n < |f| && Covers(f, hull, bounds, n) && WinsFrom(f, n, bounds[|hull|])
    requires bounds[|hull|] != Below
    ensures bounds[|hull|].AtLeast(Intersection(f, n, hull[|hull| - 1]))
  {
    hide Parabola, Intersection;
    var b := bounds[|hull|];
    if b.At? {
      IntersectionOrders(f, n, hull[|hull| - 1], b.v);
    }
  }

  // ----- the one-dimensional transform -----

  /** min over p < n of (x - p)^2 + f[p] */
  ghost function EnvelopeBelow(f: seq<real>, x: real, n: nat): real
    requires 1 <= n <= |f|
  {
    if n == 1 then Parabola(f, 0, x)
    else Min(EnvelopeBelow(f, x, n - 1), Parabola(f, n - 1, x))
  }

  ghost function EnvelopeAt(f: seq<real>, q: nat): real
    requires |f| > 0
  {
    EnvelopeBelow(f, q as real, |f|)
  }

  lemma {:induction false} EnvelopeIsLeast(f: seq<real>, x: real, n: nat)
    requires 1 <= n <= |f|
    ensures forall p | 0 <= p < n :: EnvelopeBelow(f, x, n) <= Parabola(f, p, x)
    ensures exists p | 0 <= p < n :: EnvelopeBelow(f, x, n) == Parabola(f, p, x)
  {
    hide Parabola;
    if n == 1 {
      assert EnvelopeBelow(f, x, n) == Parabola(f, 0, x);
    } else {
      EnvelopeIsLeast(f, x, n - 1);
      assert EnvelopeBelow(f, x, n) == Parabola(f, n - 1, x) || EnvelopeBelow(f, x, n) == EnvelopeBelow(f, x, n - 1);
    }
  }

  /** Felzenszwalb and Huttenlocher's transform: `dest[q]` becomes the least (q - p)^2 + source[p].
      `hull` and `bounds` are scratch; every index into them stays in range and the stack never underflows. */
  method Edt1d(source: seq<real>, dest: array<real>, hull: array<nat>, bounds: array<Bound>)
    requires dest.Length >= |source| && hull.Length >= |source| && bounds.Length >= |source| + 1
    modifies dest, hull, bounds
    ensures forall q | 0 <= q < |source| :: dest[q] == EnvelopeAt(source, q)
    ensures forall q | |source| <= q < dest.Length :: dest[q] == old(dest[q])
  {
    hide Covers, EnvelopeAt, HullShape;
    if |source| == 0 {
      return;
    }
    ghost var h, b := BuildHull(source, hull, bounds);
    ReadEnvelope(source, dest, hull, bounds, h, b);
  }

  /** The first loop: push every parabola after popping those it supersedes. */
  method BuildHull(source: seq<real>, hull: array<nat>, bounds: array<Bound>) returns (ghost h: seq<nat>, ghost b: seq<Bound>)
    requires |source| > 0 && hull.Length >= |source| && bounds.Length >= |source| + 1
    modifies hull, bounds
    ensures |h| > 0 && |b| == |h| + 1 && Holds(hull, bounds, h, b, |h| - 1) && b[|h|] == Beyond
    ensures HullShape(h, b, |source|) && Covers(source, h, b, |source|)
  {
    hide Parabola, Intersection, Covers, WinsFrom;
    FirstParabola(source);
    var top := 0;
    hull[0] := 0;
    bounds[0] := Below;
    bounds[1] := Beyond;
    h, b := [0], [Below, Beyond];
    hide HullShape;
    for index := 1 to |source|
      invariant top < index && Holds(hull, bounds, h, b, top)
      invariant HullShape(h, b, index) && Covers(source, h, b, index) && b[top + 1] == Beyond
    {
      var crossing;
      top, crossing, h, b := PopSuperseded(source, hull, bounds, index, top, h, b);
      PushExtends(source, h, b, index);
      h, b := h + [index], b[..top + 1] + [At(crossing), Beyond];
      top := top + 1;
      hull[top] := index;
      bounds[top] := At(crossing);
      bounds[top + 1] := Beyond;
    }
  }

  /** Pop every parabola the one of `index` supersedes; `crossing` is its crossing with the last one kept. */
  method PopSuperseded(source: seq<real>, hull: array<nat>, bounds: array<Bound>, index: nat, start: nat, ghost h0: seq<nat>, ghost b0: seq<Bound>)
    returns (top: nat, crossing: real, ghost h: seq<nat>, ghost b: seq<Bound>)
    requires start < index < |source| && Holds(hull, bounds, h0, b0, start) && b0[start + 1] == Beyond
    requires HullShape(h0, b0, index) && Covers(source, h0, b0, index)
    ensures top < index && Holds(hull, bounds, h, b, top) && HullShape(h, b, index) && Covers(source, h, b, index)
    ensures b[top + 1] != Below && WinsFrom(source, index, b[top + 1])
    ensures hull[top] < index && crossing == Intersection(source, index, hull[top]) && !bounds[top].AtLeast(crossing)
  {
    hide Parabola, Intersection, Covers, WinsFrom;
    top, h, b := start, h0, b0;
    NothingBeyond(source, index);
    crossing := Intersection(source, index, hull[top]);
    while bounds[top].AtLeast(crossing)
      invariant top < index && Holds(hull, bounds, h, b, top)
      invariant HullShape(h, b, index) && Covers(source, h, b, index) && b[top + 1] != Below
      invariant WinsFrom(source, index, b[top + 1])
      invariant crossing == Intersection(source, index, hull[top])
      decreases top
    {
      PopSupersedes(source, h, b, index);
      CoversPrefix(source, h, b, index);
      h, b := h[..top], b[..top + 1];
      top := top - 1;
      crossing := Intersection(source, index, hull[top]);
    }
  }

  /** The second loop: walk the bounds and read each value off the parabola in charge. */
  method ReadEnvelope(source: seq<real>, dest: array<real>, hull: array<nat>, bounds: array<Bound>, ghost h: seq<nat>, ghost b: seq<Bound>)
    requires dest.Length >= |source| && |h| > 0 && |b| == |h| + 1 && Holds(hull, bounds, h, b, |h| - 1) && b[|h|] == Beyond
    requires HullShape(h, b, |source|) && Covers(source, h, b, |source|)
    modifies dest
    ensures forall q | 0 <= q < |source| :: dest[q] == EnvelopeAt(source, q)
    ensures forall q | |source| <= q < dest.Length :: dest[q] == old(dest[q])
  {
    hide Parabola, Covers, EnvelopeAt;
    var top := 0;
    for index := 0 to |source|
      invariant top < |h| && b[top].AtMost(index as real)
      invariant forall q | 0 <= q < index :: dest[q] == EnvelopeAt(source, q)
      invariant forall q | index <= q < dest.Length :: dest[q] == old(dest[q])
    {
      while !bounds[top + 1].AtLeast(index as real)
        invariant top < |h| && b[top].AtMost(index as real)
        decreases |h| - top
      {
        top := top + 1;
      }
      ReadOut(source, h, b, top, index);
      dest[index] := Parabola(source, hull[top], index as real);
    }
  }

  /** The scratch arrays hold the stack h and its bounds b. */
  ghost predicate Holds(hull: array<nat>, bounds: array<Bound>, h: seq<nat>, b: seq<Bound>, top: int)
    reads hull, bounds
  {
    && 0 <= top && |h| == top + 1 <= hull.Length && |b| == top + 2 <= bounds.Length
    && (forall k | 0 <= k <= top :: hull[k] == h[k])
    && (forall k | 0 <= k <= top + 1 :: bounds[k] == b[k])
  }

  lemma FirstParabola(f: seq<real>)
    requires |f| > 0
    ensures Covers(f, [0], [Below, Beyond], 1)
  {
    hide Parabola;
  }

  lemma NothingBeyond(f: seq<real>, n: nat)
    requires n < |f|
    ensures WinsFrom(f, n, Beyond)
  {
  }

  lemma CoversPrefix(f: seq<real>, hull: seq<nat>, bounds: seq<Bound>, n: nat)
    requires HullShape(hull, bounds, n) && n <= |f| && Covers(f, hull, bounds, n) && |hull| >= 2
    ensures HullShape(hull[..|hull| - 1], bounds[..|hull|], n)
    ensures Covers(f, hull[..|hull| - 1], bounds[..|hull|], n)
  {
    hide Parabola;
  }

  lemma ReadOut(f: seq<real>, hull: seq<nat>, bounds: seq<Bound>, k: nat, q: nat)
    requires HullShape(hull, bounds, |f|) && Covers(f, hull, bounds, |f|) && k < |hull|
    requires bounds[k].AtMost(q as real) && bounds[k + 1].AtLeast(q as real)
    ensures Parabola(f, hull[k], q as real) == EnvelopeAt(f, q)
  {
    hide Parabola;
    assert hull[k] < |f|;
    EnvelopeIsLeast(f, q as real, |f|);
  }

  // ----- the grid transform -----

  /** Flat index of grid cell (i, j). */
  function CellIndex(nx: nat, i: nat, j: nat): nat {
    j * nx + i
  }

  lemma CellIndexOrder(nx: nat, i: nat, j: nat)
    ensures CellIndex(nx, 0, 0) == 0 && CellIndex(nx, i + 1, j) == CellIndex(nx, i, j) + 1
    ensures CellIndex(nx, 0, j + 1) == CellIndex(nx, nx, j)
  {
  }

  /** Column and row of a flat index. */
  ghost function CellX(nx: nat, k: nat): nat {
    if nx == 0 || k < nx then k else CellX(nx, k - nx)
  }

  ghost function CellY(nx: nat, k: nat): nat {
    if nx == 0 || k < nx then 0 else 1 + CellY(nx, k - nx)
  }

  lemma CellIndexInRange(nx: nat, ny: nat, i: nat, j: nat)
    requires i < nx && j < ny
    ensures CellIndex(nx, i, j) < nx * ny
  {
    MulLeNat(j + 1, ny, nx);
  }

  lemma {:induction false} CellIndexInverts(nx: nat, i: nat, j: nat)
    requires i < nx
    ensures CellX(nx, CellIndex(nx, i, j)) == i && CellY(nx, CellIndex(nx, i, j)) == j
  {
    if j > 0 {
      CellIndexInverts(nx, i, j - 1);
      assert CellIndex(nx, i, j) == nx + CellIndex(nx, i, j - 1);
    }
  }

  ghost predicate IsGrid(size: nat, nx: nat, ny: nat) {
    && size == nx * ny
    && (forall i, j {:trigger CellIndex(nx, i, j)} | 0 <= i < nx && 0 <= j < ny ::
          CellIndex(nx, i, j) < size && CellX(nx, CellIndex(nx, i, j)) == i && CellY(nx, CellIndex(nx, i, j)) == j)
  }

  lemma GridOfSize(nx: nat, ny: nat)
    ensures IsGrid(nx * ny, nx, ny)
  {
    hide CellIndex, CellX, CellY;
    forall i, j | 0 <= i < nx && 0 <= j < ny
      ensures CellIndex(nx, i, j) < nx * ny && CellX(nx, CellIndex(nx, i, j)) == i && CellY(nx, CellIndex(nx, i, j)) == j
    {
      CellIndexInRange(nx, ny, i, j);
      CellIndexInverts(nx, i, j);
    }
  }

  ghost function Row(d: seq<real>, nx: nat, ny: nat, j: nat): seq<real>
    requires IsGrid(|d|, nx, ny) && j < ny
  {
    seq(nx, i requires 0 <= i < nx => d[CellIndex(nx, i, j)])
  }

  ghost function Column(d: seq<real>, nx: nat, ny: nat, i: nat): seq<real>
    requires IsGrid(|d|, nx, ny) && i < nx
  {
    seq(ny, j requires 0 <= j < ny => d[CellIndex(nx, i, j)])
  }

  /** d1 is d0 with every row transformed. */
  ghost predicate RowsDone(d0: seq<real>, d1: seq<real>, nx: nat, ny: nat, n: nat)
    requires IsGrid(|d0|, nx, ny) && IsGrid(|d1|, nx, ny) && n <= ny
  {
    && (forall i, j | 0 <= i < nx && 0 <= j < n :: d1[CellIndex(nx, i, j)] == EnvelopeAt(Row(d0, nx, ny, j), i))
    && (forall i, j | 0 <= i < nx && n <= j < ny :: d1[CellIndex(nx, i, j)] == d0[CellIndex(nx, i, j)])
  }

  ghost predicate ColumnsDone(d1: seq<real>, d2: seq<real>, nx: nat, ny: nat, n: nat)
    requires IsGrid(|d1|, nx, ny) && IsGrid(|d2|, nx, ny) && n <= nx
  {
    && (forall i, j | 0 <= i < n && 0 <= j < ny :: d2[CellIndex(nx, i, j)] == EnvelopeAt(Column(d1, nx, ny, i), j))
    && (forall i, j | n <= i < nx && 0 <= j < ny :: d2[CellIndex(nx, i, j)] == d1[CellIndex(nx, i, j)])
  }

  predicate Background(solid: seq<bool>, nx: nat, ny: nat, i: nat, j: nat)
  {
    i < nx && j < ny && CellIndex(nx, i, j) < |solid| && !solid[CellIndex(nx, i, j)]
  }

  /** Squared distance between the centres of two cells, in cells. */
  function CellGap2(i: nat, j: nat, p: nat, r: nat): real {
    Sq(i as real - p as real) + Sq(j as real - r as real)
  }

  /** Larger than any squared distance on the grid. */
  function Big(nx: nat, ny: nat): real {
    (nx * nx + ny * ny) as real + 1.0
  }

  /** v is the exact squared distance from cell (i, j) to the nearest background cell, or `Big` when there is none. */
  ghost predicate IsBackgroundDistance2(solid: seq<bool>, nx: nat, ny: nat, i: nat, j: nat, v: real) {
    && (forall p, r | Background(solid, nx, ny, p, r) :: v <= CellGap2(i, j, p, r))
    && ((exists p, r :: Background(solid, nx, ny, p, r) && v == CellGap2(i, j, p, r))
        || (v == Big(nx, ny) && forall p, r :: !Background(solid, nx, ny, p, r)))
  }

  lemma GapBelowBig(nx: nat, ny: nat, i: nat, j: nat, p: nat, r: nat)
    requires i < nx && p < nx && j < ny && r < ny
    ensures CellGap2(i, j, p, r) < Big(nx, ny)
  {
    SqBelow(i as real - p as real, nx as real);
    SqBelow(j as real - r as real, ny as real);
    assert (nx * nx) as real == nx as real * nx as real && (ny * ny) as real == ny as real * ny as real;
  }

  lemma SqBelow(u: real, b: real)
    requires -b <= u <= b
    ensures Sq(u) <= b * b
  {
    MulNonneg(b - u, b + u);
  }

  /** Rows then columns: the two one-dimensional minima make the two-dimensional one. */
  lemma TwoPassesAreExact(solid: seq<bool>, d0: seq<real>, d1: seq<real>, d2: seq<real>, nx: nat, ny: nat, i: nat, j: nat)
    requires IsGrid(|solid|, nx, ny) && IsGrid(|d0|, nx, ny) && IsGrid(|d1|, nx, ny) && IsGrid(|d2|, nx, ny)
    requires forall k | 0 <= k < nx * ny :: d0[k] == if solid[k] then Big(nx, ny) else 0.0
    requires RowsDone(d0, d1, nx, ny, ny) && ColumnsDone(d1, d2, nx, ny, nx)
    requires i < nx && j < ny
    ensures IsBackgroundDistance2(solid, nx, ny, i, j, d2[CellIndex(nx, i, j)])
  {
    hide CellIndex, CellX, CellY, Big, Sq, Parabola, EnvelopeAt, CellGap2;
    var v := d2[CellIndex(nx, i, j)];
    var col := Column(d1, nx, ny, i);
    forall p, r | 0 <= p < nx && 0 <= r < ny
      ensures v <= CellGap2(i, j, p, r) + d0[CellIndex(nx, p, r)]
    {
      TwoStepBound(Row(d0, nx, ny, r), col, i, j, p, r);
    }
    var r := EnvelopeAttained(col, j);
    var p := EnvelopeAttained(Row(d0, nx, ny, r), i);
    TwoStepGap(Row(d0, nx, ny, r), col, i, j, p, r);
    assert v == CellGap2(i, j, p, r) + d0[CellIndex(nx, p, r)];
    if solid[CellIndex(nx, p, r)] {
      CellGapFacts(i, j, p, r);
      forall p', r' | Background(solid, nx, ny, p', r')
        ensures false
      {
        GapBelowBig(nx, ny, i, j, p', r');
      }
      assert !Background(solid, nx, ny, i, j);
      assert v <= CellGap2(i, j, i, j) + d0[CellIndex(nx, i, j)];
    } else {
      assert Background(solid, nx, ny, p, r);
    }
  }

  lemma TwoStepBound(row: seq<real>, col: seq<real>, i: nat, j: nat, p: nat, r: nat)
    requires p < |row| && r < |col| && col[r] == EnvelopeAt(row, i)
    ensures EnvelopeAt(col, j) <= CellGap2(i, j, p, r) + row[p]
  {
    hide Sq;
    EnvelopeIsLeast(col, j as real, |col|);
    EnvelopeIsLeast(row, i as real, |row|);
    assert col[r] <= Parabola(row, p, i as real);
    assert EnvelopeAt(col, j) <= Parabola(col, r, j as real);
  }

  lemma EnvelopeAttained(f: seq<real>, q: nat) returns (p: nat)
    requires |f| > 0
    ensures p < |f| && EnvelopeAt(f, q) == Parabola(f, p, q as real)
  {
    EnvelopeIsLeast(f, q as real, |f|);
    p :| 0 <= p < |f| && EnvelopeAt(f, q) == Parabola(f, p, q as real);
  }

  lemma TwoStepGap(row: seq<real>, col: seq<real>, i: nat, j: nat, p: nat, r: nat)
    requires p < |row| && r < |col| && col[r] == Parabola(row, p, i as real)
    ensures Parabola(col, r, j as real) == CellGap2(i, j, p, r) + row[p]
  {
    hide Sq;
  }

  lemma CellGapFacts(i: nat, j: nat, p: nat, r: nat)
    ensures CellGap2(i, j, i, j) == 0.0 && CellGap2(i, j, p, r) >= 0.0
  {
  }

  // ----- clearance -----

  /** The double nearest to the square root of two. */
  const SQRT_2: real := 6369051672525773.0 / 4503599627370496.0

  /** Cells of slack subtracted from every reading. */
  const CLEARANCE_SLACK: real := 1.5 * SQRT_2

  /** What the proofs use of the square root. */
  ghost predicate IsRoot(root: real -> real) {
    forall v: real | v >= 0.0 :: root(v) >= 0.0 && Sq(root(v)) == v
  }

  function ToClearance(root: real -> real, v: real, cell: real): real {
    Max(root(v) * cell - CLEARANCE_SLACK * cell, 0.0)
  }

  /** c is the clearance of the exact background distance of cell (i, j). */
  ghost predicate IsClearance(solid: seq<bool>, nx: nat, ny: nat, i: nat, j: nat, c: real, cell: real, root: real -> real) {
    exists v :: IsBackgroundDistance2(solid, nx, ny, i, j, v) && c == ToClearance(root, v, cell)
  }

  method LoadRow(d: array<real>, nx: nat, ny: nat, j: nat, src: array<real>)
    requires IsGrid(d.Length, nx, ny) && j < ny && src.Length >= nx && d != src
    modifies src
    ensures src[..nx] == Row(d[..], nx, ny, j)
  {
    hide CellIndex;
    for i := 0 to nx
      invariant forall k | 0 <= k < i :: src[k] == d[CellIndex(nx, k, j)]
    {
      src[i] := d[CellIndex(nx, i, j)];
    }
  }

  method StoreRow(d: array<real>, nx: nat, ny: nat, j: nat, dst: array<real>)
    requires IsGrid(d.Length, nx, ny) && j < ny && dst.Length >= nx && d != dst
    modifies d
    ensures forall p | 0 <= p < nx :: d[CellIndex(nx, p, j)] == dst[p]
    ensures forall p, r | 0 <= p < nx && 0 <= r < ny && r != j :: d[CellIndex(nx, p, r)] == old(d[CellIndex(nx, p, r)])
  {
    hide CellIndex, CellX, CellY;
    for i := 0 to nx
      invariant forall p | 0 <= p < i :: d[CellIndex(nx, p, j)] == dst[p]
      invariant forall p, r | 0 <= p < nx && 0 <= r < ny && r != j :: d[CellIndex(nx, p, r)] == old(d[CellIndex(nx, p, r)])
    {
      d[CellIndex(nx, i, j)] := dst[i];
    }
  }

  method LoadColumn(d: array<real>, nx: nat, ny: nat, i: nat, src: array<real>)
    requires IsGrid(d.Length, nx, ny) && i < nx && src.Length >= ny && d != src
    modifies src
    ensures src[..ny] == Column(d[..], nx, ny, i)
  {
    hide CellIndex;
    for j := 0 to ny
      invariant forall k | 0 <= k < j :: src[k] == d[CellIndex(nx, i, k)]
    {
      src[j] := d[CellIndex(nx, i, j)];
    }
  }

  method StoreColumn(d: array<real>, nx: nat, ny: nat, i: nat, dst: array<real>)
    requires IsGrid(d.Length, nx, ny) && i < nx && dst.Length >= ny && d != dst
    modifies d
    ensures forall r | 0 <= r < ny :: d[CellIndex(nx, i, r)] == dst[r]
    ensures forall p, r | 0 <= p < nx && 0 <= r < ny && p != i :: d[CellIndex(nx, p, r)] == old(d[CellIndex(nx, p, r)])
  {
    hide CellIndex, CellX, CellY;
    for j := 0 to ny
      invariant forall r | 0 <= r < j :: d[CellIndex(nx, i, r)] == dst[r]
      invariant forall p, r | 0 <= p < nx && 0 <= r < ny && p != i :: d[CellIndex(nx, p, r)] == old(d[CellIndex(nx, p, r)])
    {
      d[CellIndex(nx, i, j)] := dst[j];
    }
  }

  /** Transform every row of the grid in place. */
  method RowPass(d: array<real>, nx: nat, ny: nat, src: array<real>, dst: array<real>, v: array<nat>, z: array<Bound>)
    requires IsGrid(d.Length, nx, ny)
    requires src.Length >= nx && dst.Length >= nx && v.Length >= nx && z.Length >= nx + 1
    requires d != src && d != dst && src != dst
    modifies d, src, dst, v, z
    ensures RowsDone(old(d[..]), d[..], nx, ny, ny)
  {
    hide CellIndex, CellX, CellY, EnvelopeAt;
    ghost var d0 := d[..];
    for j := 0 to ny
      invariant RowsDone(d0, d[..], nx, ny, j)
    {
      LoadRow(d, nx, ny, j, src);
      assert Row(d[..], nx, ny, j) == Row(d0, nx, ny, j);
      Edt1d(src[..nx], dst, v, z);
      StoreRow(d, nx, ny, j, dst);
    }
  }

  /** Transform every column of the grid in place. */
  method ColumnPass(d: array<real>, nx: nat, ny: nat, src: array<real>, dst: array<real>, v: array<nat>, z: array<Bound>)
    requires IsGrid(d.Length, nx, ny)
    requires src.Length >= ny && dst.Length >= ny && v.Length >= ny && z.Length >= ny + 1
    requires d != src && d != dst && src != dst
    modifies d, src, dst, v, z
    ensures ColumnsDone(old(d[..]), d[..], nx, ny, nx)
  {
    hide CellIndex, CellX, CellY, EnvelopeAt;
    ghost var d1 := d[..];
    for i := 0 to nx
      invariant ColumnsDone(d1, d[..], nx, ny, i)
    {
      LoadColumn(d, nx, ny, i, src);
      assert Column(d[..], nx, ny, i) == Column(d1, nx, ny, i);
      Edt1d(src[..ny], dst, v, z);
      StoreColumn(d, nx, ny, i, dst);
    }
  }

  /** Rows, columns, then the metric distance less the slack: every cell gets the clearance of its exact
      distance to the nearest background cell. */
  method ClearanceField(solid: seq<bool>, nx: nat, ny: nat, cell: real, root: real -> real) returns (d: array<real>)
    requires |solid| == nx * ny
    ensures fresh(d) && d.Length == nx * ny
    ensures forall i, j | 0 <= i < nx && 0 <= j < ny :: CellIndex(nx, i, j) < d.Length
    ensures forall i, j | 0 <= i < nx && 0 <= j < ny ::
              IsClearance(solid, nx, ny, i, j, d[CellIndex(nx, i, j)], cell, root)
  {
    hide CellIndex, CellX, CellY, Big, EnvelopeAt, Sq, IsBackgroundDistance2, ToClearance;
    d := new real[|solid|](k requires 0 <= k < |solid| => if solid[k] then Big(nx, ny) else 0.0);
    GridOfSize(nx, ny);
    if nx == 0 || ny == 0 {
      return;
    }
    ghost var d0 := d[..];
    var n_max := if nx >= ny then nx else ny;
    var src, dst := new real[n_max], new real[n_max];
    var v, z := new nat[n_max], new Bound[n_max + 1];
    RowPass(d, nx, ny, src, dst, v, z);
    ghost var d1 := d[..];
    ColumnPass(d, nx, ny, src, dst, v, z);
    ghost var d2 := d[..];
    for k := 0 to d.Length
      invariant forall m | 0 <= m < k :: d[m] == ToClearance(root, d2[m], cell)
      invariant forall m | k <= m < d.Length :: d[m] == d2[m]
    {
      d[k] := ToClearance(root, d[k], cell);
    }
    forall i, j | 0 <= i < nx && 0 <= j < ny
      ensures IsClearance(solid, nx, ny, i, j, d[CellIndex(nx, i, j)], cell, root)
    {
      TwoPassesAreExact(solid, d0, d1, d2, nx, ny, i, j);
      assert d[CellIndex(nx, i, j)] == ToClearance(root, d2[CellIndex(nx, i, j)], cell);
    }
  }

  /** Taking solid cells away never raises a clearance. */
  lemma FewerSolidLessClearance(solid: seq<bool>, fewer: seq<bool>, nx: nat, ny: nat, i: nat, j: nat,
                                c: real, less: real, cell: real, root: real -> real)
    requires |fewer| == |solid| && i < nx && j < ny
    requires forall k | 0 <= k < |solid| :: fewer[k] ==> solid[k]
    requires IsClearance(solid, nx, ny, i, j, c, cell, root) && IsClearance(fewer, nx, ny, i, j, less, cell, root)
    requires IsRoot(root) && cell >= 0.0
    ensures less <= c
  {
    hide IsBackgroundDistance2, ToClearance;
    var v :| IsBackgroundDistance2(solid, nx, ny, i, j, v) && c == ToClearance(root, v, cell);
    var w :| IsBackgroundDistance2(fewer, nx, ny, i, j, w) && less == ToClearance(root, w, cell);
    DistanceNonneg(fewer, nx, ny, i, j, w);
    FewerSolidShorterDistance(solid, fewer, nx, ny, i, j, v, w);
    ClearanceMonotone(root, w, v, cell);
  }

  lemma ClearanceMonotone(root: real -> real, w: real, v: real, cell: real)
    requires IsRoot(root) && cell >= 0.0 && 0.0 <= w <= v
    ensures ToClearance(root, w, cell) <= ToClearance(root, v, cell)
  {
    RootMonotone(root, w, v);
    MulLe(root(w), root(v), cell);
  }

  lemma FewerSolidShorterDistance(solid: seq<bool>, fewer: seq<bool>, nx: nat, ny: nat, i: nat, j: nat, v: real, w: real)
    requires |fewer| == |solid| && i < nx && j < ny
    requires forall k | 0 <= k < |solid| :: fewer[k] ==> solid[k]
    requires IsBackgroundDistance2(solid, nx, ny, i, j, v) && IsBackgroundDistance2(fewer, nx, ny, i, j, w)
    ensures w <= v
  {
    hide CellIndex, Sq, CellGap2, Big;
    assert forall p, r | Background(solid, nx, ny, p, r) :: Background(fewer, nx, ny, p, r);
    if p, r :| Background(solid, nx, ny, p, r) && v == CellGap2(i, j, p, r) {
    } else if p, r :| Background(fewer, nx, ny, p, r) && w == CellGap2(i, j, p, r) {
      GapBelowBig(nx, ny, i, j, p, r);
    }
  }

  lemma DistanceNonneg(solid: seq<bool>, nx: nat, ny: nat, i: nat, j: nat, v: real)
    requires IsBackgroundDistance2(solid, nx, ny, i, j, v)
    ensures v >= 0.0
  {
    hide CellIndex, CellX, CellY;
    if p, r :| Background(solid, nx, ny, p, r) && v == CellGap2(i, j, p, r) {
    } else {
      assert nx * nx >= 0 && ny * ny >= 0;
    }
  }

  lemma RootOf(root: real -> real, v: real)
    requires IsRoot(root) && v >= 0.0
    ensures root(v) >= 0.0 && Sq(root(v)) == v
  {
  }

  lemma RootMonotone(root: real -> real, u: real, v: real)
    requires IsRoot(root) && 0.0 <= u <= v
    ensures root(u) <= root(v)
  {
    if root(u) > root(v) {
      SqStrict(root(v), root(u));
    }
  }

  lemma SqStrict(u: real, v: real)
    requires 0.0 <= u < v
    ensures Sq(u) < Sq(v)
  {
    ProductPos(v - u, v + u, Sq(v) - Sq(u));
  }
}
