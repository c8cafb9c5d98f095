/** Distances by radius, the material of a set of beads, and the half-plane beyond a point outside convex material. */
module HalfPlane {
  import opened Arith
  import opened Geom
  import opened DistanceTransform
  import opened CellScan

  /** b is within r of a. */
  predicate Within(a: Point, b: Point, r: real) {
    r >= 0.0 && Dist2(a, b) <= Sq(r)
  }

  lemma WithinAdds(a: Point, b: Point, c: Point, m: real, n: real)
    requires Within(a, b, m) && Within(b, c, n)
    ensures Within(a, c, m + n)
  {
    hide Sq;
    Triangle(b.x - a.x, b.y - a.y, c.x - b.x, c.y - b.y, m, n);
  }

  lemma WithinSym(a: Point, b: Point, r: real)
    requires Within(a, b, r)
    ensures Within(b, a, r)
  {
    Dist2Sym(a, b);
  }

  lemma WithinMore(a: Point, b: Point, m: real, n: real)
    requires Within(a, b, m) && m <= n
    ensures Within(a, b, n)
  {
    hide Dist2;
    SqMonotone(m, n);
  }

  lemma RootIsWithin(root: real -> real, a: Point, b: Point)
    requires IsRoot(root)
    ensures root(Dist2(a, b)) >= 0.0 && Within(a, b, root(Dist2(a, b)))
  {
    hide Dist2;
    Dist2Nonneg(a, b);
    RootOf(root, Dist2(a, b));
  }

  lemma WithinBoundsRoot(root: real -> real, a: Point, b: Point, r: real)
    requires IsRoot(root) && Within(a, b, r)
    ensures root(Dist2(a, b)) <= r
  {
    hide Dist2, Sq;
    RootIsWithin(root, a, b);
    Dist2Nonneg(a, b);
    RootOf(root, Dist2(a, b));
    if root(Dist2(a, b)) > r { SqStrict(r, root(Dist2(a, b))); }
  }

  // ----- along a direction -----

  predicate Unit(u: Point) {
    Sq(u.x) + Sq(u.y) == 1.0
  }

  /** How far m lies beyond w in direction u. */
  function Along(m: Point, w: Point, u: Point): real {
    DotOf(m.x - w.x, m.y - w.y, u.x, u.y)
  }

  function DotOf(x: real, y: real, ux: real, uy: real): real {
    x * ux + y * uy
  }

  function Scaled(k: real, v: real): real {
    k * v
  }

  lemma AlongAdds(a: Point, b: Point, c: Point, u: Point)
    ensures Along(a, c, u) == Along(a, b, u) + Along(b, c, u)
  {
  }

  lemma AlongIsShort(m: Point, w: Point, u: Point, r: real)
    requires Unit(u) && Within(w, m, r)
    ensures -r <= Along(m, w, u) <= r
  {
    assert Sq(1.0) == 1.0;
    hide Sq, DotOf;
    DotIsBounded(m.x - w.x, m.y - w.y, u.x, u.y, r);
  }

  lemma DotIsBounded(x: real, y: real, ux: real, uy: real, r: real)
    requires r >= 0.0 && Sq(x) + Sq(y) <= Sq(r) && Sq(ux) + Sq(uy) <= Sq(1.0)
    ensures -r <= DotOf(x, y, ux, uy) <= r
  {
    DotIsShort(x, y, ux, uy, r);
    SqNeg(x);
    SqNeg(y);
    DotIsShort(-x, -y, ux, uy, r);
    NegatedDot(x, y, ux, uy);
    hide Sq, DotOf;
  }

  lemma DotIsShort(x: real, y: real, ux: real, uy: real, r: real)
    requires r >= 0.0 && Sq(x) + Sq(y) <= Sq(r) && Sq(ux) + Sq(uy) <= Sq(1.0)
    ensures DotOf(x, y, ux, uy) <= r
  {
    hide Sq;
    CauchySchwarz(x, y, ux, uy, r, 1.0);
  }

  lemma NegatedDot(x: real, y: real, ux: real, uy: real)
    ensures DotOf(-x, -y, ux, uy) == -DotOf(x, y, ux, uy)
  {
  }

  function Stepped(w: Point, u: Point, k: real): Point {
    Point(w.x + k * u.x, w.y + k * u.y)
  }

  lemma StepLength(w: Point, u: Point, k: real)
    requires Unit(u) && k >= 0.0
    ensures Within(w, Stepped(w, u, k), k) && Dist2(w, Stepped(w, u, k)) == Sq(k)
    ensures Along(Stepped(w, u, k), w, u) == k
  {
    ScaledSquares(u.x, u.y, k);
  }

  lemma ScaledSquares(x: real, y: real, k: real)
    requires Sq(x) + Sq(y) == 1.0
    ensures Sq(k * x) + Sq(k * y) == Sq(k)
    ensures k * x * x + k * y * y == k
  {
    SquareOfProduct(k, x);
    SquareOfProduct(k, y);
    assert Sq(k) * (Sq(x) + Sq(y)) == Sq(k) * Sq(x) + Sq(k) * Sq(y);
    assert k * (Sq(x) + Sq(y)) == k * x * x + k * y * y;
  }

  /** The direction from c to w, and w as a step along it. */
  lemma Direction(c: Point, w: Point, d: real) returns (u: Point)
    requires d > 0.0 && Dist2(c, w) == Sq(d)
    ensures Unit(u) && w == Stepped(c, u, d)
  {
    u := Point((w.x - c.x) / d, (w.y - c.y) / d);
    DivMul(w.x - c.x, d);
    DivMul(w.y - c.y, d);
    assert w.x - c.x == d * u.x && w.y - c.y == d * u.y;
    UnitOf(u.x, u.y, d);
  }

  lemma UnitOf(x: real, y: real, d: real)
    requires d > 0.0 && Sq(d * x) + Sq(d * y) == Sq(d)
    ensures Sq(x) + Sq(y) == 1.0
  {
    SquareOfProduct(d, x);
    SquareOfProduct(d, y);
    SqPos(d);
    var s := Sq(x) + Sq(y);
    Distributes(Sq(x), Sq(y), Sq(d));
    hide Sq;
    LessByFactor(s, 1.0, Sq(d));
    LessByFactor(1.0, s, Sq(d));
  }

  lemma Distributes(a: real, b: real, k: real)
    ensures (a + b) * k == k * a + k * b
  {
  }

  // ----- material -----

  /** m is within the half width of a bead. */
  ghost predicate Material(segs: seq<Segment>, halfWidth: real, m: Point) {
    exists s | 0 <= s < |segs| :: OnBead(segs[s], halfWidth, m)
  }

  predicate OnBead(seg: Segment, halfWidth: real, m: Point) {
    PointSegDist2(m, seg.start, seg.end) <= Sq(halfWidth)
  }

  /** The line through w across u has all the material strictly on its near side. */
  ghost predicate Supports(segs: seq<Segment>, halfWidth: real, w: Point, u: Point) {
    Unit(u) && forall m | Material(segs, halfWidth, m) :: Along(m, w, u) < 0.0
  }

  ghost predicate ConvexMaterial(segs: seq<Segment>, halfWidth: real) {
    forall a, b, t: real | 0.0 <= t <= 1.0 && Material(segs, halfWidth, a) && Material(segs, halfWidth, b) ::
      Material(segs, halfWidth, Lerp(a, b, t))
  }

  /** From a, walking towards b in the direction of p comes closer to p. */
  lemma StepCloser(p: Point, a: Point, b: Point) returns (t: real)
    requires Dot(p, a, b) > 0.0
    ensures 0.0 <= t <= 1.0 && Dist2(p, Lerp(a, b, t)) < Dist2(a, p)
  {
    PositiveDot(p, a, b);
    hide Dist2, Dot, Mix;
    t := Fraction(Dot(p, a, b), Dist2(a, b));
    CloserAt(p, a, b, t, Dot(p, a, b), Dist2(a, b), Dist2(a, p));
  }

  lemma Fraction(dot: real, len2: real) returns (t: real)
    requires dot > 0.0 && len2 > 0.0
    ensures 0.0 < t <= 1.0 && t * len2 <= dot
  {
    t := if dot >= len2 then 1.0 else dot / len2;
    DivMul(dot, len2);
    if dot < len2 { QuotientPositive(dot, len2, t); }
  }

  lemma CloserAt(p: Point, a: Point, b: Point, t: real, dot: real, len2: real, from: real)
    requires dot == Dot(p, a, b) && len2 == Dist2(a, b) && from == Dist2(a, p)
    requires dot > 0.0 && t > 0.0 && t * len2 <= dot
    ensures Dist2(p, Lerp(a, b, t)) < from
  {
    Dist2Expand(p, a, b, t);
    hide Dist2, Dot, Mix;
    assert Dist2(p, Lerp(a, b, t)) == from - 2.0 * t * dot + t * t * len2;
    QuadraticDrops(dot, len2, t);
  }

  lemma PositiveDot(p: Point, a: Point, b: Point)
    requires Dot(p, a, b) > 0.0
    ensures Dist2(a, b) > 0.0
  {
    Dist2Nonneg(a, b);
    if Dist2(a, b) == 0.0 {
      ZeroSquares(b.x - a.x, b.y - a.y);
      MulZero(p.x - a.x, b.x - a.x);
      MulZero(p.y - a.y, b.y - a.y);
    }
  }

  lemma QuadraticDrops(dot: real, len2: real, t: real)
    requires dot > 0.0 && t > 0.0 && t * len2 <= dot
    ensures -2.0 * t * dot + t * t * len2 < 0.0
  {
    MulLe(t * len2, dot, t);
    MulPos(t, dot);
  }

  lemma QuotientPositive(u: real, v: real, q: real)
    requires u > 0.0 && v > u && q * v == u
    ensures 0.0 < q < 1.0
  {
    if q <= 0.0 { MulLe(q, 0.0, v); }
    if q >= 1.0 { MulLe(1.0, q, v); }
  }

  lemma NearestBead(segs: seq<Segment>, w: Point) returns (n: nat)
    requires segs != []
    ensures n < |segs| && forall s | 0 <= s < |segs| ::
              PointSegDist2(w, segs[n].start, segs[n].end) <= PointSegDist2(w, segs[s].start, segs[s].end)
  {
    hide PointSegDist2;
    n := 0;
    for k := 1 to |segs|
      invariant n < |segs| && forall s | 0 <= s < k ::
                  PointSegDist2(w, segs[n].start, segs[n].end) <= PointSegDist2(w, segs[s].start, segs[s].end)
    {
      if PointSegDist2(w, segs[k].start, segs[k].end) < PointSegDist2(w, segs[n].start, segs[n].end) { n := k; }
    }
  }

  /** Material within e of w puts w within e + the half width of some bead's line. */
  lemma BeadNearMaterial(segs: seq<Segment>, halfWidth: real, w: Point, x: Point, e: real) returns (s: nat)
    requires halfWidth >= 0.0 && Within(w, x, e) && Material(segs, halfWidth, x)
    ensures s < |segs| && PointSegDist2(w, segs[s].start, segs[s].end) <= Sq(e + halfWidth)
  {
    s :| 0 <= s < |segs| && OnBead(segs[s], halfWidth, x);
    var t := ClosestT(x, segs[s].start, segs[s].end);
    var c := Lerp(segs[s].start, segs[s].end, t);
    ClosestIsNearest(w, segs[s].start, segs[s].end, t);
    hide ClosestT, Mix, Dist2, Sq;
    WithinAdds(w, x, c, e, halfWidth);
  }

  /** A point outside convex material has a line that leaves all of it behind. */
  lemma ConvexIsSupported(segs: seq<Segment>, halfWidth: real, w: Point, root: real -> real) returns (u: Point)
    requires halfWidth > 0.0 && IsRoot(root) && ConvexMaterial(segs, halfWidth) && !Material(segs, halfWidth, w)
    ensures Supports(segs, halfWidth, w, u)
  {
    if segs == [] {
      u := Point(1.0, 0.0);
      assert Sq(1.0) == 1.0 && Sq(0.0) == 0.0;
      return;
    }
    var n := NearestBead(segs, w);
    var c := Lerp(segs[n].start, segs[n].end, ClosestT(w, segs[n].start, segs[n].end));
    var d := root(Dist2(w, c));
    assert !OnBead(segs[n], halfWidth, w);
    FartherThan(root, w, c, halfWidth);
    Dist2Sym(w, c);
    u := Direction(c, w, d);
    var rim := Stepped(c, u, halfWidth);
    StepLength(c, u, halfWidth);
    RimIsMaterial(segs, halfWidth, n, c, rim, ClosestT(w, segs[n].start, segs[n].end));
    hide ClosestT, Mix, Dist2, Sq, Unit, ConvexMaterial, Stepped, OnBead;
    forall m | Material(segs, halfWidth, m)
      ensures Along(m, w, u) < 0.0
    {
      NotBeyondRim(segs, halfWidth, w, root, n, c, u, d, rim, m);
    }
  }

  lemma FartherThan(root: real -> real, w: Point, c: Point, halfWidth: real)
    requires IsRoot(root) && halfWidth >= 0.0 && Dist2(w, c) > Sq(halfWidth)
    ensures root(Dist2(w, c)) > halfWidth && Sq(root(Dist2(w, c))) == Dist2(w, c)
  {
    hide Dist2;
    RootOf(root, Dist2(w, c));
    if root(Dist2(w, c)) <= halfWidth { SqMonotone(root(Dist2(w, c)), halfWidth); }
  }

  lemma RimIsMaterial(segs: seq<Segment>, halfWidth: real, n: nat, c: Point, rim: Point, t: real)
    requires n < |segs| && 0.0 <= t <= 1.0 && c == Lerp(segs[n].start, segs[n].end, t) && Within(c, rim, halfWidth)
    ensures Material(segs, halfWidth, rim)
  {
    hide Mix, Dist2, Sq, ClosestT;
    WithinSym(c, rim, halfWidth);
    ClosestIsNearest(rim, segs[n].start, segs[n].end, t);
    assert OnBead(segs[n], halfWidth, rim);
  }

  lemma NotBeyondRim(segs: seq<Segment>, halfWidth: real, w: Point, root: real -> real, n: nat, c: Point, u: Point, d: real, rim: Point, m: Point)
    requires halfWidth > 0.0 && IsRoot(root) && ConvexMaterial(segs, halfWidth)
    requires n < |segs| && Sq(d) == PointSegDist2(w, segs[n].start, segs[n].end) && d > halfWidth
    requires forall s | 0 <= s < |segs| :: PointSegDist2(w, segs[n].start, segs[n].end) <= PointSegDist2(w, segs[s].start, segs[s].end)
    requires Unit(u) && w == Stepped(c, u, d) && rim == Stepped(c, u, halfWidth)
    requires Material(segs, halfWidth, rim) && Material(segs, halfWidth, m)
    ensures Along(m, w, u) < 0.0
  {
    var g := d - halfWidth;
    SteppedOn(c, u, halfWidth, d);
    StepLength(rim, u, g);
    AlongAdds(m, rim, w, u);
    AlongBack(rim, w, u);
    hide Sq, Mix, Dist2, PointSegDist2, Stepped, Unit, Along, Dot, ConvexMaterial, Material;
    if Along(m, rim, u) > 0.0 {
      DotAlong(w, rim, m, u, g);
      var t := StepCloser(w, rim, m);
      NoMaterialCloser(segs, halfWidth, w, root, n, d, rim, m, t, g);
    }
  }

  lemma SteppedOn(c: Point, u: Point, k: real, d: real)
    ensures Stepped(c, u, d) == Stepped(Stepped(c, u, k), u, d - k)
  {
  }

  lemma AlongBack(a: Point, b: Point, u: Point)
    ensures Along(a, b, u) == -Along(b, a, u)
  {
  }

  lemma DotAlong(w: Point, a: Point, b: Point, u: Point, g: real)
    requires g > 0.0 && w == Stepped(a, u, g) && Along(b, a, u) > 0.0
    ensures Dot(w, a, b) > 0.0
  {
    MulPos(g, Along(b, a, u));
    assert Dot(w, a, b) == g * Along(b, a, u);
  }

  lemma NoMaterialCloser(segs: seq<Segment>, halfWidth: real, w: Point, root: real -> real, n: nat, d: real, rim: Point, m: Point, t: real, g: real)
    requires halfWidth > 0.0 && IsRoot(root) && ConvexMaterial(segs, halfWidth) && 0.0 <= t <= 1.0
    requires n < |segs| && Sq(d) == PointSegDist2(w, segs[n].start, segs[n].end) && d == g + halfWidth && g > 0.0
    requires forall s | 0 <= s < |segs| :: PointSegDist2(w, segs[n].start, segs[n].end) <= PointSegDist2(w, segs[s].start, segs[s].end)
    requires Material(segs, halfWidth, rim) && Material(segs, halfWidth, m) && Dist2(rim, w) == Sq(g)
    ensures Dist2(w, Lerp(rim, m, t)) >= Dist2(rim, w)
  {
    hide Mix, Sq, Dist2, PointSegDist2;
    var x := Lerp(rim, m, t);
    assert Material(segs, halfWidth, x);
    var e := root(Dist2(w, x));
    RootIsWithin(root, w, x);
    Dist2Nonneg(w, x);
    RootOf(root, Dist2(w, x));
    if Dist2(w, x) < Sq(g) {
      if e >= g { SqMonotone(g, e); }
      var s := BeadNearMaterial(segs, halfWidth, w, x, e);
      SqStrict(e + halfWidth, d);
    }
  }

  /** One bead is convex. */
  lemma OneBeadIsConvex(seg: Segment, halfWidth: real)
    requires halfWidth > 0.0
    ensures ConvexMaterial([seg], halfWidth)
  {
    forall a, b, t: real | 0.0 <= t <= 1.0 && Material([seg], halfWidth, a) && Material([seg], halfWidth, b)
      ensures Material([seg], halfWidth, Lerp(a, b, t))
    {
      BeadLerp(seg, halfWidth, a, b, t);
      assert OnBead([seg][0], halfWidth, Lerp(a, b, t));
    }
  }

  lemma BeadLerp(seg: Segment, halfWidth: real, a: Point, b: Point, t: real)
    requires halfWidth > 0.0 && 0.0 <= t <= 1.0 && OnBead(seg, halfWidth, a) && OnBead(seg, halfWidth, b)
    ensures OnBead(seg, halfWidth, Lerp(a, b, t))
  {
    var s, e := ClosestT(a, seg.start, seg.end), ClosestT(b, seg.start, seg.end);
    var c, f := Lerp(seg.start, seg.end, s), Lerp(seg.start, seg.end, e);
    var k := Mix(s, e, t);
    Between(s, e, t);
    ClosestIsNearest(Lerp(a, b, t), seg.start, seg.end, k);
    MixOfMix(seg.start.x, seg.end.x, s, e, t);
    MixOfMix(seg.start.y, seg.end.y, s, e, t);
    hide ClosestT;
    LerpWithin(a, c, b, f, t, halfWidth);
  }

  lemma MixOfMix(u: real, v: real, s: real, e: real, t: real)
    ensures Mix(u, v, Mix(s, e, t)) == Mix(Mix(u, v, s), Mix(u, v, e), t)
  {
  }

  /** Points within r of each other stay so at the same place between two others within r. */
  lemma LerpWithin(a: Point, c: Point, b: Point, f: Point, t: real, r: real)
    requires 0.0 <= t <= 1.0 && Within(a, c, r) && Within(b, f, r)
    ensures Within(Lerp(a, b, t), Lerp(c, f, t), r)
  {
    LerpDifference(a.x, b.x, c.x, f.x, t);
    LerpDifference(a.y, b.y, c.y, f.y, t);
    hide Sq, Mix, Scaled;
    WeightedMean(c.x - a.x, c.y - a.y, f.x - b.x, f.y - b.y, 1.0 - t, t, r);
  }

  lemma WeightedMean(ux: real, uy: real, vx: real, vy: real, s: real, t: real, r: real)
    requires s >= 0.0 && t >= 0.0 && s + t == 1.0 && r >= 0.0
    requires Sq(ux) + Sq(uy) <= Sq(r) && Sq(vx) + Sq(vy) <= Sq(r)
    ensures Sq(Scaled(s, ux) + Scaled(t, vx)) + Sq(Scaled(s, uy) + Scaled(t, vy)) <= Sq(r)
  {
    ScaledVector(ux, uy, s, r);
    ScaledVector(vx, vy, t, r);
    WholeOf(s, t, r);
    hide Sq, Scaled;
    Triangle(Scaled(s, ux), Scaled(s, uy), Scaled(t, vx), Scaled(t, vy), Scaled(s, r), Scaled(t, r));
  }

  lemma WholeOf(s: real, t: real, r: real)
    requires s + t == 1.0
    ensures Scaled(s, r) + Scaled(t, r) == r
  {
    Distributes(s, t, r);
  }

  lemma LerpDifference(a: real, b: real, c: real, f: real, t: real)
    ensures Mix(c, f, t) - Mix(a, b, t) == Scaled(1.0 - t, c - a) + Scaled(t, f - b)
  {
  }

  lemma ScaledVector(x: real, y: real, k: real, r: real)
    requires k >= 0.0 && r >= 0.0 && Sq(x) + Sq(y) <= Sq(r)
    ensures Scaled(k, r) >= 0.0 && Sq(Scaled(k, x)) + Sq(Scaled(k, y)) <= Sq(Scaled(k, r))
  {
    hide Sq;
    SquareOfProduct(k, x);
    SquareOfProduct(k, y);
    SquareOfProduct(k, r);
    MulNonneg(k, r);
    MulLe(Sq(x) + Sq(y), Sq(r), Sq(k));
    Distributes(Sq(x), Sq(y), Sq(k));
  }
}
