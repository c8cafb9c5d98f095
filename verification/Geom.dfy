/** The 2-D geometry kernel: closest points, proper crossings, and the distance
    between a segment and an axis-aligned box.  Coordinates are exact reals and
    every distance is kept squared, so no square root appears. */
module Geom {
  import opened Arith

  datatype Point = Point(x: real, y: real)

  function Sq(v: real): (r: real)
    ensures r >= 0.0
  {
    v * v
  }

  function Min(u: real, v: real): real {
    if u <= v then u else v
  }

  function Max(u: real, v: real): real {
    if u >= v then u else v
  }

  function Clamp(v: real, lo: real, hi: real): real {
    if v < lo then lo else if v > hi then hi else v
  }

  function Dist2(a: Point, b: Point): real {
    Sq(b.x - a.x) + Sq(b.y - a.y)
  }

  function Mix(u: real, v: real, t: real): real {
    u + (v - u) * t
  }

  function Lerp(a: Point, b: Point, t: real): Point {
    Point(Mix(a.x, b.x, t), Mix(a.y, b.y, t))
  }

  /** (p - a) . (b - a) */
  function Dot(p: Point, a: Point, b: Point): real {
    (p.x - a.x) * (b.x - a.x) + (p.y - a.y) * (b.y - a.y)
  }

  /** Parameter of the point of segment `a..b` closest to `p`. */
  function ClosestT(p: Point, a: Point, b: Point): (t: real)
    ensures 0.0 <= t <= 1.0
  {
    if Dist2(a, b) > 0.0 then
      Clamp(Dot(p, a, b) / Dist2(a, b), 0.0, 1.0)
    else
      0.5
  }

  function PointSegDist2(p: Point, a: Point, b: Point): real {
    Dist2(p, Lerp(a, b, ClosestT(p, a, b)))
  }

  predicate InBox(p: Point, lo: Point, hi: Point) {
    lo.x <= p.x <= hi.x && lo.y <= p.y <= hi.y
  }

  predicate OrderedBox(lo: Point, hi: Point) {
    lo.x <= hi.x && lo.y <= hi.y
  }

  function PointBoxDist2(p: Point, lo: Point, hi: Point): real {
    Sq(Max(Max(lo.x - p.x, 0.0), p.x - hi.x)) + Sq(Max(Max(lo.y - p.y, 0.0), p.y - hi.y))
  }

  /** Signed area of the triangle (a, b, c), doubled. */
  function SignedArea(ax: real, ay: real, ex: real, ey: real, cx: real, cy: real): real {
    (ex - ax) * (cy - ay) - (ey - ay) * (cx - ax)
  }

  function Orient(a: Point, b: Point, c: Point): real {
    SignedArea(a.x, a.y, b.x, b.y, c.x, c.y)
  }

  predicate OppositeSigns(u: real, v: real) {
    (u > 0.0 && v < 0.0) || (u < 0.0 && v > 0.0)
  }

  /** Strict crossing of `p1..p2` and `q1..q2`; touching and collinear pairs are not crossings. */
  predicate ProperIntersect(p1: Point, p2: Point, q1: Point, q2: Point) {
    OppositeSigns(Orient(q1, q2, p1), Orient(q1, q2, p2)) &&
    OppositeSigns(Orient(p1, p2, q1), Orient(p1, p2, q2))
  }

  /** The box corners in the order the edges walk them: corner i to corner i + 1 is an edge. */
  function Corner(lo: Point, hi: Point, i: nat): Point
    requires i < 4
  {
    Point(if i == 0 || i == 3 then lo.x else hi.x, if i < 2 then lo.y else hi.y)
  }

  predicate CrossesEdge(a: Point, b: Point, lo: Point, hi: Point, i: nat)
    requires i < 4
  {
    ProperIntersect(a, b, Corner(lo, hi, i), Corner(lo, hi, (i + 1) % 4))
  }

  function CornerMin(a: Point, b: Point, lo: Point, hi: Point, n: nat): real
    requires n <= 4
  {
    if n == 0 then Min(PointBoxDist2(a, lo, hi), PointBoxDist2(b, lo, hi))
    else Min(CornerMin(a, b, lo, hi, n - 1), PointSegDist2(Corner(lo, hi, n - 1), a, b))
  }

  /** The value of the segment-box distance (squared): the function the loops below compute. */
  function SegBoxDist2(a: Point, b: Point, lo: Point, hi: Point): real {
    if InBox(a, lo, hi) || InBox(b, lo, hi) then 0.0
    else if exists i | 0 <= i < 4 :: CrossesEdge(a, b, lo, hi, i) then 0.0
    else CornerMin(a, b, lo, hi, 4)
  }

  method SegBoxDistance(a: Point, b: Point, lo: Point, hi: Point) returns (best: real)
    ensures best == SegBoxDist2(a, b, lo, hi)
    ensures OrderedBox(lo, hi) ==> IsLeastDistance2(best, a, b, lo, hi)
  {
    if OrderedBox(lo, hi) { SegBoxIsExact(a, b, lo, hi); }
    hide Mix, Sq, Dist2, IsLeastDistance2;
    if InBox(a, lo, hi) || InBox(b, lo, hi) {
      return 0.0;
    }
    for i := 0 to 4
      invariant forall k | 0 <= k < i :: !CrossesEdge(a, b, lo, hi, k)
    {
      if ProperIntersect(a, b, Corner(lo, hi, i), Corner(lo, hi, (i + 1) % 4)) {
        assert CrossesEdge(a, b, lo, hi, i);
        return 0.0;
      }
    }
    best := Min(PointBoxDist2(a, lo, hi), PointBoxDist2(b, lo, hi));
    for i := 0 to 4
      invariant best == CornerMin(a, b, lo, hi, i)
    {
      best := Min(best, PointSegDist2(Corner(lo, hi, i), a, b));
    }
  }

  // ----- closest point of a segment -----

  lemma Dist2Expand(p: Point, a: Point, b: Point, t: real)
    ensures Dist2(p, Lerp(a, b, t)) == Dist2(a, p) - 2.0 * t * Dot(p, a, b) + t * t * Dist2(a, b)
  {
    hide Sq, Mix;
    AxisExpand(p.x, a.x, b.x, t);
    AxisExpand(p.y, a.y, b.y, t);
  }

  lemma AxisExpand(p: real, a: real, b: real, t: real)
    ensures Sq(Mix(a, b, t) - p) == Sq(p - a) - 2.0 * t * ((p - a) * (b - a)) + t * t * Sq(b - a)
  {
  }

  /** L t^2 - 2 t D, over t in [0, 1], is least at D / L clamped to [0, 1]. */
  lemma ClampMinimizes(len2: real, dot: real, s: real, t: real)
    requires len2 > 0.0 && 0.0 <= t <= 1.0 && s == Clamp(dot / len2, 0.0, 1.0)
    ensures s * s * len2 - 2.0 * s * dot <= t * t * len2 - 2.0 * t * dot
  {
    var u := dot / len2;
    var gap := t * t - 2.0 * t * u - (s * s - 2.0 * s * u);
    if s == u {
      SquareNonneg(t - u);
    } else if s == 0.0 {
      MulNonneg(t, t - 2.0 * u);
    } else {
      MulNonneg(1.0 - t, 2.0 * u - 1.0 - t);
    }
    assert gap >= 0.0;
    MulNonneg(len2, gap);
    DivMul(dot, len2);
    MulZero(t, dot - u * len2);
    MulZero(s, dot - u * len2);
  }

  /** No point of the segment is closer to `p` than the one `ClosestT` names. */
  lemma ClosestIsNearest(p: Point, a: Point, b: Point, t: real)
    requires 0.0 <= t <= 1.0
    ensures PointSegDist2(p, a, b) <= Dist2(p, Lerp(a, b, t))
  {
    hide Sq, Mix;
    var s := ClosestT(p, a, b);
    if Dist2(a, b) > 0.0 {
      ClampMinimizes(Dist2(a, b), Dot(p, a, b), s, t);
      Dist2Expand(p, a, b, t);
      Dist2Expand(p, a, b, s);
    } else {
      ZeroSquares(b.x - a.x, b.y - a.y);
      MixSame(a.x, t);
      MixSame(a.x, s);
      MixSame(a.y, t);
      MixSame(a.y, s);
    }
  }

  lemma MixSame(u: real, t: real)
    ensures Mix(u, u, t) == u
  {
  }

  lemma MixEnds(u: real, v: real)
    ensures Mix(u, v, 0.0) == u && Mix(u, v, 1.0) == v
  {
  }

  lemma ZeroSquares(dx: real, dy: real)
    requires Sq(dx) + Sq(dy) <= 0.0
    ensures dx == 0.0 && dy == 0.0
  {
    if dx != 0.0 { SqPos(dx); }
    if dy != 0.0 { SqPos(dy); }
  }

  lemma SqPos(u: real)
    requires u != 0.0
    ensures Sq(u) > 0.0
  {
    ProductPos(if u > 0.0 then u else -u, if u > 0.0 then u else -u, Sq(u));
  }

  lemma SqMonotone(u: real, v: real)
    requires 0.0 <= u <= v
    ensures Sq(u) <= Sq(v)
  {
    MulNonneg(v - u, v + u);
  }

  /** `PointBoxDist2` bounds the distance from `p` to every point of the box. */
  lemma PointBoxNearest(p: Point, lo: Point, hi: Point, q: Point)
    requires InBox(q, lo, hi)
    ensures PointBoxDist2(p, lo, hi) <= Dist2(p, q)
  {
    AxisGap(p.x, lo.x, hi.x, q.x);
    AxisGap(p.y, lo.y, hi.y, q.y);
  }

  lemma AxisGap(p: real, lo: real, hi: real, q: real)
    requires lo <= q <= hi
    ensures Sq(Max(Max(lo - p, 0.0), p - hi)) <= Sq(q - p)
  {
    if p < lo {
      SqMonotone(lo - p, q - p);
    } else if p > hi {
      SqMonotone(p - hi, p - q);
      assert Sq(p - q) == Sq(q - p);
    } else {
      assert Sq(0.0) == 0.0;
    }
  }

  // ----- walking along the segment -----

  /** Points between P(t) and an endpoint of the segment are again points of the segment. */
  lemma LerpTowards(a: Point, b: Point, t: real, s: real, toB: bool) returns (r: real)
    requires 0.0 <= t <= 1.0 && 0.0 <= s <= 1.0
    ensures 0.0 <= r <= 1.0
    ensures Lerp(a, b, r) == Lerp(Lerp(a, b, t), if toB then b else a, s)
  {
    hide Mix;
    MulNonneg(1.0 - t, s);
    MulNonneg(1.0 - t, 1.0 - s);
    MulNonneg(t, s);
    MulNonneg(t, 1.0 - s);
    r := if toB then t + (1.0 - t) * s else t - t * s;
    MixTowards(a.x, b.x, t, s);
    MixTowards(a.y, b.y, t, s);
  }

  lemma MixTowards(u: real, v: real, t: real, s: real)
    ensures Mix(u, v, t + (1.0 - t) * s) == Mix(Mix(u, v, t), v, s)
    ensures Mix(u, v, t - t * s) == Mix(Mix(u, v, t), u, s)
  {
  }

  /** A point strictly between `u` and `v` on a line is at parameter (w - u) / (v - u). */
  lemma Reach(u: real, v: real, w: real) returns (s: real)
    requires u != v && ((u <= w <= v) || (v <= w <= u))
    ensures 0.0 <= s <= 1.0 && Mix(u, v, s) == w
  {
    s := (w - u) / (v - u);
    DivMul(w - u, v - u);
    if s < 0.0 {
      if v > u { MulPos(v - u, -s); } else { MulPos(u - v, -s); }
    }
    if s > 1.0 {
      if v > u { MulPos(v - u, s - 1.0); } else { MulPos(u - v, s - 1.0); }
    }
  }

  lemma Between(u: real, v: real, s: real)
    requires 0.0 <= s <= 1.0
    ensures Min(u, v) <= Mix(u, v, s) <= Max(u, v)
  {
    var d := if v >= u then v - u else u - v;
    MulNonneg(d, s);
    MulNonneg(d, 1.0 - s);
  }

  /** `Mix` moves monotonically from u towards v. */
  lemma Steeper(u: real, v: real, s: real, r: real)
    requires 0.0 <= s <= r
    ensures u <= v ==> u <= Mix(u, v, s) <= Mix(u, v, r)
    ensures u >= v ==> u >= Mix(u, v, s) >= Mix(u, v, r)
  {
    var d := if u <= v then v - u else u - v;
    MulNonneg(d, r - s);
    MulNonneg(d, s);
  }

  /** Starting in the strip y0..y1 left of x = c and walking to (ex, ey) without moving left, the walk
      ends in the strip still left of c, or leaves it over y0 or y1 before c, or reaches x = c inside it. */
  lemma StripExit(px: real, py: real, ex: real, ey: real, c: real, y0: real, y1: real) returns (s: real)
    requires px < c && y0 <= py <= y1 && px <= ex
    ensures 0.0 <= s <= 1.0
    ensures var rx, ry := Mix(px, ex, s), Mix(py, ey, s);
            || (s == 1.0 && ex < c && y0 <= ey <= y1)
            || ((ry == y0 || ry == y1) && px <= rx <= c)
            || (rx == c && y0 <= ry <= y1)
  {
    hide Mix;
    if y0 <= ey <= y1 {
      if ex < c {
        s := 1.0;
      } else {
        s := Reach(px, ex, c);
        Between(py, ey, s);
      }
    } else {
      var y := if ey > y1 then y1 else y0;
      s := Reach(py, ey, y);
      Between(px, ex, s);
      if Mix(px, ex, s) > c {
        var r := Reach(px, ex, c);
        if r > s { Steeper(px, ex, s, r); }
        Steeper(py, ey, r, s);
        s := r;
      }
    }
  }

  /** Walking from p inside the box to e outside it, the last point inside lies on a side e is beyond. */
  lemma BoxExit(p: Point, e: Point, lo: Point, hi: Point) returns (s: real)
    requires InBox(p, lo, hi) && !InBox(e, lo, hi)
    ensures 0.0 <= s <= 1.0 && InBox(Lerp(p, e, s), lo, hi)
    ensures var r := Lerp(p, e, s);
            || (r.x == lo.x && e.x < lo.x) || (r.x == hi.x && e.x > hi.x)
            || (r.y == lo.y && e.y < lo.y) || (r.y == hi.y && e.y > hi.y)
  {
    hide Mix;
    var sx := AxisExit(p.x, e.x, lo.x, hi.x);
    var sy := AxisExit(p.y, e.y, lo.y, hi.y);
    s := Min(sx, sy);
    Steeper(p.x, e.x, s, sx);
    Steeper(p.y, e.y, s, sy);
  }

  /** The parameter at which one coordinate leaves lo..hi (1 when it never does), and where that is. */
  lemma AxisExit(p: real, e: real, lo: real, hi: real) returns (s: real)
    requires lo <= p <= hi
    ensures 0.0 <= s <= 1.0 && lo <= Mix(p, e, s) <= hi
    ensures if e < lo then Mix(p, e, s) == lo && s < 1.0
            else if e > hi then Mix(p, e, s) == hi && s < 1.0
            else s == 1.0
  {
    hide Mix;
    MixEnds(p, e);
    if e < lo || e > hi {
      s := Reach(p, e, if e < lo then lo else hi);
    } else {
      s := 1.0;
    }
  }

  // ----- a segment that meets the box from outside -----

  /** The sign tests succeed where a segment passes through the line x = c strictly between y0 and y1. */
  lemma CrossVertical(ax: real, ay: real, ex: real, ey: real, c: real, y0: real, y1: real, t: real)
    requires Mix(ax, ex, t) == c && Min(y0, y1) < Mix(ay, ey, t) < Max(y0, y1)
    requires (ax < c < ex) || (ex < c < ax)
    ensures OppositeSigns(SignedArea(c, y0, c, y1, ax, ay), SignedArea(c, y0, c, y1, ex, ey))
    ensures OppositeSigns(SignedArea(ax, ay, ex, ey, c, y0), SignedArea(ax, ay, ex, ey, c, y1))
  {
    var ry := Mix(ay, ey, t);
    HeightAtCrossing(ax, ay, ex, ey, c, y0, t);
    HeightAtCrossing(ax, ay, ex, ey, c, y1, t);
    AreaAlong(c, y0, y1, ax, ay);
    AreaAlong(c, y0, y1, ex, ey);
    hide Mix, SignedArea;
    OppositeProducts(ex - ax, y0 - ry, y1 - ry, SignedArea(ax, ay, ex, ey, c, y0), SignedArea(ax, ay, ex, ey, c, y1));
    OppositeProducts(y1 - y0, c - ax, c - ex, SignedArea(c, y0, c, y1, ax, ay), SignedArea(c, y0, c, y1, ex, ey));
  }

  lemma OppositeProducts(k: real, u: real, v: real, ku: real, kv: real)
    requires k != 0.0 && OppositeSigns(u, v) && ku == k * u && kv == k * v
    ensures OppositeSigns(ku, kv)
  {
    var j := if k > 0.0 then k else -k;
    MulPos(j, if u > 0.0 then u else -u);
    MulPos(j, if v > 0.0 then v else -v);
  }

  lemma AreaAlong(c: real, y0: real, y1: real, px: real, py: real)
    ensures SignedArea(c, y0, c, y1, px, py) == (y1 - y0) * (c - px)
  {
  }

  lemma HeightAtCrossing(ax: real, ay: real, ex: real, ey: real, c: real, y: real, t: real)
    requires Mix(ax, ex, t) == c
    ensures SignedArea(ax, ay, ex, ey, c, y) == (ex - ax) * (y - Mix(ay, ey, t))
  {
    MulZero(ey - ay, c - Mix(ax, ex, t));
  }

  lemma AreaSwap(ax: real, ay: real, ex: real, ey: real, cx: real, cy: real)
    ensures SignedArea(ay, ax, ey, ex, cy, cx) == -SignedArea(ax, ay, ex, ey, cx, cy)
  {
  }

  lemma OrientSwap(a: Point, b: Point, q1: Point, q2: Point)
    ensures SignedArea(a.y, a.x, b.y, b.x, q1.y, q1.x) == -Orient(a, b, q1)
    ensures SignedArea(a.y, a.x, b.y, b.x, q2.y, q2.x) == -Orient(a, b, q2)
    ensures SignedArea(q1.y, q1.x, q2.y, q2.x, a.y, a.x) == -Orient(q1, q2, a)
    ensures SignedArea(q1.y, q1.x, q2.y, q2.x, b.y, b.x) == -Orient(q1, q2, b)
  {
    hide SignedArea;
    AreaSwap(a.x, a.y, b.x, b.y, q1.x, q1.y);
    AreaSwap(a.x, a.y, b.x, b.y, q2.x, q2.y);
    AreaSwap(q1.x, q1.y, q2.x, q2.y, a.x, a.y);
    AreaSwap(q1.x, q1.y, q2.x, q2.y, b.x, b.y);
  }

  lemma CrossesVerticalEdge(a: Point, b: Point, lo: Point, hi: Point, t: real, left: bool)
    requires var c := if left then lo.x else hi.x;
             && Lerp(a, b, t).x == c && lo.y < Lerp(a, b, t).y < hi.y
             && ((a.x < c < b.x) || (b.x < c < a.x))
    ensures CrossesEdge(a, b, lo, hi, if left then 3 else 1)
  {
    hide Mix, SignedArea;
    var i := if left then 3 else 1;
    var q1, q2 := Corner(lo, hi, i), Corner(lo, hi, (i + 1) % 4);
    CrossVertical(a.x, a.y, b.x, b.y, q1.x, q1.y, q2.y, t);
  }

  lemma CrossesHorizontalEdge(a: Point, b: Point, lo: Point, hi: Point, t: real, bottom: bool)
    requires var c := if bottom then lo.y else hi.y;
             && Lerp(a, b, t).y == c && lo.x < Lerp(a, b, t).x < hi.x
             && ((a.y < c < b.y) || (b.y < c < a.y))
    ensures CrossesEdge(a, b, lo, hi, if bottom then 0 else 2)
  {
    hide Mix, SignedArea;
    var i := if bottom then 0 else 2;
    var q1, q2 := Corner(lo, hi, i), Corner(lo, hi, (i + 1) % 4);
    CrossVertical(a.y, a.x, b.y, b.x, q1.y, q1.x, q2.x, t);
    OrientSwap(a, b, q1, q2);
  }

  ghost predicate CornerTouched(a: Point, b: Point, lo: Point, hi: Point) {
    exists i | 0 <= i < 4 :: PointSegDist2(Corner(lo, hi, i), a, b) == 0.0
  }

  lemma TouchAt(a: Point, b: Point, lo: Point, hi: Point, t: real, i: nat)
    requires i < 4 && 0.0 <= t <= 1.0 && Lerp(a, b, t) == Corner(lo, hi, i)
    ensures CornerTouched(a, b, lo, hi)
  {
    ClosestIsNearest(Corner(lo, hi, i), a, b, t);
    assert Dist2(Corner(lo, hi, i), Lerp(a, b, t)) == 0.0;
    assert PointSegDist2(Corner(lo, hi, i), a, b) == 0.0;
  }

  /** If one coordinate of the segment reaches c beyond a's, and b is not at that point, b lies past c. */
  lemma PastCrossing(u: real, v: real, c: real, t: real)
    requires 0.0 <= t <= 1.0 && u + (v - u) * t == c && u != c
    ensures v == c ==> t == 1.0
    ensures u < c ==> v >= c
    ensures u > c ==> v <= c
  {
    if v == c {
      assert (v - u) * (1.0 - t) == 0.0;
    }
    if u < c && v < c {
      Between(u, v, t);
      assert false;
    }
    if u > c && v > c {
      Between(u, v, t);
      assert false;
    }
  }

  /** Both endpoints outside, some point inside: an edge is properly crossed or a corner lies on the segment. */
  lemma MeetsFromOutside(a: Point, b: Point, lo: Point, hi: Point, t: real)
    requires 0.0 <= t <= 1.0 && InBox(Lerp(a, b, t), lo, hi)
    requires !InBox(a, lo, hi) && !InBox(b, lo, hi)
    ensures (exists i | 0 <= i < 4 :: CrossesEdge(a, b, lo, hi, i)) || CornerTouched(a, b, lo, hi)
  {
    var s := BoxExit(Lerp(a, b, t), a, lo, hi);
    var r := LerpTowards(a, b, t, s, false);
    var p := Lerp(a, b, r);
    assert Lerp(a, b, 1.0) == b;
    if p.x == lo.x && a.x < lo.x {
      PastCrossing(a.x, b.x, lo.x, r);
      SideMet(a, b, lo, hi, r, 0, 3);
      if lo.y < p.y < hi.y { CrossesVerticalEdge(a, b, lo, hi, r, true); }
    } else if p.x == hi.x && a.x > hi.x {
      PastCrossing(a.x, b.x, hi.x, r);
      SideMet(a, b, lo, hi, r, 1, 2);
      if lo.y < p.y < hi.y { CrossesVerticalEdge(a, b, lo, hi, r, false); }
    } else if p.y == lo.y && a.y < lo.y {
      PastCrossing(a.y, b.y, lo.y, r);
      SideMet(a, b, lo, hi, r, 0, 1);
      if lo.x < p.x < hi.x { CrossesHorizontalEdge(a, b, lo, hi, r, true); }
    } else {
      PastCrossing(a.y, b.y, hi.y, r);
      SideMet(a, b, lo, hi, r, 3, 2);
      if lo.x < p.x < hi.x { CrossesHorizontalEdge(a, b, lo, hi, r, false); }
    }
  }

  lemma SideMet(a: Point, b: Point, lo: Point, hi: Point, r: real, i: nat, j: nat)
    requires 0.0 <= r <= 1.0 && i < 4 && j < 4
    ensures Lerp(a, b, r) == Corner(lo, hi, i) || Lerp(a, b, r) == Corner(lo, hi, j) ==> CornerTouched(a, b, lo, hi)
  {
    if Lerp(a, b, r) == Corner(lo, hi, i) { TouchAt(a, b, lo, hi, r, i); }
    if Lerp(a, b, r) == Corner(lo, hi, j) { TouchAt(a, b, lo, hi, r, j); }
  }

  // ----- the distance is exact -----

  lemma {:induction false} CornerMinBounds(a: Point, b: Point, lo: Point, hi: Point, n: nat)
    requires n <= 4
    ensures CornerMin(a, b, lo, hi, n) <= PointBoxDist2(a, lo, hi)
    ensures CornerMin(a, b, lo, hi, n) <= PointBoxDist2(b, lo, hi)
    ensures forall i | 0 <= i < n :: CornerMin(a, b, lo, hi, n) <= PointSegDist2(Corner(lo, hi, i), a, b)
  {
    hide PointBoxDist2, PointSegDist2;
    if n > 0 { CornerMinBounds(a, b, lo, hi, n - 1); }
  }

  lemma BelowCornerMin(a: Point, b: Point, lo: Point, hi: Point)
    ensures SegBoxDist2(a, b, lo, hi) <= PointBoxDist2(a, lo, hi)
    ensures SegBoxDist2(a, b, lo, hi) <= PointBoxDist2(b, lo, hi)
    ensures forall i | 0 <= i < 4 :: SegBoxDist2(a, b, lo, hi) <= PointSegDist2(Corner(lo, hi, i), a, b)
  {
    hide Sq, Mix;
    CornerMinBounds(a, b, lo, hi, 4);
  }

  lemma DistanceBelowTouch(a: Point, b: Point, lo: Point, hi: Point, t: real)
    requires 0.0 <= t <= 1.0 && InBox(Lerp(a, b, t), lo, hi)
    ensures SegBoxDist2(a, b, lo, hi) <= 0.0
  {
    if !InBox(a, lo, hi) && !InBox(b, lo, hi) {
      MeetsFromOutside(a, b, lo, hi, t);
      CornerMinBounds(a, b, lo, hi, 4);
    }
  }

  /** From a point beside the box, walk along the segment towards the box: what the walk meets is no
      farther from the box than the starting point was. */
  lemma BesideBox(a: Point, b: Point, lo: Point, hi: Point, t: real)
    requires OrderedBox(lo, hi) && 0.0 <= t <= 1.0
    requires var p := Lerp(a, b, t); (lo.y <= p.y <= hi.y) != (lo.x <= p.x <= hi.x)
    ensures SegBoxDist2(a, b, lo, hi) <= PointBoxDist2(Lerp(a, b, t), lo, hi)
  {
    hide Mix, Sq, SegBoxDist2, PointBoxDist2;
    var p := Lerp(a, b, t);
    Between(a.x, b.x, t);
    Between(a.y, b.y, t);
    var toB := if p.x < lo.x then b.x >= p.x else if p.x > hi.x then b.x <= p.x
               else if p.y < lo.y then b.y >= p.y else b.y <= p.y;
    var e := if toB then b else a;
    var s;
    if p.x < lo.x {
      s := StripExit(p.x, p.y, e.x, e.y, lo.x, lo.y, hi.y);
    } else if p.x > hi.x {
      s := StripExit(-p.x, p.y, -e.x, e.y, -hi.x, lo.y, hi.y);
      MixNeg(p.x, e.x, s);
    } else if p.y < lo.y {
      s := StripExit(p.y, p.x, e.y, e.x, lo.y, lo.x, hi.x);
    } else {
      s := StripExit(-p.y, p.x, -e.y, e.x, -hi.y, lo.x, hi.x);
      MixNeg(p.y, e.y, s);
    }
    MixEnds(p.x, e.x);
    MixEnds(p.y, e.y);
    Between(p.x, e.x, s);
    Between(p.y, e.y, s);
    var r := LerpTowards(a, b, t, s, toB);
    WalkEnds(a, b, lo, hi, p, r);
  }

  lemma MixNeg(u: real, v: real, s: real)
    ensures Mix(-u, -v, s) == -Mix(u, v, s)
  {
  }

  /** How far `p` is from a box it is level with in one coordinate. */
  function SideGap(p: Point, lo: Point, hi: Point): real {
    if p.x < lo.x then lo.x - p.x else if p.x > hi.x then p.x - hi.x
    else if p.y < lo.y then lo.y - p.y else if p.y > hi.y then p.y - hi.y else 0.0
  }

  lemma SideGapIsDistance(p: Point, lo: Point, hi: Point)
    requires lo.y <= p.y <= hi.y || lo.x <= p.x <= hi.x
    requires OrderedBox(lo, hi)
    ensures PointBoxDist2(p, lo, hi) == Sq(SideGap(p, lo, hi))
  {
    assert Sq(0.0) == 0.0;
    hide Sq;
  }

  /** Where the walk of `BesideBox` ends: at an endpoint, level with a corner, or on the box. */
  lemma WalkEnds(a: Point, b: Point, lo: Point, hi: Point, p: Point, r: real)
    requires OrderedBox(lo, hi) && 0.0 <= r <= 1.0
    requires var w := Lerp(a, b, r);
             || (p.x < lo.x && lo.y <= p.y <= hi.y && lo.y <= w.y <= hi.y && p.x <= w.x <= lo.x)
             || (p.x > hi.x && lo.y <= p.y <= hi.y && lo.y <= w.y <= hi.y && hi.x <= w.x <= p.x)
             || (p.y < lo.y && lo.x <= p.x <= hi.x && lo.x <= w.x <= hi.x && p.y <= w.y <= lo.y)
             || (p.y > hi.y && lo.x <= p.x <= hi.x && lo.x <= w.x <= hi.x && hi.y <= w.y <= p.y)
    requires var w := Lerp(a, b, r);
             || w == a || w == b || InBox(w, lo, hi)
             || (w.x == lo.x || w.x == hi.x) != (w.y == lo.y || w.y == hi.y)
    ensures SegBoxDist2(a, b, lo, hi) <= PointBoxDist2(p, lo, hi)
  {
    hide Mix, Sq, SegBoxDist2, PointBoxDist2;
    var w := Lerp(a, b, r);
    SqMonotone(SideGap(w, lo, hi), SideGap(p, lo, hi));
    SideGapIsDistance(p, lo, hi);
    SideGapIsDistance(w, lo, hi);
    if InBox(w, lo, hi) {
      DistanceBelowTouch(a, b, lo, hi, r);
      SqMonotone(0.0, SideGap(p, lo, hi));
    } else {
      BelowCornerMin(a, b, lo, hi);
      if w != a && w != b {
        var k := if p.x < lo.x then (if w.y == lo.y then 0 else 3)
                 else if p.x > hi.x then (if w.y == lo.y then 1 else 2)
                 else if p.y < lo.y then (if w.x == lo.x then 0 else 1)
                 else (if w.x == lo.x then 3 else 2);
        ClosestIsNearest(Corner(lo, hi, k), a, b, r);
        CornerDistance(Corner(lo, hi, k), w, SideGap(w, lo, hi));
      }
    }
  }

  lemma CornerDistance(c: Point, w: Point, gap: real)
    requires (c.x == w.x && (c.y - w.y == gap || w.y - c.y == gap)) || (c.y == w.y && (c.x - w.x == gap || w.x - c.x == gap))
    ensures Dist2(c, w) == Sq(gap)
  {
  }

  /** No point of the segment is closer to the box than the reported distance. */
  lemma NoPointCloser(a: Point, b: Point, lo: Point, hi: Point, t: real, q: Point)
    requires 0.0 <= t <= 1.0 && InBox(q, lo, hi)
    ensures SegBoxDist2(a, b, lo, hi) <= Dist2(Lerp(a, b, t), q)
  {
    hide Mix, Sq, SegBoxDist2, PointBoxDist2, Dist2;
    var p := Lerp(a, b, t);
    PointBoxNearest(p, lo, hi, q);
    if InBox(p, lo, hi) {
      DistanceBelowTouch(a, b, lo, hi, t);
      Dist2Nonneg(p, q);
    } else if lo.x <= p.x <= hi.x || lo.y <= p.y <= hi.y {
      BesideBox(a, b, lo, hi, t);
    } else {
      var k := if p.x < lo.x then (if p.y < lo.y then 0 else 3) else (if p.y < lo.y then 1 else 2);
      BelowCornerMin(a, b, lo, hi);
      ClosestIsNearest(Corner(lo, hi, k), a, b, t);
      DiagonalDistance(p, lo, hi, k);
    }
  }

  lemma Dist2Nonneg(a: Point, b: Point)
    ensures Dist2(a, b) >= 0.0
  {
  }

  lemma DiagonalDistance(p: Point, lo: Point, hi: Point, k: nat)
    requires OrderedBox(lo, hi) && k < 4
    requires if k == 0 || k == 3 then p.x < lo.x else p.x > hi.x
    requires if k < 2 then p.y < lo.y else p.y > hi.y
    ensures Dist2(Corner(lo, hi, k), p) == PointBoxDist2(p, lo, hi)
  {
    SqNeg(p.x - Corner(lo, hi, k).x);
    SqNeg(p.y - Corner(lo, hi, k).y);
    hide Sq;
  }

  lemma SqNeg(u: real)
    ensures Sq(-u) == Sq(u)
  {
  }

  lemma SameFactor(k: real, u: real, v: real, ku: real, kv: real)
    requires OppositeSigns(ku, kv) && ku == k * u && kv == k * v
    ensures OppositeSigns(u, v)
  {
    if u == 0.0 || v == 0.0 || (u > 0.0) == (v > 0.0) {
      var su := if u < 0.0 || v < 0.0 then -u else u;
      var sv := if u < 0.0 || v < 0.0 then -v else v;
      var j := if k >= 0.0 then k else -k;
      MulNonneg(j, su);
      MulNonneg(j, sv);
    }
  }

  /** Conversely, where the sign tests succeed the segment and the edge have a common point. */
  lemma CrossingPoint(ax: real, ay: real, ex: real, ey: real, c: real, y0: real, y1: real) returns (t: real)
    requires OppositeSigns(SignedArea(c, y0, c, y1, ax, ay), SignedArea(c, y0, c, y1, ex, ey))
    requires OppositeSigns(SignedArea(ax, ay, ex, ey, c, y0), SignedArea(ax, ay, ex, ey, c, y1))
    ensures 0.0 <= t <= 1.0 && Mix(ax, ex, t) == c && Min(y0, y1) <= Mix(ay, ey, t) <= Max(y0, y1)
  {
    hide Mix, SignedArea;
    AreaAlong(c, y0, y1, ax, ay);
    AreaAlong(c, y0, y1, ex, ey);
    SameFactor(y1 - y0, c - ax, c - ex, SignedArea(c, y0, c, y1, ax, ay), SignedArea(c, y0, c, y1, ex, ey));
    t := Reach(ax, ex, c);
    HeightAtCrossing(ax, ay, ex, ey, c, y0, t);
    HeightAtCrossing(ax, ay, ex, ey, c, y1, t);
    SameFactor(ex - ax, y0 - Mix(ay, ey, t), y1 - Mix(ay, ey, t),
               SignedArea(ax, ay, ex, ey, c, y0), SignedArea(ax, ay, ex, ey, c, y1));
  }

  /** A properly crossed edge gives a point of the segment on that edge. */
  lemma CrossedEdgeMeets(a: Point, b: Point, lo: Point, hi: Point, i: nat) returns (t: real)
    requires OrderedBox(lo, hi) && i < 4 && CrossesEdge(a, b, lo, hi, i)
    ensures 0.0 <= t <= 1.0 && InBox(Lerp(a, b, t), lo, hi)
  {
    hide Mix, SignedArea;
    var q1, q2 := Corner(lo, hi, i), Corner(lo, hi, (i + 1) % 4);
    if i == 0 || i == 2 {
      OrientSwap(a, b, q1, q2);
      t := CrossingPoint(a.y, a.x, b.y, b.x, q1.y, q1.x, q2.x);
    } else {
      t := CrossingPoint(a.x, a.y, b.x, b.y, q1.x, q1.y, q2.y);
    }
  }

  /** The box point nearest to `p`. */
  function ClampToBox(p: Point, lo: Point, hi: Point): Point {
    Point(Clamp(p.x, lo.x, hi.x), Clamp(p.y, lo.y, hi.y))
  }

  lemma ClampAttains(p: Point, lo: Point, hi: Point)
    requires OrderedBox(lo, hi)
    ensures InBox(ClampToBox(p, lo, hi), lo, hi)
    ensures Dist2(p, ClampToBox(p, lo, hi)) == PointBoxDist2(p, lo, hi)
  {
    assert Sq(0.0) == 0.0;
    SqNeg(p.x - hi.x);
    SqNeg(p.y - hi.y);
    hide Sq;
  }

  lemma SamePoint(p: Point)
    ensures Dist2(p, p) == 0.0
  {
  }

  lemma Dist2Sym(a: Point, b: Point)
    ensures Dist2(a, b) == Dist2(b, a)
  {
  }

  /** Attained: some point of the segment and some point of the box are exactly that far apart. */
  lemma DistanceAttained(a: Point, b: Point, lo: Point, hi: Point) returns (t: real, q: Point)
    requires OrderedBox(lo, hi)
    ensures 0.0 <= t <= 1.0 && InBox(q, lo, hi)
    ensures Dist2(Lerp(a, b, t), q) == SegBoxDist2(a, b, lo, hi)
  {
    hide Mix, Dist2, PointBoxDist2, CrossesEdge;
    MixEnds(a.x, b.x);
    MixEnds(a.y, b.y);
    if InBox(a, lo, hi) {
      t, q := 0.0, a;
      SamePoint(q);
    } else if InBox(b, lo, hi) {
      t, q := 1.0, b;
      SamePoint(q);
    } else if i :| 0 <= i < 4 && CrossesEdge(a, b, lo, hi, i) {
      t := CrossedEdgeMeets(a, b, lo, hi, i);
      q := Lerp(a, b, t);
      SamePoint(q);
    } else {
      t, q := CornerMinAttained(a, b, lo, hi, 4);
    }
  }

  lemma CornerMinAttained(a: Point, b: Point, lo: Point, hi: Point, n: nat) returns (t: real, q: Point)
    requires OrderedBox(lo, hi) && n <= 4
    ensures 0.0 <= t <= 1.0 && InBox(q, lo, hi)
    ensures Dist2(Lerp(a, b, t), q) == CornerMin(a, b, lo, hi, n)
  {
    hide Mix, Dist2, PointBoxDist2;
    if n == 0 {
      MixEnds(a.x, b.x);
      MixEnds(a.y, b.y);
      ClampAttains(a, lo, hi);
      ClampAttains(b, lo, hi);
      var fromA := PointBoxDist2(a, lo, hi) <= PointBoxDist2(b, lo, hi);
      t := if fromA then 0.0 else 1.0;
      q := ClampToBox(if fromA then a else b, lo, hi);
    } else {
      t, q := CornerMinAttained(a, b, lo, hi, n - 1);
      var c := Corner(lo, hi, n - 1);
      if PointSegDist2(c, a, b) < CornerMin(a, b, lo, hi, n - 1) {
        t, q := ClosestT(c, a, b), c;
        Dist2Sym(c, Lerp(a, b, t));
      }
    }
  }

  /** `d` is the least squared distance between a point of segment `a..b` and a point of the box. */
  ghost predicate IsLeastDistance2(d: real, a: Point, b: Point, lo: Point, hi: Point) {
    && (forall t: real, q: Point | 0.0 <= t <= 1.0 && InBox(q, lo, hi) :: d <= Dist2(Lerp(a, b, t), q))
    && (exists t: real, q: Point :: 0.0 <= t <= 1.0 && InBox(q, lo, hi) && Dist2(Lerp(a, b, t), q) == d)
  }

  lemma SegBoxIsExact(a: Point, b: Point, lo: Point, hi: Point)
    requires OrderedBox(lo, hi)
    ensures IsLeastDistance2(SegBoxDist2(a, b, lo, hi), a, b, lo, hi)
  {
    hide Mix, Dist2, SegBoxDist2;
    forall t: real, q: Point | 0.0 <= t <= 1.0 && InBox(q, lo, hi)
      ensures SegBoxDist2(a, b, lo, hi) <= Dist2(Lerp(a, b, t), q)
    {
      NoPointCloser(a, b, lo, hi, t, q);
    }
    var t, q := DistanceAttained(a, b, lo, hi);
    assert 0.0 <= t <= 1.0 && InBox(q, lo, hi) && Dist2(Lerp(a, b, t), q) == SegBoxDist2(a, b, lo, hi);
  }

  /** Zero exactly when the segment and the box have a point in common. */
  lemma ZeroIffTheyMeet(a: Point, b: Point, lo: Point, hi: Point)
    requires OrderedBox(lo, hi)
    ensures SegBoxDist2(a, b, lo, hi) == 0.0 <==>
            exists t: real :: 0.0 <= t <= 1.0 && InBox(Lerp(a, b, t), lo, hi)
  {
    hide Mix, SegBoxDist2;
    var t, q := DistanceAttained(a, b, lo, hi);
    var p := Lerp(a, b, t);
    if SegBoxDist2(a, b, lo, hi) == 0.0 {
      ZeroSquares(q.x - p.x, q.y - p.y);
      assert InBox(Lerp(a, b, t), lo, hi);
    }
    Dist2Nonneg(p, q);
    if r: real :| 0.0 <= r <= 1.0 && InBox(Lerp(a, b, r), lo, hi) {
      DistanceBelowTouch(a, b, lo, hi, r);
    }
  }
}
