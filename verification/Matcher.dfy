/** The stop-point matcher: which source lines are consistent with the stop evidence, the best chord of
    each, their ranking, and the confidence ladder.  Distances are squared, as in `Geom`. */
module Matcher {
  import opened Arith
  import opened Geom
  import opened Model

  datatype Interval = Interval(min: real, max: real)
  datatype ByteWindow = ByteWindow(start: nat, end: Option<nat>)
  datatype Evidence = Evidence(x: Interval, y: Interval, e: Option<Interval>, zCandidates: seq<real>, window: ByteWindow)
  datatype Config = Config(xyTolerance: real, eTolerance: real, zTolerance: real, ambiguityLimit: nat)

  datatype Candidate = Candidate(offset: nat, span: Span, position: Pos, eAgreement: real, xyDistance2: real, layer: Option<nat>, kind: MoveKind)

  // ----- validation -----

  datatype Invalid = XyTolerance | ETolerance | ZTolerance | AmbiguityLimit | X | Y | E | Window

  function Validate(ev: Evidence, cfg: Config): Option<Invalid> {
    if cfg.xyTolerance < 0.0 then Some(XyTolerance)
    else if cfg.eTolerance < 0.0 then Some(ETolerance)
    else if cfg.zTolerance < 0.0 then Some(ZTolerance)
    else if cfg.ambiguityLimit == 0 then Some(AmbiguityLimit)
    else if ev.x.min > ev.x.max then Some(X)
    else if ev.y.min > ev.y.max then Some(Y)
    else if ev.e.Some? && ev.e.value.min > ev.e.value.max then Some(E)
    else if ev.window.end.Some? && ev.window.end.value < ev.window.start then Some(Window)
    else None
  }

  /** Evidence and configuration are accepted exactly when no tolerance is negative, the limit is positive, every interval
      is ordered and so is the window; E need not be known. */
  lemma AcceptedExactly(ev: Evidence, cfg: Config)
    ensures Validate(ev, cfg) == None <==>
              && cfg.xyTolerance >= 0.0 && cfg.eTolerance >= 0.0 && cfg.zTolerance >= 0.0 && cfg.ambiguityLimit >= 1
              && ev.x.min <= ev.x.max && ev.y.min <= ev.y.max
              && (ev.e == None || ev.e.value.min <= ev.e.value.max)
              && (ev.window.end == None || ev.window.start <= ev.window.end.value)
  {
  }

  // ----- one move against the evidence -----

  predicate InWindow(mv: SimMove, w: ByteWindow) {
    mv.span.end > w.start && (w.end.Some? ==> mv.span.start < w.end.value)
  }

  predicate AxesKnown(mv: SimMove, ev: Evidence) {
    && mv.startKnown.x && mv.endKnown.x && mv.startKnown.y && mv.endKnown.y
    && (ev.zCandidates != [] ==> mv.startKnown.z && mv.endKnown.z)
    && (ev.e.Some? ==> mv.startKnown.e && mv.endKnown.e)
  }

  function GapToRange(i: Interval, lo: real, hi: real): real {
    if hi < i.min then i.min - hi else if lo > i.max then lo - i.max else 0.0
  }

  predicate ZConsistent(mv: SimMove, ev: Evidence, cfg: Config) {
    var lo, hi := Min(mv.start.z, mv.end.z) - cfg.zTolerance, Max(mv.start.z, mv.end.z) + cfg.zTolerance;
    ev.zCandidates == [] || exists k | 0 <= k < |ev.zCandidates| :: lo <= ev.zCandidates[k] <= hi
  }

  function XyDistance2(mv: SimMove, ev: Evidence): real {
    SegBoxDist2(Point(mv.start.x, mv.start.y), Point(mv.end.x, mv.end.y), Point(ev.x.min, ev.y.min), Point(ev.x.max, ev.y.max))
  }

  function EGap(mv: SimMove, ev: Evidence): real {
    if ev.e.None? then 0.0 else GapToRange(ev.e.value, Min(mv.start.e, mv.end.e), Max(mv.start.e, mv.end.e))
  }

  /** 1 on overlap, falling linearly to 0 at the tolerance. */
  function EAgreement(gap: real, tolerance: real): real
    requires gap <= 0.0 || tolerance != 0.0
  {
    if gap <= 0.0 then 1.0 else 1.0 - gap / tolerance
  }

  /** Where on the move the stop is placed: at the evidence E when E varies, else nearest the box centre. */
  function MatchedT(mv: SimMove, ev: Evidence): real {
    if ev.e.Some? && mv.end.e != mv.start.e then
      var target := Clamp((ev.e.value.min + ev.e.value.max) * 0.5, Min(mv.start.e, mv.end.e), Max(mv.start.e, mv.end.e));
      Clamp((target - mv.start.e) / (mv.end.e - mv.start.e), 0.0, 1.0)
    else
      ClosestT(Point((ev.x.min + ev.x.max) * 0.5, (ev.y.min + ev.y.max) * 0.5), Point(mv.start.x, mv.start.y), Point(mv.end.x, mv.end.y))
  }

  function PointOn(mv: SimMove, t: real): Pos {
    Pos(Mix(mv.start.x, mv.end.x, t), Mix(mv.start.y, mv.end.y, t), Mix(mv.start.z, mv.end.z, t), Mix(mv.start.e, mv.end.e, t))
  }

  predicate Accepts(mv: SimMove, ev: Evidence, cfg: Config) {
    ZConsistent(mv, ev, cfg) && XyDistance2(mv, ev) <= Sq(cfg.xyTolerance) && EGap(mv, ev) <= cfg.eTolerance
  }

  function Evaluate(mv: SimMove, ev: Evidence, cfg: Config): Option<Candidate> {
    if !Accepts(mv, ev, cfg) then None
    else Some(Candidate(mv.span.start, mv.span, PointOn(mv, MatchedT(mv, ev)),
                        EAgreement(EGap(mv, ev), cfg.eTolerance), XyDistance2(mv, ev), mv.layer, mv.kind))
  }

  /** In the window, every constrained axis known, and consistent. */
  predicate Consistent(mv: SimMove, ev: Evidence, cfg: Config) {
    InWindow(mv, ev.window) && AxesKnown(mv, ev) && Evaluate(mv, ev, cfg).Some?
  }

  /** A move through a point inside every constraint is never dropped. */
  lemma PointInsideIsNeverDropped(mv: SimMove, ev: Evidence, cfg: Config, t: real)
    requires Validate(ev, cfg) == None && InWindow(mv, ev.window) && AxesKnown(mv, ev) && 0.0 <= t <= 1.0
    requires var p := PointOn(mv, t);
             && ev.x.min <= p.x <= ev.x.max && ev.y.min <= p.y <= ev.y.max
             && (ev.zCandidates != [] ==> exists k | 0 <= k < |ev.zCandidates| :: -cfg.zTolerance <= ev.zCandidates[k] - p.z <= cfg.zTolerance)
             && (ev.e.Some? ==> ev.e.value.min <= p.e <= ev.e.value.max)
    ensures Consistent(mv, ev, cfg)
    ensures Evaluate(mv, ev, cfg).value.xyDistance2 == 0.0 && Evaluate(mv, ev, cfg).value.eAgreement == 1.0
  {
    hide Mix, SegBoxDist2;
    Between(mv.start.z, mv.end.z, t);
    Between(mv.start.e, mv.end.e, t);
    var a, b := Point(mv.start.x, mv.start.y), Point(mv.end.x, mv.end.y);
    var lo, hi := Point(ev.x.min, ev.y.min), Point(ev.x.max, ev.y.max);
    ZeroIffTheyMeet(a, b, lo, hi);
    assert InBox(Lerp(a, b, t), lo, hi);
  }

  // ----- what acceptance means -----

  /** Some point of the move is within `tolerance` of some value in [lo, hi] on one axis. */
  ghost predicate NearOnAxis(u: real, v: real, lo: real, hi: real, tolerance: real) {
    exists t: real, w: real :: 0.0 <= t <= 1.0 && lo <= w <= hi && -tolerance <= Deviation(u, v, t, w) <= tolerance
  }

  function Deviation(u: real, v: real, t: real, w: real): real {
    Mix(u, v, t) - w
  }

  ghost predicate NearInPlane(mv: SimMove, ev: Evidence, tolerance2: real) {
    exists t: real, q: Point :: 0.0 <= t <= 1.0 && InBox(q, Point(ev.x.min, ev.y.min), Point(ev.x.max, ev.y.max)) &&
      Dist2(Lerp(Point(mv.start.x, mv.start.y), Point(mv.end.x, mv.end.y), t), q) <= tolerance2
  }

  lemma IntervalsAreNear(u: real, v: real, lo: real, hi: real, tolerance: real)
    requires lo <= hi && tolerance >= 0.0
    ensures NearOnAxis(u, v, lo, hi, tolerance) <==> Min(u, v) - tolerance <= hi && lo <= Max(u, v) + tolerance
  {
    hide Mix;
    if t: real, w: real :| 0.0 <= t <= 1.0 && lo <= w <= hi && -tolerance <= Deviation(u, v, t, w) <= tolerance {
      Between(u, v, t);
    }
    if Min(u, v) - tolerance <= hi && lo <= Max(u, v) + tolerance {
      var p := Clamp(Clamp(u, lo, hi), Min(u, v), Max(u, v));
      var w := Clamp(p, lo, hi);
      var t := 0.0;
      if u == v { MixSame(u, t); } else { t := Reach(u, v, p); }
      assert -tolerance <= Deviation(u, v, t, w) <= tolerance;
    }
  }

  /** A move is accepted exactly when, in the plane and on each constrained axis, one of its points is within tolerance
      of the evidence. */
  lemma AcceptedIffNear(mv: SimMove, ev: Evidence, cfg: Config)
    requires Validate(ev, cfg) == None
    ensures Accepts(mv, ev, cfg) <==>
              && NearInPlane(mv, ev, Sq(cfg.xyTolerance))
              && (ev.zCandidates == [] || exists k | 0 <= k < |ev.zCandidates| ::
                    NearOnAxis(mv.start.z, mv.end.z, ev.zCandidates[k], ev.zCandidates[k], cfg.zTolerance))
              && (ev.e.Some? ==> NearOnAxis(mv.start.e, mv.end.e, ev.e.value.min, ev.e.value.max, cfg.eTolerance))
  {
    PlaneNearness(mv, ev, Sq(cfg.xyTolerance));
    if ev.e.Some? {
      IntervalsAreNear(mv.start.e, mv.end.e, ev.e.value.min, ev.e.value.max, cfg.eTolerance);
    }
    forall k | 0 <= k < |ev.zCandidates|
      ensures NearOnAxis(mv.start.z, mv.end.z, ev.zCandidates[k], ev.zCandidates[k], cfg.zTolerance) <==>
                Min(mv.start.z, mv.end.z) - cfg.zTolerance <= ev.zCandidates[k] <= Max(mv.start.z, mv.end.z) + cfg.zTolerance
    {
      IntervalsAreNear(mv.start.z, mv.end.z, ev.zCandidates[k], ev.zCandidates[k], cfg.zTolerance);
    }
    hide NearOnAxis, NearInPlane, XyDistance2, Sq;
  }

  lemma PlaneNearness(mv: SimMove, ev: Evidence, tolerance2: real)
    requires ev.x.min <= ev.x.max && ev.y.min <= ev.y.max
    ensures NearInPlane(mv, ev, tolerance2) <==> XyDistance2(mv, ev) <= tolerance2
  {
    hide Mix, Dist2, SegBoxDist2;
    var a, b := Point(mv.start.x, mv.start.y), Point(mv.end.x, mv.end.y);
    var lo, hi := Point(ev.x.min, ev.y.min), Point(ev.x.max, ev.y.max);
    var t, q := DistanceAttained(a, b, lo, hi);
    if s: real, p: Point :| 0.0 <= s <= 1.0 && InBox(p, lo, hi) && Dist2(Lerp(a, b, s), p) <= tolerance2 {
      NoPointCloser(a, b, lo, hi, s, p);
    }
  }

  /** The axes the evidence says something about. */
  datatype AxisName = XAxis | YAxis | ZAxis | EAxis

  predicate Constrains(ev: Evidence, axis: AxisName) {
    axis == XAxis || axis == YAxis || (axis == ZAxis && |ev.zCandidates| > 0) || (axis == EAxis && ev.e != None)
  }

  function KnownOn(k: Known, axis: AxisName): bool {
    match axis
    case XAxis => k.x
    case YAxis => k.y
    case ZAxis => k.z
    case EAxis => k.e
  }

  /** The move's line shares a byte with the window, which a missing end leaves open. */
  ghost predicate SharesAByte(mv: SimMove, w: ByteWindow) {
    exists o: nat :: ByteOf(mv.span, o) && w.start <= o && (w.end == None || o < w.end.value)
  }

  predicate ByteOf(s: Span, o: nat) {
    s.start <= o < s.end
  }

  /** What makes a line a candidate, from the evidence alone: over an open or non-empty window, one of its moves shares a byte
      with the window, is known at both ends on every constrained axis, and is near the evidence in the plane, at one of
      the heights and at the E. */
  lemma ConsistentExactly(mv: SimMove, ev: Evidence, cfg: Config)
    requires Validate(ev, cfg) == None && mv.span.start < mv.span.end && (ev.window.end == None || ev.window.start < ev.window.end.value)
    ensures Consistent(mv, ev, cfg) <==>
              && SharesAByte(mv, ev.window)
              && (forall axis | Constrains(ev, axis) :: KnownOn(mv.startKnown, axis) && KnownOn(mv.endKnown, axis))
              && NearInPlane(mv, ev, Sq(cfg.xyTolerance))
              && (ev.zCandidates == [] || exists k | 0 <= k < |ev.zCandidates| ::
                    NearOnAxis(mv.start.z, mv.end.z, ev.zCandidates[k], ev.zCandidates[k], cfg.zTolerance))
              && (ev.e.Some? ==> NearOnAxis(mv.start.e, mv.end.e, ev.e.value.min, ev.e.value.max, cfg.eTolerance))
  {
    WindowIsShared(mv, ev.window);
    AxesAreConstrained(mv, ev);
    AcceptedIffNear(mv, ev, cfg);
    AcceptedIsEvaluated(mv, ev, cfg);
    hide Accepts, Evaluate, InWindow, SharesAByte, AxesKnown, NearInPlane, NearOnAxis, Constrains, KnownOn;
  }

  lemma AcceptedIsEvaluated(mv: SimMove, ev: Evidence, cfg: Config)
    ensures Evaluate(mv, ev, cfg).Some? <==> Accepts(mv, ev, cfg)
  {
    hide Accepts;
  }

  lemma AxesAreConstrained(mv: SimMove, ev: Evidence)
    ensures AxesKnown(mv, ev) <==> forall axis | Constrains(ev, axis) :: KnownOn(mv.startKnown, axis) && KnownOn(mv.endKnown, axis)
  {
    if forall axis | Constrains(ev, axis) :: KnownOn(mv.startKnown, axis) && KnownOn(mv.endKnown, axis) {
      assert Constrains(ev, XAxis) && Constrains(ev, YAxis);
      assert ev.zCandidates != [] ==> Constrains(ev, ZAxis);
      assert ev.e.Some? ==> Constrains(ev, EAxis);
    }
  }

  lemma WindowIsShared(mv: SimMove, w: ByteWindow)
    requires mv.span.start < mv.span.end && (w.end == None || w.start < w.end.value)
    ensures InWindow(mv, w) <==> SharesAByte(mv, w)
  {
    var o := if mv.span.start >= w.start then mv.span.start else w.start;
    if InWindow(mv, w) { assert ByteOf(mv.span, o); }
  }

  /** A candidate carries its line, its layer, its kind and the matched point of the move. */
  lemma CandidateOfMove(mv: SimMove, ev: Evidence, cfg: Config)
    requires Evaluate(mv, ev, cfg).Some?
    ensures var c := Evaluate(mv, ev, cfg).value;
            && c.offset == mv.span.start && c.span == mv.span && c.layer == mv.layer && c.kind == mv.kind
            && c.position == PointOn(mv, MatchedT(mv, ev)) && c.xyDistance2 == XyDistance2(mv, ev)
  {
    hide XyDistance2, MatchedT, PointOn, Accepts;
  }

  /** The agreement is one exactly on overlap with the evidence E, zero exactly at the tolerance, and between otherwise. */
  lemma AgreementGrades(mv: SimMove, ev: Evidence, cfg: Config)
    requires Validate(ev, cfg) == None && Accepts(mv, ev, cfg) && ev.e.Some?
    ensures var g := Evaluate(mv, ev, cfg).value.eAgreement;
            && 0.0 <= g <= 1.0
            && (g == 1.0 <==> NearOnAxis(mv.start.e, mv.end.e, ev.e.value.min, ev.e.value.max, 0.0))
            && (g == 0.0 <==> cfg.eTolerance > 0.0 && EGap(mv, ev) == cfg.eTolerance)
  {
    IntervalsAreNear(mv.start.e, mv.end.e, ev.e.value.min, ev.e.value.max, 0.0);
    hide XyDistance2, ZConsistent, NearOnAxis, Mix;
    var gap := EGap(mv, ev);
    if gap > 0.0 {
      DivMul(gap, cfg.eTolerance);
      UnitQuotient(gap, cfg.eTolerance, gap / cfg.eTolerance);
    }
  }

  /** It falls linearly with the gap. */
  lemma AgreementIsLinear(mv: SimMove, ev: Evidence, cfg: Config)
    requires cfg.eTolerance > 0.0 && Evaluate(mv, ev, cfg).Some?
    ensures (1.0 - Evaluate(mv, ev, cfg).value.eAgreement) * cfg.eTolerance == EGap(mv, ev)
  {
    hide XyDistance2, ZConsistent, Mix, MatchedT, PointOn;
    GapNonneg(mv, ev);
    hide EGap;
    DivMul(EGap(mv, ev), cfg.eTolerance);
  }

  lemma GapNonneg(mv: SimMove, ev: Evidence)
    ensures EGap(mv, ev) >= 0.0
  {
  }

  lemma UnitQuotient(u: real, v: real, q: real)
    requires 0.0 < u <= v && q * v == u
    ensures 0.0 < q <= 1.0 && (q == 1.0 <==> u == v)
  {
    if q <= 0.0 { MulLe(q, 0.0, v); }
    CompareQuotient(u, v, q);
  }

  lemma CompareQuotient(u: real, v: real, q: real)
    requires v > 0.0 && q * v == u
    ensures (q < 1.0 ==> u < v) && (q > 1.0 ==> u > v) && (q == 1.0 ==> u == v)
  {
    if q < 1.0 { MulPos(1.0 - q, v); }
    if q > 1.0 { MulPos(q - 1.0, v); }
  }

  /** The stop is placed on the move as well as it can be: nearest the evidence's middle E when E varies along the move,
      otherwise nearest the box centre. */
  lemma MatchedPointIsBest(mv: SimMove, ev: Evidence, t: real)
    requires 0.0 <= t <= 1.0
    ensures 0.0 <= MatchedT(mv, ev) <= 1.0
    ensures var p, q := PointOn(mv, MatchedT(mv, ev)), PointOn(mv, t);
            if ev.e.Some? && mv.end.e != mv.start.e then
              var mid := (ev.e.value.min + ev.e.value.max) * 0.5;
              Abs(p.e - mid) <= Abs(q.e - mid)
            else
              var centre := Point((ev.x.min + ev.x.max) * 0.5, (ev.y.min + ev.y.max) * 0.5);
              Dist2(centre, Point(p.x, p.y)) <= Dist2(centre, Point(q.x, q.y))
  {
    if ev.e.Some? && mv.end.e != mv.start.e {
      hide Mix;
      var u, v := mv.start.e, mv.end.e;
      var target := Clamp((ev.e.value.min + ev.e.value.max) * 0.5, Min(u, v), Max(u, v));
      var s := Reach(u, v, target);
      ReachedAt(u, v, target, s);
      Between(u, v, t);
    } else {
      hide Mix, Dist2, ClosestT;
      ClosestIsNearest(Point((ev.x.min + ev.x.max) * 0.5, (ev.y.min + ev.y.max) * 0.5),
                       Point(mv.start.x, mv.start.y), Point(mv.end.x, mv.end.y), t);
    }
  }

  lemma ReachedAt(u: real, v: real, w: real, s: real)
    requires u != v && Mix(u, v, s) == w
    ensures s == (w - u) / (v - u)
  {
    DivMul(w - u, v - u);
    SameQuotient(s, (w - u) / (v - u), v - u);
  }

  lemma SameQuotient(p: real, q: real, k: real)
    requires k != 0.0 && p * k == q * k
    ensures p == q
  {
  }

  // ----- ranking -----

  /** As the code has it: LOWER E agreement ranks better, then smaller distance, then smaller offset. */
  predicate RanksBetter(a: Candidate, b: Candidate) {
    || b.eAgreement > a.eAgreement
    || (b.eAgreement == a.eAgreement && (a.xyDistance2 < b.xyDistance2 || (a.xyDistance2 == b.xyDistance2 && a.offset < b.offset)))
  }

  /** What ranking looks at. */
  datatype Key = Key(eAgreement: real, xyDistance2: real, offset: nat)

  function KeyOf(c: Candidate): Key {
    Key(c.eAgreement, c.xyDistance2, c.offset)
  }

  predicate KeyLess(a: Key, b: Key) {
    || a.eAgreement < b.eAgreement
    || (a.eAgreement == b.eAgreement && (a.xyDistance2 < b.xyDistance2 || (a.xyDistance2 == b.xyDistance2 && a.offset < b.offset)))
  }

  predicate Ranked(s: seq<Candidate>) {
    forall i, j | 0 <= i < j < |s| :: RanksBetter(s[i], s[j])
  }

  function InsertRanked(c: Candidate, s: seq<Candidate>): seq<Candidate> {
    if s == [] || RanksBetter(c, s[0]) then [c] + s else [s[0]] + InsertRanked(c, s[1..])
  }

  lemma {:induction false} InsertRankedKeeps(c: Candidate, s: seq<Candidate>)
    requires Ranked(s) && forall k | 0 <= k < |s| :: s[k].offset != c.offset
    ensures Ranked(InsertRanked(c, s))
    ensures forall x :: x in InsertRanked(c, s) <==> x == c || x in s
    ensures |InsertRanked(c, s)| == |s| + 1
  {
    if s != [] && !RanksBetter(c, s[0]) {
      InsertRankedKeeps(c, s[1..]);
      var r := InsertRanked(c, s[1..]);
      forall k | 0 <= k < |r|
        ensures RanksBetter(s[0], r[k])
      {
        assert r[k] in r;
        if r[k] != c {
          var j :| 0 <= j < |s[1..]| && s[1..][j] == r[k];
          assert s[j + 1] == r[k];
        }
      }
      assert forall x :: x in s <==> x == s[0] || x in s[1..];
    }
  }

  /** Strictly ordered sequences with the same elements are the same sequence. */
  lemma {:induction false} OrderIsUnique(a: seq<Key>, b: seq<Key>)
    requires forall i, j | 0 <= i < j < |a| :: KeyLess(a[i], a[j])
    requires forall i, j | 0 <= i < j < |b| :: KeyLess(b[i], b[j])
    requires forall k :: k in a <==> k in b
    ensures a == b
  {
    assert a != [] ==> a[0] in a;
    assert b != [] ==> b[0] in b;
    if a != [] && b != [] {
      FirstIsLeast(a, b);
      TailMembers(a);
      TailMembers(b);
      assert a == [a[0]] + a[1..] && b == [b[0]] + b[1..];
      OrderIsUnique(a[1..], b[1..]);
    }
  }

  lemma TailMembers(a: seq<Key>)
    requires a != [] && forall i, j | 0 <= i < j < |a| :: KeyLess(a[i], a[j])
    ensures forall k :: k in a[1..] <==> k in a && k != a[0]
  {
    forall k
      ensures k in a[1..] <==> k in a && k != a[0]
    {
      if k in a[1..] {
        var i :| 0 <= i < |a[1..]| && a[1..][i] == k;
        assert KeyLess(a[0], a[i + 1]);
      }
      if k in a && k != a[0] {
        var i :| 0 <= i < |a| && a[i] == k;
        assert a[1..][i - 1] == k;
      }
    }
  }

  lemma FirstIsLeast(a: seq<Key>, b: seq<Key>)
    requires a != [] && b != []
    requires forall i, j | 0 <= i < j < |a| :: KeyLess(a[i], a[j])
    requires forall i, j | 0 <= i < j < |b| :: KeyLess(b[i], b[j])
    requires forall k :: k in a <==> k in b
    ensures a[0] == b[0]
  {
    assert a[0] in a && b[0] in b;
    var i :| 0 <= i < |b| && b[i] == a[0];
    var j :| 0 <= j < |a| && a[j] == b[0];
  }

  // ----- collecting -----

  /** The source lines holding a consistent move. */
  ghost function Lines(moves: seq<SimMove>, ev: Evidence, cfg: Config): set<nat> {
    set k | 0 <= k < |moves| && Consistent(moves[k], ev, cfg) :: moves[k].span.start
  }

  /** c is a chord of its line, and no consistent chord of that line ranks better. */
  ghost predicate BestChord(moves: seq<SimMove>, ev: Evidence, cfg: Config, c: Candidate) {
    && (exists k | 0 <= k < |moves| :: Consistent(moves[k], ev, cfg) && Evaluate(moves[k], ev, cfg) == Some(c))
    && (forall k | 0 <= k < |moves| && Consistent(moves[k], ev, cfg) && moves[k].span.start == c.offset ::
          !RanksBetter(Evaluate(moves[k], ev, cfg).value, c))
  }

  /** What `collect_candidates` returns: one best chord for exactly the consistent lines, in rank order. */
  ghost predicate Collected(moves: seq<SimMove>, ev: Evidence, cfg: Config, r: seq<Candidate>) {
    && Ranked(r)
    && (forall i, j | 0 <= i < j < |r| :: r[i].offset != r[j].offset)
    && (forall i | 0 <= i < |r| :: BestChord(moves, ev, cfg, r[i]))
    && (forall o :: o in Lines(moves, ev, cfg) <==> exists i | 0 <= i < |r| :: r[i].offset == o)
  }

  function SkippedUnknown(moves: seq<SimMove>, ev: Evidence): nat {
    if moves == [] then 0
    else SkippedUnknown(moves[..|moves| - 1], ev) +
         if InWindow(moves[|moves| - 1], ev.window) && !AxesKnown(moves[|moves| - 1], ev) then 1 else 0
  }

  ghost predicate BestByLine(moves: seq<SimMove>, ev: Evidence, cfg: Config, m: map<nat, Candidate>) {
    && m.Keys == Lines(moves, ev, cfg)
    && (forall o | o in m :: m[o].offset == o && BestChord(moves, ev, cfg, m[o]))
  }

  method CollectCandidates(moves: seq<SimMove>, ev: Evidence, cfg: Config) returns (r: seq<Candidate>, skipped: nat)
    ensures Collected(moves, ev, cfg, r)
    ensures skipped == SkippedUnknown(moves, ev)
  {
    hide Evaluate, InWindow, AxesKnown, BestByLine;
    var byLine: map<nat, Candidate> := map[];
    skipped := 0;
    NoLinesYet(ev, cfg);
    for k := 0 to |moves|
      invariant BestByLine(moves[..k], ev, cfg, byLine)
      invariant skipped == SkippedUnknown(moves[..k], ev)
    {
      assert moves[..k + 1][..k] == moves[..k] && moves[..k + 1] == moves[..k] + [moves[k]];
      LineAdded(moves[..k], moves[k], ev, cfg, byLine);
      if InWindow(moves[k], ev.window) {
        if !AxesKnown(moves[k], ev) {
          skipped := skipped + 1;
        } else {
          var candidate := Evaluate(moves[k], ev, cfg);
          if candidate.Some? {
            var c := candidate.value;
            EvaluatedOffset(moves[k], ev, cfg);
            if c.offset !in byLine || RanksBetter(c, byLine[c.offset]) {
              byLine := byLine[c.offset := c];
            }
          }
        }
      }
    }
    assert moves[..|moves|] == moves;
    r := RankAll(moves, ev, cfg, byLine);
  }

  lemma EvaluatedOffset(mv: SimMove, ev: Evidence, cfg: Config)
    ensures Evaluate(mv, ev, cfg).Some? ==> Evaluate(mv, ev, cfg).value.offset == mv.span.start
  {
  }

  lemma NoLinesYet(ev: Evidence, cfg: Config)
    ensures BestByLine([], ev, cfg, map[])
  {
  }

  /** The map after one more move. */
  function Improved(m: map<nat, Candidate>, c: Candidate): map<nat, Candidate> {
    if c.offset !in m || RanksBetter(c, m[c.offset]) then m[c.offset := c] else m
  }

  lemma LineAdded(moves: seq<SimMove>, mv: SimMove, ev: Evidence, cfg: Config, m: map<nat, Candidate>)
    requires BestByLine(moves, ev, cfg, m)
    ensures BestByLine(moves + [mv], ev, cfg, if Consistent(mv, ev, cfg) then Improved(m, Evaluate(mv, ev, cfg).value) else m)
  {
    hide Evaluate, InWindow, AxesKnown, RanksBetter;
    EvaluatedOffset(mv, ev, cfg);
    var moves' := moves + [mv];
    LinesAdded(moves, mv, ev, cfg);
    var m' := if Consistent(mv, ev, cfg) then Improved(m, Evaluate(mv, ev, cfg).value) else m;
    forall o | o in m'
      ensures m'[o].offset == o && BestChord(moves', ev, cfg, m'[o])
    {
      if o in m && m'[o] == m[o] {
        RankTransitive(m[o], m[o], m[o]);
        BestChordAfter(moves, mv, ev, cfg, m[o]);
      } else {
        NewBest(moves, mv, ev, cfg, m);
      }
    }
  }

  lemma RankTransitive(a: Candidate, b: Candidate, c: Candidate)
    ensures RanksBetter(a, b) && RanksBetter(b, c) ==> RanksBetter(a, c)
    ensures !RanksBetter(a, a)
  {
  }

  lemma NewBest(moves: seq<SimMove>, mv: SimMove, ev: Evidence, cfg: Config, m: map<nat, Candidate>)
    requires BestByLine(moves, ev, cfg, m) && Consistent(mv, ev, cfg)
    requires var c := Evaluate(mv, ev, cfg).value; c.offset !in m || RanksBetter(c, m[c.offset])
    ensures BestChord(moves + [mv], ev, cfg, Evaluate(mv, ev, cfg).value)
  {
    EvaluatedOffset(mv, ev, cfg);
    hide Evaluate, InWindow, AxesKnown, RanksBetter;
    var c := Evaluate(mv, ev, cfg).value;
    var moves' := moves + [mv];
    assert moves'[|moves|] == mv && Evaluate(moves'[|moves|], ev, cfg) == Some(c);
    forall k | 0 <= k < |moves'| && Consistent(moves'[k], ev, cfg) && moves'[k].span.start == c.offset
      ensures !RanksBetter(Evaluate(moves'[k], ev, cfg).value, c)
    {
      var e := Evaluate(moves'[k], ev, cfg).value;
      if k < |moves| {
        assert moves'[k] == moves[k] && moves[k].span.start in Lines(moves, ev, cfg);
        RankTransitive(e, c, m[c.offset]);
      } else {
        RankTransitive(c, c, c);
      }
    }
  }

  /** The map's values, in rank order. */
  method RankAll(ghost moves: seq<SimMove>, ghost ev: Evidence, ghost cfg: Config, byLine: map<nat, Candidate>) returns (r: seq<Candidate>)
    requires BestByLine(moves, ev, cfg, byLine)
    ensures Collected(moves, ev, cfg, r)
  {
    hide Lines, BestChord, RanksBetter;
    r := [];
    var left := byLine.Keys;
    while left != {}
      invariant left <= byLine.Keys && Ranked(r)
      invariant forall x :: x in r <==> x.offset in byLine.Keys - left && x == byLine[x.offset]
      invariant forall i, j | 0 <= i < j < |r| :: r[i].offset != r[j].offset
      decreases |left|
    {
      var o :| o in left;
      var c := byLine[o];
      assert forall k | 0 <= k < |r| :: r[k] in r;
      InsertRankedKeeps(c, r);
      var r' := InsertRanked(c, r);
      DistinctAfterInsert(c, r);
      left := left - {o};
      r := r';
    }
    assert forall k | 0 <= k < |r| :: r[k] in r;
    forall o | o in Lines(moves, ev, cfg)
      ensures exists i | 0 <= i < |r| :: r[i].offset == o
    {
      assert byLine[o] in r;
    }
  }

  lemma {:induction false} DistinctAfterInsert(c: Candidate, s: seq<Candidate>)
    requires forall i, j | 0 <= i < j < |s| :: s[i].offset != s[j].offset
    requires forall k | 0 <= k < |s| :: s[k].offset != c.offset
    ensures forall i, j | 0 <= i < j < |InsertRanked(c, s)| :: InsertRanked(c, s)[i].offset != InsertRanked(c, s)[j].offset
    ensures forall k | 0 <= k < |InsertRanked(c, s)| :: InsertRanked(c, s)[k].offset == c.offset || exists m | 0 <= m < |s| :: s[m] == InsertRanked(c, s)[k]
  {
    hide RanksBetter;
    if s != [] && !RanksBetter(c, s[0]) {
      DistinctAfterInsert(c, s[1..]);
      var r := InsertRanked(c, s[1..]);
      forall k | 0 <= k < |r|
        ensures r[k].offset != s[0].offset && (r[k].offset == c.offset || exists m | 0 <= m < |s| :: s[m] == r[k])
      {
        if r[k].offset != c.offset {
          var m :| 0 <= m < |s[1..]| && s[1..][m] == r[k];
          assert s[m + 1] == r[k];
        }
      }
    }
  }

  // ----- what the result means -----

  function Keys(r: seq<Candidate>): seq<Key> {
    seq(|r|, i requires 0 <= i < |r| => KeyOf(r[i]))
  }

  /** The kept chords and their order are the only ones the ranking allows, up to chords of one line that rank equal. */
  lemma RankingIsUnique(moves: seq<SimMove>, ev: Evidence, cfg: Config, r: seq<Candidate>, s: seq<Candidate>)
    requires Collected(moves, ev, cfg, r) && Collected(moves, ev, cfg, s)
    ensures Keys(r) == Keys(s)
  {
    forall k
      ensures k in Keys(r) <==> k in Keys(s)
    {
      if k in Keys(r) { SameKeyInBoth(moves, ev, cfg, r, s, k); }
      if k in Keys(s) { SameKeyInBoth(moves, ev, cfg, s, r, k); }
    }
    hide Lines, BestChord;
    OrderIsUnique(Keys(r), Keys(s));
  }

  lemma SameKeyInBoth(moves: seq<SimMove>, ev: Evidence, cfg: Config, r: seq<Candidate>, s: seq<Candidate>, k: Key)
    requires Collected(moves, ev, cfg, r) && Collected(moves, ev, cfg, s) && k in Keys(r)
    ensures k in Keys(s)
  {
    hide Lines, Evaluate, InWindow, AxesKnown;
    var i :| 0 <= i < |r| && KeyOf(r[i]) == k;
    assert r[i].offset in Lines(moves, ev, cfg);
    var j :| 0 <= j < |s| && s[j].offset == r[i].offset;
    BestChordsTie(moves, ev, cfg, r[i], s[j]);
    assert Keys(s)[j] == k;
  }

  lemma BestChordsTie(moves: seq<SimMove>, ev: Evidence, cfg: Config, a: Candidate, b: Candidate)
    requires BestChord(moves, ev, cfg, a) && BestChord(moves, ev, cfg, b) && a.offset == b.offset
    ensures KeyOf(a) == KeyOf(b)
  {
    var i :| 0 <= i < |moves| && Consistent(moves[i], ev, cfg) && Evaluate(moves[i], ev, cfg) == Some(a);
    var j :| 0 <= j < |moves| && Consistent(moves[j], ev, cfg) && Evaluate(moves[j], ev, cfg) == Some(b);
    EvaluatedOffset(moves[i], ev, cfg);
    EvaluatedOffset(moves[j], ev, cfg);
    hide Evaluate, InWindow, AxesKnown;
    assert !RanksBetter(a, b) && !RanksBetter(b, a);
  }

  lemma LinesAdded(moves: seq<SimMove>, mv: SimMove, ev: Evidence, cfg: Config)
    ensures Lines(moves + [mv], ev, cfg) == Lines(moves, ev, cfg) + if Consistent(mv, ev, cfg) then {mv.span.start} else {}
  {
    hide Consistent;
    var moves' := moves + [mv];
    assert moves'[|moves|] == mv;
    assert forall k | 0 <= k < |moves| :: moves'[k] == moves[k];
  }

  lemma BestChordAfter(moves: seq<SimMove>, mv: SimMove, ev: Evidence, cfg: Config, c: Candidate)
    requires BestChord(moves, ev, cfg, c)
    requires Consistent(mv, ev, cfg) && mv.span.start == c.offset ==> !RanksBetter(Evaluate(mv, ev, cfg).value, c)
    ensures BestChord(moves + [mv], ev, cfg, c)
  {
    hide Evaluate, InWindow, AxesKnown, RanksBetter;
    var moves' := moves + [mv];
    assert forall k | 0 <= k < |moves| :: moves'[k] == moves[k];
    var k :| 0 <= k < |moves| && Consistent(moves[k], ev, cfg) && Evaluate(moves[k], ev, cfg) == Some(c);
    assert Consistent(moves'[k], ev, cfg) && Evaluate(moves'[k], ev, cfg) == Some(c);
  }

  // ----- the order the comments describe -----

  /** As documented: HIGHER E agreement ranks better, then smaller distance, then smaller offset. */
  predicate DocRanksBetter(a: Candidate, b: Candidate) {
    || a.eAgreement > b.eAgreement
    || (b.eAgreement == a.eAgreement && (a.xyDistance2 < b.xyDistance2 || (a.xyDistance2 == b.xyDistance2 && a.offset < b.offset)))
  }

  ghost predicate DocBestChord(moves: seq<SimMove>, ev: Evidence, cfg: Config, c: Candidate) {
    && (exists k | 0 <= k < |moves| :: Consistent(moves[k], ev, cfg) && Evaluate(moves[k], ev, cfg) == Some(c))
    && (forall k | 0 <= k < |moves| && Consistent(moves[k], ev, cfg) && moves[k].span.start == c.offset ::
          !DocRanksBetter(Evaluate(moves[k], ev, cfg).value, c))
  }

  /** What `collect_candidates` would return under the documented order. */
  ghost predicate DocCollected(moves: seq<SimMove>, ev: Evidence, cfg: Config, r: seq<Candidate>) {
    && (forall i, j | 0 <= i < j < |r| :: DocRanksBetter(r[i], r[j]))
    && (forall i, j | 0 <= i < j < |r| :: r[i].offset != r[j].offset)
    && (forall i | 0 <= i < |r| :: DocBestChord(moves, ev, cfg, r[i]))
    && (forall o :: o in Lines(moves, ev, cfg) <==> exists i | 0 <= i < |r| :: r[i].offset == o)
  }

  /** Every consistent move agrees with the evidence E equally well. */
  ghost predicate SameAgreement(moves: seq<SimMove>, ev: Evidence, cfg: Config) {
    forall j, k | 0 <= j < |moves| && 0 <= k < |moves| && Consistent(moves[j], ev, cfg) && Consistent(moves[k], ev, cfg) ::
      Evaluate(moves[j], ev, cfg).value.eAgreement == Evaluate(moves[k], ev, cfg).value.eAgreement
  }

  /** The code's result is the documented one exactly when all consistent moves agree equally well with the evidence E. */
  lemma DocumentedOrderIffSameAgreement(moves: seq<SimMove>, ev: Evidence, cfg: Config, r: seq<Candidate>)
    requires Collected(moves, ev, cfg, r)
    ensures DocCollected(moves, ev, cfg, r) <==> SameAgreement(moves, ev, cfg)
  {
    if DocCollected(moves, ev, cfg, r) { BothOrdersAgree(moves, ev, cfg, r); }
    if SameAgreement(moves, ev, cfg) { SameAgreementIsDocumented(moves, ev, cfg, r); }
  }

  lemma SameAgreementIsDocumented(moves: seq<SimMove>, ev: Evidence, cfg: Config, r: seq<Candidate>)
    requires Collected(moves, ev, cfg, r) && SameAgreement(moves, ev, cfg)
    ensures DocCollected(moves, ev, cfg, r)
  {
    hide Evaluate, InWindow, AxesKnown, Lines;
    forall i | 0 <= i < |r|
      ensures DocBestChord(moves, ev, cfg, r[i])
    {
      assert BestChord(moves, ev, cfg, r[i]);
    }
    forall i, j | 0 <= i < j < |r|
      ensures DocRanksBetter(r[i], r[j])
    {
      assert BestChord(moves, ev, cfg, r[i]) && BestChord(moves, ev, cfg, r[j]) && RanksBetter(r[i], r[j]);
    }
  }

  /** Ranked first in both orders, a line's candidate agrees as well as every chord of the line. */
  lemma LineAgrees(moves: seq<SimMove>, ev: Evidence, cfg: Config, c: Candidate, k: nat)
    requires BestChord(moves, ev, cfg, c) && DocBestChord(moves, ev, cfg, c)
    requires k < |moves| && Consistent(moves[k], ev, cfg) && moves[k].span.start == c.offset
    ensures Evaluate(moves[k], ev, cfg).value.eAgreement == c.eAgreement
  {
    hide Evaluate, InWindow, AxesKnown;
  }

  lemma BothOrdersAgree(moves: seq<SimMove>, ev: Evidence, cfg: Config, r: seq<Candidate>)
    requires Collected(moves, ev, cfg, r) && DocCollected(moves, ev, cfg, r)
    ensures SameAgreement(moves, ev, cfg)
  {
    hide Evaluate, InWindow, AxesKnown, BestChord, DocBestChord;
    forall j, k | 0 <= j < |moves| && 0 <= k < |moves| && Consistent(moves[j], ev, cfg) && Consistent(moves[k], ev, cfg)
      ensures Evaluate(moves[j], ev, cfg).value.eAgreement == Evaluate(moves[k], ev, cfg).value.eAgreement
    {
      assert moves[j].span.start in Lines(moves, ev, cfg) && moves[k].span.start in Lines(moves, ev, cfg);
      var a :| 0 <= a < |r| && r[a].offset == moves[j].span.start;
      var b :| 0 <= b < |r| && r[b].offset == moves[k].span.start;
      LineAgrees(moves, ev, cfg, r[a], j);
      LineAgrees(moves, ev, cfg, r[b], k);
      if a < b { assert RanksBetter(r[a], r[b]) && DocRanksBetter(r[a], r[b]); }
      if b < a { assert RanksBetter(r[b], r[a]) && DocRanksBetter(r[b], r[a]); }
    }
  }

  // ----- a window the comments would rank the other way -----

  const ALL_KNOWN := Known(true, true, true, true)
  const RANK_EVIDENCE := Evidence(Interval(0.0, 10.0), Interval(0.0, 10.0), Some(Interval(0.0, 0.0)), [], ByteWindow(0, None))
  const RANK_CONFIG := Config(0.0, 1.0, 0.0, 8)

  /** A move inside the box, at one E throughout. */
  function FlatMove(offset: nat, e: real): SimMove {
    SimMove(Pos(5.0, 5.0, 0.0, e), Pos(6.0, 5.0, 0.0, e), Span(offset, offset + 10), Travel, None, None, ALL_KNOWN, ALL_KNOWN)
  }

  lemma FlatMoveIsConsistent(offset: nat, e: real)
    requires 0.0 <= e < 1.0
    ensures Consistent(FlatMove(offset, e), RANK_EVIDENCE, RANK_CONFIG)
    ensures Evaluate(FlatMove(offset, e), RANK_EVIDENCE, RANK_CONFIG).value.eAgreement == 1.0 - e
    ensures Evaluate(FlatMove(offset, e), RANK_EVIDENCE, RANK_CONFIG).value.offset == offset
  {
    var mv := FlatMove(offset, e);
    MixEnds(mv.start.x, mv.end.x);
    MixEnds(mv.start.y, mv.end.y);
    hide Mix, SegBoxDist2, Sq;
    var a, b := Point(mv.start.x, mv.start.y), Point(mv.end.x, mv.end.y);
    assert InBox(Lerp(a, b, 0.0), Point(0.0, 0.0), Point(10.0, 10.0));
    ZeroIffTheyMeet(a, b, Point(0.0, 0.0), Point(10.0, 10.0));
  }

  /** Two consistent lines: the one matching the evidence E exactly comes second, whatever the collection returned. */
  lemma WorseAgreementComesFirst(r: seq<Candidate>)
    requires Collected([FlatMove(0, 0.0), FlatMove(100, 0.5)], RANK_EVIDENCE, RANK_CONFIG, r)
    ensures |r| == 2 && r[0].offset == 100 && r[0].eAgreement == 0.5 && r[1].offset == 0 && r[1].eAgreement == 1.0
    ensures !DocCollected([FlatMove(0, 0.0), FlatMove(100, 0.5)], RANK_EVIDENCE, RANK_CONFIG, r)
  {
    var moves := [FlatMove(0, 0.0), FlatMove(100, 0.5)];
    FlatMoveIsConsistent(0, 0.0);
    FlatMoveIsConsistent(100, 0.5);
    LineCount(moves, RANK_EVIDENCE, RANK_CONFIG, r);
    TwoLines(moves);
    hide Evaluate, InWindow, AxesKnown, FlatMove, Lines;
    assert forall i | 0 <= i < |r| :: BestChord(moves, RANK_EVIDENCE, RANK_CONFIG, r[i]);
    OneOfTwo(moves, r, 0);
    OneOfTwo(moves, r, 1);
    assert RanksBetter(r[0], r[1]);
    DocumentedOrderIffSameAgreement(moves, RANK_EVIDENCE, RANK_CONFIG, r);
  }

  lemma TwoLines(moves: seq<SimMove>)
    requires moves == [FlatMove(0, 0.0), FlatMove(100, 0.5)]
    requires Consistent(moves[0], RANK_EVIDENCE, RANK_CONFIG) && Consistent(moves[1], RANK_EVIDENCE, RANK_CONFIG)
    ensures Lines(moves, RANK_EVIDENCE, RANK_CONFIG) == {0, 100} && |Lines(moves, RANK_EVIDENCE, RANK_CONFIG)| == 2
  {
    hide Consistent;
    assert moves[0].span.start == 0 && moves[1].span.start == 100;
  }

  lemma OneOfTwo(moves: seq<SimMove>, r: seq<Candidate>, i: nat)
    requires moves == [FlatMove(0, 0.0), FlatMove(100, 0.5)] && i < |r| && BestChord(moves, RANK_EVIDENCE, RANK_CONFIG, r[i])
    ensures (r[i].offset == 0 && r[i].eAgreement == 1.0) || (r[i].offset == 100 && r[i].eAgreement == 0.5)
  {
    FlatMoveIsConsistent(0, 0.0);
    FlatMoveIsConsistent(100, 0.5);
    hide FlatMove, Evaluate, Consistent, RANK_EVIDENCE, RANK_CONFIG;
    var k :| 0 <= k < |moves| && Evaluate(moves[k], RANK_EVIDENCE, RANK_CONFIG) == Some(r[i]);
    assert k == 0 || k == 1;
  }

  // ----- the confidence ladder -----

  datatype Confidence = UniqueLine(offset: nat) | AmbiguousWindow(offsets: seq<nat>) | LayerOnly(layer: nat)

  datatype MatchResult =
    | Matched(candidates: seq<Candidate>, confidence: Confidence, skipped: nat)
    | InvalidInput(field: Invalid)
    | NoMatch
    | Inconclusive(lines: nat, layers: seq<nat>)

  predicate Ascending(s: seq<nat>) {
    forall i, j | 0 <= i < j < |s| :: s[i] < s[j]
  }

  lemma AscendingCons(h: nat, t: seq<nat>)
    requires Ascending(t) && forall x | x in t :: h < x
    ensures Ascending([h] + t) && forall x :: x in [h] + t <==> x == h || x in t
  {
    assert forall k | 0 <= k < |t| :: t[k] in t;
  }

  lemma AscendingTail(s: seq<nat>)
    requires Ascending(s) && s != []
    ensures Ascending(s[1..]) && (forall x | x in s[1..] :: s[0] < x) && forall x :: x in s <==> x == s[0] || x in s[1..]
  {
    assert s == [s[0]] + s[1..];
  }

  function InsertAscending(v: nat, s: seq<nat>): (r: seq<nat>)
    requires Ascending(s)
    ensures Ascending(r) && (forall x :: x in r <==> x == v || x in s)
  {
    hide Ascending;
    if s == [] then
      AscendingOne(v);
      [v]
    else
      AscendingTail(s);
      if v == s[0] then s
      else if v < s[0] then
        AscendingCons(v, s);
        [v] + s
      else
        var r := InsertAscending(v, s[1..]);
        AscendingCons(s[0], r);
        [s[0]] + r
  }

  lemma AscendingNone()
    ensures Ascending([])
  {
  }

  lemma AscendingOne(v: nat)
    ensures Ascending([v])
  {
  }

  predicate LayerFits(l: Layer, ev: Evidence, cfg: Config) {
    && l.zKnown && l.span.end > ev.window.start && (ev.window.end.Some? ==> l.span.start < ev.window.end.value)
    && exists k | 0 <= k < |ev.zCandidates| :: Abs(ev.zCandidates[k] - l.z) <= cfg.zTolerance
  }

  function FittingLayers(layers: seq<Layer>, ev: Evidence, cfg: Config): seq<nat> {
    if layers == [] then []
    else FittingLayers(layers[..|layers| - 1], ev, cfg) +
         if LayerFits(layers[|layers| - 1], ev, cfg) then [layers[|layers| - 1].index] else []
  }

  /** The fitting layers, in order: those of known height, near one of the heights, whose bytes meet the window. */
  lemma {:induction false} FittingLayersAre(layers: seq<Layer>, ev: Evidence, cfg: Config)
    ensures forall x :: x in FittingLayers(layers, ev, cfg) <==>
              exists i | 0 <= i < |layers| :: layers[i].index == x && layers[i].zKnown && NearAHeight(layers[i].z, ev, cfg) && BytesMeet(layers[i].span, ev.window)
  {
    if layers != [] {
      var rest, last := layers[..|layers| - 1], layers[|layers| - 1];
      FittingLayersAre(rest, ev, cfg);
      FitsByParts(last, ev, cfg);
      hide LayerFits, NearAHeight, BytesMeet;
      assert layers == rest + [last];
    }
  }

  predicate NearAHeight(z: real, ev: Evidence, cfg: Config) {
    exists k | 0 <= k < |ev.zCandidates| :: -cfg.zTolerance <= ev.zCandidates[k] - z <= cfg.zTolerance
  }

  predicate BytesMeet(s: Span, w: ByteWindow) {
    w.start < s.end && (w.end == None || s.start < w.end.value)
  }

  lemma FitsByParts(l: Layer, ev: Evidence, cfg: Config)
    ensures LayerFits(l, ev, cfg) <==> l.zKnown && NearAHeight(l.z, ev, cfg) && BytesMeet(l.span, ev.window)
  {
  }

  /** The layers the first n candidates name, ascending. */
  function LayersNamed(r: seq<Candidate>, n: nat): (s: seq<nat>)
    requires n <= |r|
    ensures Ascending(s) && forall x :: x in s <==> exists k | 0 <= k < n :: r[k].layer == Some(x)
  {
    if n == 0 then []
    else
      var s := LayersNamed(r, n - 1);
      if r[n - 1].layer.Some? then InsertAscending(r[n - 1].layer.value, s) else s
  }

  function OffsetsOf(r: seq<Candidate>): (s: seq<nat>)
    ensures Ascending(s) && forall x :: x in s <==> exists k | 0 <= k < |r| :: r[k].offset == x
  {
    if r == [] then []
    else
      var s := OffsetsOf(r[1..]);
      assert forall k | 0 < k < |r| :: r[k] == r[1..][k - 1];
      InsertAscending(r[0].offset, s)
  }

  /** What the number of consistent lines, and their layers, decide. */
  ghost predicate LadderHolds(m: Model, ev: Evidence, cfg: Config, r: MatchResult) {
    var lines := Lines(m.moves, ev, cfg);
    match r
    case InvalidInput(field) => Validate(ev, cfg) == Some(field)
    case NoMatch => Validate(ev, cfg) == None && lines == {} && |FittingLayers(m.layers, ev, cfg)| != 1
    case Inconclusive(n, layers) =>
      && Validate(ev, cfg) == None && n == |lines| > cfg.ambiguityLimit
      && exists c :: Collected(m.moves, ev, cfg, c) && layers == LayersNamed(c, |c|) && !OneLayer(c)
    case Matched(c, confidence, skipped) =>
      && Validate(ev, cfg) == None && Collected(m.moves, ev, cfg, c) && |c| == |lines| && skipped == SkippedUnknown(m.moves, ev)
      && match confidence
         case UniqueLine(o) => lines == {o}
         case AmbiguousWindow(os) => 2 <= |lines| <= cfg.ambiguityLimit && Ascending(os) && (set o | o in os) == lines && |os| == |lines|
         case LayerOnly(l) =>
           if lines == {} then FittingLayers(m.layers, ev, cfg) == [l]
           else |lines| > cfg.ambiguityLimit && |lines| > 1 && OneLayer(c) && LayersNamed(c, |c|) == [l]
  }

  /** Every candidate is in one and the same layer. */
  predicate OneLayer(r: seq<Candidate>) {
    |LayersNamed(r, |r|)| == 1 && forall k | 0 <= k < |r| :: r[k].layer.Some?
  }

  method MatchStopPoint(m: Model, ev: Evidence, cfg: Config) returns (r: MatchResult)
    ensures LadderHolds(m, ev, cfg, r)
  {
    hide Lines, FittingLayers, Validate, Collected, LayersNamed, OffsetsOf, OneLayer, SkippedUnknown;
    var field := Validate(ev, cfg);
    if field.Some? {
      return InvalidInput(field.value);
    }
    var c, skipped := CollectCandidates(m.moves, ev, cfg);
    LineCount(m.moves, ev, cfg, c);
    if |c| == 0 {
      var layers := FittingLayers(m.layers, ev, cfg);
      if |layers| == 1 {
        return Matched(c, LayerOnly(layers[0]), skipped);
      }
      return NoMatch;
    }
    if |c| == 1 {
      return Matched(c, UniqueLine(c[0].offset), skipped);
    }
    if |c| <= cfg.ambiguityLimit {
      var offsets := OffsetsOf(c);
      AscendingCount(offsets, Lines(m.moves, ev, cfg));
      return Matched(c, AmbiguousWindow(offsets), skipped);
    }
    var layers, anyUnlayered := LayersOf(c);
    OneLayerMeans(c, anyUnlayered);
    if |layers| == 1 && !anyUnlayered {
      return Matched(c, LayerOnly(layers[0]), skipped);
    }
    return Inconclusive(|c|, layers);
  }

  lemma {:induction false} OneLayerMeans(c: seq<Candidate>, anyUnlayered: bool)
    requires anyUnlayered <==> exists i | 0 <= i < |c| :: c[i].layer.None?
    ensures OneLayer(c) <==> |LayersNamed(c, |c|)| == 1 && !anyUnlayered
  {
  }

  /** The candidates' layers, and whether one has none. */
  method LayersOf(c: seq<Candidate>) returns (layers: seq<nat>, anyUnlayered: bool)
    ensures layers == LayersNamed(c, |c|)
    ensures anyUnlayered <==> exists i | 0 <= i < |c| :: c[i].layer.None?
  {
    hide InsertAscending, Ascending;
    layers, anyUnlayered := [], false;
    for k := 0 to |c|
      invariant layers == LayersNamed(c, k)
      invariant anyUnlayered <==> exists i | 0 <= i < k :: c[i].layer.None?
    {
      if c[k].layer.Some? {
        layers := InsertAscending(c[k].layer.value, layers);
      } else {
        anyUnlayered := true;
      }
    }
  }

  lemma AscendingCount(s: seq<nat>, lines: set<nat>)
    requires Ascending(s) && forall x :: x in s <==> x in lines
    ensures |s| == |lines| && (set o | o in s) == lines
  {
    if s == [] {
      assert lines == {};
    } else {
      assert s[0] in s;
      forall x
        ensures x in s[1..] <==> x in lines - {s[0]}
      {
        if x in s[1..] {
          var k :| 0 <= k < |s[1..]| && s[1..][k] == x;
          assert s[k + 1] == x && s[0] < s[k + 1];
        }
      }
      AscendingCount(s[1..], lines - {s[0]});
    }
  }

  /** As many candidates as consistent lines. */
  lemma {:induction false} LineCount(moves: seq<SimMove>, ev: Evidence, cfg: Config, c: seq<Candidate>)
    requires Collected(moves, ev, cfg, c)
    ensures |c| == |Lines(moves, ev, cfg)|
    ensures |c| == 1 ==> Lines(moves, ev, cfg) == {c[0].offset}
    ensures forall x :: x in OffsetsOf(c) <==> x in Lines(moves, ev, cfg)
  {
    hide Lines, BestChord, Ranked;
    DistinctCount(c, Lines(moves, ev, cfg));
  }

  lemma {:induction false} DistinctCount(c: seq<Candidate>, lines: set<nat>)
    requires forall i, j | 0 <= i < j < |c| :: c[i].offset != c[j].offset
    requires forall o :: o in lines <==> exists i | 0 <= i < |c| :: c[i].offset == o
    ensures |c| == |lines|
    ensures |c| == 1 ==> lines == {c[0].offset}
  {
    if c == [] {
      assert lines == {};
    } else {
      var rest := lines - {c[0].offset};
      forall o
        ensures o in rest <==> exists i | 0 <= i < |c[1..]| :: c[1..][i].offset == o
      {
        if o in rest {
          var i :| 0 <= i < |c| && c[i].offset == o;
          assert c[1..][i - 1].offset == o;
        }
        if i :| 0 <= i < |c[1..]| && c[1..][i].offset == o {
          assert c[i + 1].offset == o;
        }
      }
      DistinctCount(c[1..], rest);
      assert c[0].offset in lines;
    }
  }

  /** A unique line is reported exactly when one line is consistent. */
  lemma UniqueIffOneLine(m: Model, ev: Evidence, cfg: Config, r: MatchResult)
    requires LadderHolds(m, ev, cfg, r) && Validate(ev, cfg) == None
    ensures (r.Matched? && r.confidence.UniqueLine?) <==> |Lines(m.moves, ev, cfg)| == 1
    ensures (r.Matched? && r.confidence.AmbiguousWindow?) <==> 2 <= |Lines(m.moves, ev, cfg)| <= cfg.ambiguityLimit
  {
    hide Lines, Collected, FittingLayers;
  }
}
