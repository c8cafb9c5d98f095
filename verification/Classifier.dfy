/** The drag classifier: half-overlapping RMS windows over the median-removed magnitude of one capture.
    Magnitudes and RMS values are kept squared. */
module Classifier {
  import opened Arith
  import opened Geom
  import opened Model
  import opened Statistics

  const MIN_PASS_SAMPLES: nat := 128
  const RMS_WINDOW: nat := 64
  const DT_GAP_FACTOR: real := 5.0

  datatype Sample = Sample(t: real, x: real, y: real, z: real)

  datatype Invalid = TooFew | ConstantSignal | RateCollapse | CoverageGap

  // ----- the windows -----

  /** from, from + step, ... below stop. */
  function Range(from: nat, stop: nat, step: nat): (r: seq<nat>)
    requires step > 0
    ensures from < stop ==> r != [] && r[0] == from
    ensures forall k | 0 <= k < |r| :: from <= r[k] < stop
    decreases if from < stop then stop - from else 0
  {
    if from >= stop then [] else [from] + Range(from + step, stop, step)
  }

  function Stride(window: nat): (s: nat)
    ensures s > 0
  {
    if window / 2 > 1 then window / 2 else 1
  }

  /** Start offsets: one every stride, and one aligned with the tail. */
  function WindowOffsets(n: nat, window: nat): seq<nat>
    requires 1 <= window <= n
  {
    var offsets := Range(0, n - window + 1, Stride(window));
    if offsets[|offsets| - 1] != n - window then offsets + [n - window] else offsets
  }

  lemma {:induction false} RangeReaches(from: nat, stop: nat, step: nat, b: nat) returns (o: nat)
    requires step > 0 && from <= b < stop
    ensures o in Range(from, stop, step) && o <= b < o + step
    decreases stop - from
  {
    if b < from + step {
      o := from;
    } else {
      o := RangeReaches(from + step, stop, step, b);
    }
  }

  lemma {:induction false} TailIsAWindow(n: nat, window: nat)
    requires 1 <= window <= n
    ensures n - window in WindowOffsets(n, window)
    ensures forall o | o in WindowOffsets(n, window) :: o + window <= n
    ensures forall o | o in Range(0, n - window + 1, Stride(window)) :: o in WindowOffsets(n, window)
    ensures forall o | o in WindowOffsets(n, window) :: o == n - window || o in Range(0, n - window + 1, Stride(window))
  {
    hide Range, Stride;
    var offsets := Range(0, n - window + 1, Stride(window));
    assert offsets[|offsets| - 1] in offsets;
  }

  /** Any burst of window - stride + 1 consecutive samples lies inside one full window. */
  lemma BurstInsideAWindow(n: nat, window: nat, b: nat, len: nat) returns (o: nat)
    requires 1 <= window <= n && len <= window - Stride(window) + 1 && b + len <= n
    ensures o in WindowOffsets(n, window) && o <= b && b + len <= o + window <= n
  {
    TailIsAWindow(n, window);
    if b >= n - window {
      o := n - window;
    } else {
      o := RangeReaches(0, n - window + 1, Stride(window), b);
    }
  }

  /** The windows cover every sample. */
  lemma WindowsCover(n: nat, window: nat, i: nat) returns (o: nat)
    requires 1 <= window <= n && i < n
    ensures o in WindowOffsets(n, window) && o <= i < o + window
  {
    o := BurstInsideAWindow(n, window, i, 1);
  }

  /** One sample more and a burst can fall between two windows. */
  lemma LongerBurstSlipsThrough(n: nat, window: nat)
    requires window >= 4 && n >= window + Stride(window)
    ensures var b, len := Stride(window) - 1, window - Stride(window) + 2;
            b + len <= n && forall o | o in WindowOffsets(n, window) :: !(o <= b && b + len <= o + window)
  {
    TailIsAWindow(n, window);
    var stride := Stride(window);
    RangeSkips(0, n - window + 1, stride);
  }

  lemma {:induction false} RangeSkips(from: nat, stop: nat, step: nat)
    requires step > 0
    ensures forall o | o in Range(from, stop, step) :: o == from || o >= from + step
  {
  }

  // ----- energy -----

  function Sum(s: seq<real>): real {
    if s == [] then 0.0 else s[0] + Sum(s[1..])
  }

  function MeanSquare(chunk: seq<real>): real
    requires chunk != []
  {
    Sum(chunk) / (|chunk| as real)
  }

  /** Squared magnitude about the axis medians. */
  function Mag2(s: Sample, mx: real, my: real, mz: real): real {
    Sq(s.x - mx) + Sq(s.y - my) + Sq(s.z - mz)
  }

  datatype AxisName = X | Y | Z

  function Component(s: Sample, axis: AxisName): real {
    match axis
    case X => s.x
    case Y => s.y
    case Z => s.z
  }

  function Axis(s: seq<Sample>, axis: AxisName): (r: seq<real>)
    ensures |r| == |s| && forall k | 0 <= k < |s| :: r[k] == Component(s[k], axis)
  {
    seq(|s|, k requires 0 <= k < |s| => Component(s[k], axis))
  }

  function Magnitudes2(s: seq<Sample>): (r: seq<real>)
    requires s != []
    ensures |r| == |s|
  {
    var mx, my, mz := Median(Axis(s, X)), Median(Axis(s, Y)), Median(Axis(s, Z));
    seq(|s|, k requires 0 <= k < |s| => Mag2(s[k], mx, my, mz))
  }

  /** The largest window mean square, and one that attains it. */
  ghost predicate IsPeak2(mag2: seq<real>, window: nat, peak2: real)
    requires 1 <= window <= |mag2|
  {
    && (forall o | o in WindowOffsets(|mag2|, window) :: WindowMean(mag2, window, o) <= peak2)
    && (exists o | o in WindowOffsets(|mag2|, window) :: WindowMean(mag2, window, o) == peak2)
  }

  function WindowMean(mag2: seq<real>, window: nat, o: nat): real
    requires 1 <= window
  {
    if o + window <= |mag2| then MeanSquare(mag2[o..o + window]) else 0.0
  }

  lemma {:induction false} SumNonneg(s: seq<real>)
    requires forall k | 0 <= k < |s| :: s[k] >= 0.0
    ensures Sum(s) >= 0.0
  {
    if s != [] { SumNonneg(s[1..]); }
  }

  lemma {:induction false} SumSplit(s: seq<real>, k: nat)
    requires k <= |s|
    ensures Sum(s) == Sum(s[..k]) + Sum(s[k..])
  {
    if k == 0 {
      assert s[0..] == s;
    } else {
      SumSplit(s[1..], k - 1);
      assert s[..k][1..] == s[1..][..k - 1] && s[1..][k - 1..] == s[k..];
    }
  }

  function Times(v: real, n: nat): real {
    v * (n as real)
  }

  lemma {:induction false} SumAtLeast(s: seq<real>, m2: real)
    requires forall k | 0 <= k < |s| :: s[k] >= m2
    ensures Sum(s) >= Times(m2, |s|)
  {
    if s != [] {
      SumAtLeast(s[1..], m2);
      assert Times(m2, |s|) == Times(m2, |s| - 1) + m2;
    }
  }

  lemma {:induction false} SumAtMost(s: seq<real>, m2: real)
    requires forall k | 0 <= k < |s| :: s[k] <= m2
    ensures Sum(s) <= Times(m2, |s|)
  {
    if s != [] {
      SumAtMost(s[1..], m2);
      assert Times(m2, |s|) == Times(m2, |s| - 1) + m2;
    }
  }

  /** A burst of magnitude m throughout forces peak^2 * window >= m^2 * length. */
  lemma BurstRaisesThePeak(mag2: seq<real>, window: nat, peak2: real, b: nat, len: nat, m2: real)
    requires 1 <= window <= |mag2| && IsPeak2(mag2, window, peak2)
    requires len <= window - Stride(window) + 1 && b + len <= |mag2|
    requires forall k | 0 <= k < |mag2| :: mag2[k] >= 0.0
    requires forall k | b <= k < b + len :: mag2[k] >= m2
    ensures Times(peak2, window) >= Times(m2, len)
  {
    hide Times, WindowOffsets, Stride, Sum;
    var o := BurstInsideAWindow(|mag2|, window, b, len);
    var chunk := mag2[o..o + window];
    assert forall k | b - o <= k < b - o + len :: chunk[k] == mag2[k + o];
    SumOfBurst(chunk, b - o, len, m2);
    MeanTimes(chunk);
    TimesMonotone(WindowMean(mag2, window, o), peak2, window);
  }

  lemma {:induction false} SumOfBurst(chunk: seq<real>, b: nat, len: nat, m2: real)
    requires b + len <= |chunk| && forall k | 0 <= k < |chunk| :: chunk[k] >= 0.0
    requires forall k | b <= k < b + len :: chunk[k] >= m2
    ensures Sum(chunk) >= Times(m2, len)
  {
    hide Times, Sum;
    SumSplit(chunk, b);
    SumSplit(chunk[b..], len);
    SumNonneg(chunk[..b]);
    SumNonneg(chunk[b..][len..]);
    SumAtLeast(chunk[b..][..len], m2);
  }

  lemma {:induction false} MeanTimes(chunk: seq<real>)
    requires chunk != []
    ensures Times(MeanSquare(chunk), |chunk|) == Sum(chunk)
  {
  }

  lemma TimesMonotone(u: real, v: real, n: nat)
    requires u <= v
    ensures Times(u, n) <= Times(v, n)
  {
    MulLe(u, v, n as real);
  }

  /** Mean square over all samples, and the largest over the windows. */
  method Stats(s: seq<Sample>, window: nat) returns (total2: real, peak2: real)
    requires 1 <= window <= |s|
    ensures Times(total2, |s|) == Sum(Magnitudes2(s))
    ensures IsPeak2(Magnitudes2(s), window, peak2) && peak2 >= 0.0
  {
    var mag2 := Magnitudes2(s);
    MagnitudesNonneg(s);
    hide Magnitudes2;
    total2 := MeanSquare(mag2);
    MeanTimes(mag2);
    peak2 := PeakOf(mag2, window);
  }

  lemma MagnitudesNonneg(s: seq<Sample>)
    requires s != []
    ensures forall k | 0 <= k < |s| :: Magnitudes2(s)[k] >= 0.0
  {
    hide Sq, Median;
  }

  method PeakOf(mag2: seq<real>, window: nat) returns (peak2: real)
    requires 1 <= window <= |mag2| && forall k | 0 <= k < |mag2| :: mag2[k] >= 0.0
    ensures IsPeak2(mag2, window, peak2) && peak2 >= 0.0
  {
    TailIsAWindow(|mag2|, window);
    hide WindowOffsets, WindowMean;
    var offsets := WindowOffsets(|mag2|, window);
    peak2 := LargestMean(mag2, window, offsets);
  }

  method LargestMean(mag2: seq<real>, window: nat, offsets: seq<nat>) returns (peak2: real)
    requires 1 <= window && offsets != [] && forall k | 0 <= k < |mag2| :: mag2[k] >= 0.0
    ensures peak2 >= 0.0 && forall o | o in offsets :: WindowMean(mag2, window, o) <= peak2
    ensures exists o | o in offsets :: WindowMean(mag2, window, o) == peak2
  {
    hide WindowMean;
    peak2 := 0.0;
    ghost var at := 0;
    for k := 0 to |offsets|
      invariant peak2 >= 0.0
      invariant forall j | 0 <= j < k :: WindowMean(mag2, window, offsets[j]) <= peak2
      invariant 0 <= at < |offsets| && (if k > 0 then WindowMean(mag2, window, offsets[at]) == peak2 else at == 0 && peak2 == 0.0)
    {
      WindowMeanNonneg(mag2, window, offsets[k]);
      var mean := WindowMean(mag2, window, offsets[k]);
      if mean > peak2 {
        peak2, at := mean, k;
      }
    }
    assert offsets[at] in offsets;
  }

  lemma WindowMeanNonneg(mag2: seq<real>, window: nat, o: nat)
    requires 1 <= window && forall k | 0 <= k < |mag2| :: mag2[k] >= 0.0
    ensures WindowMean(mag2, window, o) >= 0.0
  {
    if o + window <= |mag2| {
      SumNonneg(mag2[o..o + window]);
      DivNonneg(Sum(mag2[o..o + window]), window as real);
    }
  }

  lemma DivNonneg(u: real, v: real)
    requires u >= 0.0 && v > 0.0
    ensures u / v >= 0.0
  {
  }

  // ----- which captures are classified -----

  function Gaps(s: seq<Sample>): (r: seq<real>)
    ensures |r| == if |s| < 2 then 0 else |s| - 1
    ensures forall k | 0 <= k < |r| :: r[k] == s[k + 1].t - s[k].t
  {
    if |s| < 2 then [] else seq(|s| - 1, k requires 0 <= k < |s| - 1 => s[k + 1].t - s[k].t)
  }

  /** The first reason not to classify a capture, in the order checked. */
  function Refusal(s: seq<Sample>): Option<Invalid> {
    if |s| < MIN_PASS_SAMPLES then Some(TooFew)
    else if forall k | 0 <= k < |s| :: s[k].x == s[0].x && s[k].y == s[0].y && s[k].z == s[0].z then Some(ConstantSignal)
    else
      var gaps := Gaps(s);
      if exists k | 0 <= k < |gaps| :: gaps[k] <= 0.0 then Some(RateCollapse)
      else if exists k | 0 <= k < |gaps| :: gaps[k] > DT_GAP_FACTOR * Median(gaps) then Some(RateCollapse)
      else None
  }

  /** A classified capture is long enough, has rising timestamps and moves on some axis. */
  lemma ClassifiedCapturesRise(s: seq<Sample>, i: nat, j: nat)
    requires Refusal(s) == None && i < j < |s|
    ensures |s| >= MIN_PASS_SAMPLES && s[i].t < s[j].t
    ensures exists k | 0 <= k < |s| :: s[k].x != s[0].x || s[k].y != s[0].y || s[k].z != s[0].z
  {
    GapsArePositive(s);
    NotConstant(s);
    hide Refusal, Gaps;
    RisingGaps(s, i, j);
  }

  lemma GapsArePositive(s: seq<Sample>)
    requires Refusal(s) == None
    ensures |s| >= MIN_PASS_SAMPLES && forall k | 0 <= k < |s| - 1 :: Gaps(s)[k] > 0.0
  {
    hide Median, Gaps;
  }

  lemma NotConstant(s: seq<Sample>)
    requires Refusal(s) == None
    ensures exists k | 0 <= k < |s| :: s[k].x != s[0].x || s[k].y != s[0].y || s[k].z != s[0].z
  {
    hide Median, Gaps;
  }

  lemma {:induction false} RisingGaps(s: seq<Sample>, i: nat, j: nat)
    requires i < j < |s| && forall k | 0 <= k < |s| - 1 :: Gaps(s)[k] > 0.0
    ensures s[i].t < s[j].t
  {
    assert Gaps(s)[j - 1] > 0.0;
    if i < j - 1 { RisingGaps(s, i, j - 1); }
  }

  /** A capture is classified exactly when it is at least 128 samples long, moves on some axis, and its gaps are positive
      and at most five times their median. */
  lemma ClassifiedExactly(s: seq<Sample>)
    ensures Refusal(s) == None <==>
              && |s| >= 128 && Moves(s)
              && forall k | 0 <= k < |s| - 1 :: 0.0 < Gaps(s)[k] <= 5.0 * Median(Gaps(s))
  {
    hide Median, Gaps;
  }

  predicate Moves(s: seq<Sample>) {
    exists k | 0 <= k < |s| :: s[k].x != s[0].x || s[k].y != s[0].y || s[k].z != s[0].z
  }

  /** In particular one sampled at a steady rate. */
  lemma SteadyCapturesAreClassified(s: seq<Sample>, dt: real)
    requires |s| >= 128 && Moves(s) && dt > 0.0 && forall k | 0 <= k < |s| - 1 :: s[k + 1].t - s[k].t == dt
    ensures Refusal(s) == None
  {
    ClassifiedExactly(s);
    assert forall k | 0 <= k < |s| - 1 :: Gaps(s)[k] == dt;
    hide Refusal, Moves, Gaps;
    MedianOfEqual(Gaps(s), dt);
  }

  lemma MedianOfEqual(v: seq<real>, dt: real)
    requires v != [] && forall k | 0 <= k < |v| :: v[k] == dt
    ensures Median(v) == dt
  {
    hide Median, CountIn;
    CountAll(v, dt, dt);
    MedianFollowsTheMajority(v, dt, dt);
  }

  // ----- the verdict -----

  datatype Result<T> = Ok(value: T) | Refused(reason: Invalid)

  datatype Verdict = Verdict(contact: bool, peak2: real, ratio2: real, confidence: real)

  /** Zero at the threshold, growing to one as the ratio leaves it; `ratio2` is the squared ratio. */
  function Confidence(ratio2: real): real
    requires ratio2 >= 0.0
  {
    var s := ratio2 / (1.0 + ratio2);
    var value := 2.0 * Abs(s - 0.5);
    Min(1.0, Max(0.0, value))
  }

  /** |r - 1| / (r + 1): zero exactly at the threshold, the same for a ratio and its inverse, and never one. */
  lemma ConfidenceMeasuresDistanceFromThreshold(r: real)
    requires r >= 0.0
    ensures Confidence(r) * (1.0 + r) == Abs(r - 1.0)
    ensures Confidence(r) == 0.0 <==> r == 1.0
    ensures 0.0 <= Confidence(r) <= 1.0
  {
    var s := r / (1.0 + r);
    DivMul(r, 1.0 + r);
    ScaledDeviation(s, r);
    var value := 2.0 * Abs(s - 0.5);
    assert value * (1.0 + r) == Abs(r - 1.0);
    LessByFactor(value, 1.0, 1.0 + r);
    assert Confidence(r) == value;
    if value == 0.0 { MulZero(1.0 + r, value); }
    if r == 1.0 { assert s == 0.5; }
  }

  lemma ScaledDeviation(s: real, r: real)
    requires r >= 0.0 && s * (1.0 + r) == r
    ensures 2.0 * Abs(s - 0.5) * (1.0 + r) == Abs(r - 1.0)
  {
    assert 2.0 * (s - 0.5) * (1.0 + r) == r - 1.0;
    if s >= 0.5 {
      MulNonneg(s - 0.5, 1.0 + r);
    } else {
      MulNonneg(0.5 - s, 1.0 + r);
    }
  }

  /** What `classify_pass` answers: the refusal, or the verdict on the peak. */
  ghost predicate IsVerdict(s: seq<Sample>, threshold: real, r: Result<Verdict>) {
    if Refusal(s).Some? then r == Refused(Refusal(s).value)
    else
      && r.Ok? && |s| >= RMS_WINDOW && IsPeak2(Magnitudes2(s), RMS_WINDOW, r.value.peak2)
      && (r.value.contact <==> r.value.peak2 > Sq(threshold))
      && r.value.ratio2 * Sq(threshold) == r.value.peak2 && r.value.ratio2 >= 0.0
      && r.value.confidence == Confidence(r.value.ratio2)
  }

  /** Contact exactly when the peak exceeds the threshold, the noise floor times the sensitivity multiplier. */
  method ClassifyPass(s: seq<Sample>, threshold: real) returns (r: Result<Verdict>)
    requires threshold > 0.0
    ensures IsVerdict(s, threshold, r)
  {
    hide Refusal, Magnitudes2, IsPeak2, Confidence, Sq;
    var refusal := Refusal(s);
    if refusal.Some? {
      return Refused(refusal.value);
    }
    LongEnough(s);
    var _, peak2 := Stats(s, RMS_WINDOW);
    var t2 := Sq(threshold);
    SqPos(threshold);
    var ratio2 := peak2 / t2;
    DivMul(peak2, t2);
    DivNonneg(peak2, t2);
    RatioAboveOne(peak2, t2, ratio2);
    return Ok(Verdict(ratio2 > 1.0, peak2, ratio2, Confidence(ratio2)));
  }

  lemma LongEnough(s: seq<Sample>)
    requires Refusal(s).None?
    ensures |s| >= MIN_PASS_SAMPLES
  {
  }

  lemma RatioAboveOne(peak2: real, t2: real, ratio2: real)
    requires t2 > 0.0 && ratio2 * t2 == peak2
    ensures ratio2 > 1.0 <==> peak2 > t2
  {
    if ratio2 > 1.0 { MulPos(ratio2 - 1.0, t2); }
    if ratio2 <= 1.0 { MulLe(ratio2, 1.0, t2); }
  }

  // ----- what the verdict can be trusted with -----

  /** How many positions of two readings of the same length agree. */
  function Untouched(s: seq<real>, t: seq<real>): nat
    requires |s| == |t|
  {
    if s == [] then 0 else (if s[0] == t[0] then 1 else 0) + Untouched(s[1..], t[1..])
  }

  lemma {:induction false} UntouchedAreCounted(s: seq<real>, t: seq<real>, lo: real, hi: real)
    requires |s| == |t| && forall k | 0 <= k < |s| && s[k] == t[k] :: lo <= s[k] <= hi
    ensures CountIn(t, lo, hi) >= Untouched(s, t)
  {
    if s != [] { UntouchedAreCounted(s[1..], t[1..], lo, hi); }
  }

  /** With fewer than half the samples altered, the median stays within the range of the untouched ones. */
  lemma {:induction false} MedianResistsAlteration(s: seq<real>, t: seq<real>, lo: real, hi: real)
    requires |s| == |t| && s != [] && 2 * Untouched(s, t) > |s|
    requires forall k | 0 <= k < |s| && s[k] == t[k] :: lo <= s[k] <= hi
    ensures lo <= Median(t) <= hi
  {
    UntouchedAreCounted(s, t, lo, hi);
    MedianFollowsTheMajority(t, lo, hi);
  }

  lemma {:induction false} QuietOutside(v: seq<real>, b: nat, len: nat, lo: real, hi: real)
    requires b + len <= |v|
    requires forall k | 0 <= k < |v| && !(b <= k < b + len) :: lo <= v[k] <= hi
    ensures CountIn(v, lo, hi) >= |v| - len
  {
    CountSplit(v, b, lo, hi);
    CountSplit(v[b..], len, lo, hi);
    CountAll(v[..b], lo, hi);
    assert forall k | 0 <= k < |v| - b - len :: v[b..][len..][k] == v[b + len + k];
    CountAll(v[b..][len..], lo, hi);
  }

  /** Outside the burst the axis stays within eps of c; throughout it the axis is `amplitude` further away, on either side. */
  predicate BurstOn(s: seq<Sample>, axis: AxisName, b: nat, len: nat, c: real, eps: real, amplitude: real) {
    && b + len <= |s|
    && (forall k | 0 <= k < |s| && !(b <= k < b + len) :: c - eps <= Component(s[k], axis) <= c + eps)
    && (forall k | b <= k < b + len :: Component(s[k], axis) >= c + eps + amplitude || Component(s[k], axis) <= c - eps - amplitude)
  }

  /** End to end: on an axis quiet to within eps, a burst shorter than half the capture and at least
      window - stride + 1 = 33 samples long, at least `amplitude` away on either side, is classified as contact
      once amplitude^2 * 33 > threshold^2 * 64. */
  lemma BurstIsContact(s: seq<Sample>, axis: AxisName, threshold: real, peak2: real, b: nat, len: nat, c: real, eps: real, amplitude: real)
    requires |s| >= RMS_WINDOW && IsPeak2(Magnitudes2(s), RMS_WINDOW, peak2)
    requires len >= RMS_WINDOW - RMS_WINDOW / 2 + 1 && 2 * len < |s| && BurstOn(s, axis, b, len, c, eps, amplitude)
    requires amplitude >= 0.0 && Sq(amplitude) * 33.0 > Sq(threshold) * 64.0
    ensures peak2 > Sq(threshold)
  {
    hide Sq, IsPeak2;
    BurstMagnitudes(s, axis, b, len, c, eps, amplitude);
    MagnitudesNonneg(s);
    hide Magnitudes2;
    BurstRaisesThePeak(Magnitudes2(s), RMS_WINDOW, peak2, b, RMS_WINDOW - RMS_WINDOW / 2 + 1, Sq(amplitude));
    HalfWindowMargin(peak2, Sq(amplitude), Sq(threshold));
  }

  lemma HalfWindowMargin(peak2: real, m2: real, threshold2: real)
    requires Times(peak2, 64) >= Times(m2, 33) && m2 * 33.0 > threshold2 * 64.0
    ensures peak2 > threshold2
  {
  }

  lemma BurstMagnitudes(s: seq<Sample>, axis: AxisName, b: nat, len: nat, c: real, eps: real, amplitude: real)
    requires 2 * len < |s| && amplitude >= 0.0 && BurstOn(s, axis, b, len, c, eps, amplitude)
    ensures forall k | b <= k < b + len :: Magnitudes2(s)[k] >= Sq(amplitude)
  {
    hide Sq, Median, CountIn, Magnitudes2, Component;
    var values := Axis(s, axis);
    QuietOutside(values, b, len, c - eps, c + eps);
    MedianFollowsTheMajority(values, c - eps, c + eps);
    forall k | b <= k < b + len
      ensures Magnitudes2(s)[k] >= Sq(amplitude)
    {
      BurstMagnitude(s, axis, k, amplitude);
    }
  }

  lemma BurstMagnitude(s: seq<Sample>, axis: AxisName, k: nat, amplitude: real)
    requires k < |s| && amplitude >= 0.0
    requires var d := Component(s[k], axis) - Median(Axis(s, axis)); d >= amplitude || d <= -amplitude
    ensures Magnitudes2(s)[k] >= Sq(amplitude)
  {
    hide Median, Sq;
    var d := Component(s[k], axis) - Median(Axis(s, axis));
    if d >= amplitude {
      SqMonotone(amplitude, d);
    } else {
      SqMonotone(amplitude, -d);
      SqNeg(d);
    }
  }

  predicate Quiet(s: seq<Sample>, c: Sample, eps: real) {
    forall k | 0 <= k < |s| :: c.x - eps <= s[k].x <= c.x + eps && c.y - eps <= s[k].y <= c.y + eps && c.z - eps <= s[k].z <= c.z + eps
  }

  /** A capture quiet to within eps on every axis is clean whenever threshold^2 >= 12 eps^2. */
  lemma QuietIsClean(s: seq<Sample>, threshold: real, peak2: real, c: Sample, eps: real)
    requires |s| >= RMS_WINDOW && IsPeak2(Magnitudes2(s), RMS_WINDOW, peak2) && eps >= 0.0
    requires Quiet(s, c, eps) && Sq(threshold) >= 12.0 * Sq(eps)
    ensures peak2 <= Sq(threshold)
  {
    var mag2 := Magnitudes2(s);
    hide Sq, Magnitudes2, IsPeak2;
    forall k | 0 <= k < |s|
      ensures mag2[k] <= 12.0 * Sq(eps)
    {
      QuietMagnitude(s, c, eps, k);
    }
    PeakAtMost(mag2, RMS_WINDOW, peak2, 12.0 * Sq(eps));
  }

  lemma PeakAtMost(mag2: seq<real>, window: nat, peak2: real, m2: real)
    requires 1 <= window <= |mag2| && IsPeak2(mag2, window, peak2) && forall k | 0 <= k < |mag2| :: mag2[k] <= m2
    ensures peak2 <= m2
  {
    TailIsAWindow(|mag2|, window);
    hide WindowOffsets, WindowMean;
    var o :| o in WindowOffsets(|mag2|, window) && WindowMean(mag2, window, o) == peak2;
    WindowMeanAtMost(mag2, window, o, m2);
  }

  lemma WindowMeanAtMost(mag2: seq<real>, window: nat, o: nat, m2: real)
    requires 1 <= window && o + window <= |mag2| && forall k | 0 <= k < |mag2| :: mag2[k] <= m2
    ensures WindowMean(mag2, window, o) <= m2
  {
    hide Times, Sum;
    var chunk := mag2[o..o + window];
    SumAtMost(chunk, m2);
    MeanTimes(chunk);
    TimesCancel(WindowMean(mag2, window, o), m2, window);
  }

  lemma TimesCancel(u: real, v: real, n: nat)
    requires n > 0 && Times(u, n) <= Times(v, n)
    ensures u <= v
  {
    LessByFactor(u, v, n as real);
  }

  lemma QuietMagnitude(s: seq<Sample>, c: Sample, eps: real, k: nat)
    requires k < |s| && Quiet(s, c, eps) && eps >= 0.0
    ensures Magnitudes2(s)[k] <= 12.0 * Sq(eps)
  {
    var xs, ys, zs := Axis(s, X), Axis(s, Y), Axis(s, Z);
    QuietDeviation(xs, c.x, eps, k);
    QuietDeviation(ys, c.y, eps, k);
    QuietDeviation(zs, c.z, eps, k);
    hide Median, Sq;
  }

  lemma QuietDeviation(v: seq<real>, c: real, eps: real, k: nat)
    requires k < |v| && eps >= 0.0 && forall j | 0 <= j < |v| :: c - eps <= v[j] <= c + eps
    ensures Sq(v[k] - Median(v)) <= 4.0 * Sq(eps)
  {
    CountAll(v, c - eps, c + eps);
    MedianFollowsTheMajority(v, c - eps, c + eps);
    hide Median, CountIn;
    var d := v[k] - Median(v);
    assert Sq(2.0 * eps) == 4.0 * Sq(eps);
    if d >= 0.0 { SqMonotone(d, 2.0 * eps); } else { SqMonotone(-d, 2.0 * eps); SqNeg(d); }
  }

  /** The command's own words: such a burst in a capture good enough to classify is answered as contact. */
  lemma BurstIsAnsweredContact(s: seq<Sample>, axis: AxisName, threshold: real, r: Result<Verdict>, b: nat, len: nat, c: real, eps: real, amplitude: real)
    requires IsVerdict(s, threshold, r) && |s| >= 128 && Moves(s)
    requires forall k | 0 <= k < |s| - 1 :: 0.0 < Gaps(s)[k] <= 5.0 * Median(Gaps(s))
    requires len >= 33 && 2 * len < |s| && BurstOn(s, axis, b, len, c, eps, amplitude)
    requires amplitude >= 0.0 && Sq(amplitude) * 33.0 > Sq(threshold) * 64.0
    ensures r.Ok? && r.value.contact
  {
    ClassifiedExactly(s);
    hide Refusal, Gaps, Median, BurstOn, Sq, IsPeak2, Magnitudes2, Moves;
    BurstIsContact(s, axis, threshold, r.value.peak2, b, len, c, eps, amplitude);
  }

  /** A quiet one is answered as clean. */
  lemma QuietIsAnsweredClean(s: seq<Sample>, threshold: real, r: Result<Verdict>, c: Sample, eps: real)
    requires IsVerdict(s, threshold, r) && |s| >= 128 && Moves(s)
    requires forall k | 0 <= k < |s| - 1 :: 0.0 < Gaps(s)[k] <= 5.0 * Median(Gaps(s))
    requires eps >= 0.0 && Quiet(s, c, eps) && Sq(threshold) >= 12.0 * Sq(eps)
    ensures r.Ok? && !r.value.contact
  {
    ClassifiedExactly(s);
    hide Refusal, Gaps, Median, Quiet, Sq, IsPeak2, Magnitudes2, Moves;
    QuietIsClean(s, threshold, r.value.peak2, c, eps);
  }
}
