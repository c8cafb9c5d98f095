/** Consensus touch probing: touches are taken one at a time until enough of the most recent ones agree. */
module TouchSequence {
  import opened Model
  import opened Statistics

  const MIN_SAMPLES: int := 3
  const MAX_MAX_SAMPLES: int := 20
  const MAX_WINDOW: int := 10
  const SAMPLE_RANGE_CAP: real := 0.015

  datatype Config = Config(samples: int, maxSamples: int, maxNoisy: int, sampleRange: real)

  datatype Refusal = TooFewSamples | NegativeNoisy | BudgetBelowSamples | BudgetTooLarge | WindowTooLarge | RangeNotPositive | RangeAboveCap

  /** The first reason to refuse a configuration, in the order checked. */
  function Check(c: Config): Option<Refusal> {
    if c.samples < MIN_SAMPLES then Some(TooFewSamples)
    else if c.maxNoisy < 0 then Some(NegativeNoisy)
    else if c.maxSamples < c.samples then Some(BudgetBelowSamples)
    else if c.maxSamples > MAX_MAX_SAMPLES then Some(BudgetTooLarge)
    else if c.samples + c.maxNoisy > MAX_WINDOW then Some(WindowTooLarge)
    else if c.sampleRange <= 0.0 then Some(RangeNotPositive)
    else if c.sampleRange > SAMPLE_RANGE_CAP then Some(RangeAboveCap)
    else None
  }

  /** Accepted exactly: three to twenty touches with room for the consensus, a window of at most ten, a range of at most
      15 microns. */
  lemma AcceptedConfigs(c: Config)
    ensures Check(c) == None <==>
              && 3 <= c.samples <= c.maxSamples <= 20 && c.maxNoisy >= 0 && c.samples + c.maxNoisy <= 10
              && 0.0 < c.sampleRange <= 0.015
  {
  }

  // ----- spreads and subsets -----

  function MaxOf(s: seq<real>): (m: real)
    requires s != []
    ensures m in s && forall k | 0 <= k < |s| :: s[k] <= m
  {
    if |s| == 1 then s[0]
    else
      var m := MaxOf(s[1..]);
      if s[0] > m then s[0] else m
  }

  function MinOf(s: seq<real>): (m: real)
    requires s != []
    ensures m in s && forall k | 0 <= k < |s| :: m <= s[k]
  {
    if |s| == 1 then s[0]
    else
      var m := MinOf(s[1..]);
      if s[0] < m then s[0] else m
  }

  /** Largest minus smallest; None stands for the infinite spread of fewer than two. */
  function ComputeRange(s: seq<real>): Option<real> {
    if |s| < 2 then None else Some(MaxOf(s) - MinOf(s))
  }

  predicate Tighter(a: Option<real>, b: Option<real>) {
    a.Some? && (b.None? || a.value < b.value)
  }

  /** Every subset of the given size, in the order of positions. */
  function Combinations(w: seq<real>, size: nat): seq<seq<real>> {
    if size == 0 then [[]]
    else if w == [] then []
    else Prepended(w[0], Combinations(w[1..], size - 1)) + Combinations(w[1..], size)
  }

  function Prepended(v: real, cs: seq<seq<real>>): (r: seq<seq<real>>)
    ensures |r| == |cs| && forall k | 0 <= k < |cs| :: r[k] == [v] + cs[k]
  {
    if cs == [] then [] else [[v] + cs[0]] + Prepended(v, cs[1..])
  }

  datatype Search = WindowRefused | Best(subset: Option<seq<real>>)

  /** A linear scan for the first subset of least spread. */
  method FindBestSubset(window: seq<real>, size: nat) returns (r: Search)
    ensures r.WindowRefused? <==> |window| > MAX_WINDOW
    ensures r.Best? && size > |window| ==> r.subset == None
    ensures r.Best? && size < 2 ==> r.subset == None
    ensures r.Best? && 2 <= size <= |window| ==>
              && r.subset.Some? && r.subset.value in Combinations(window, size)
              && Least(window, size, ComputeRange(r.subset.value))
              && FirstTightest(Combinations(window, size), r.subset.value)
  {
    if |window| > MAX_WINDOW {
      return WindowRefused;
    }
    if size > |window| {
      return Best(None);
    }
    hide Combinations, Least, ComputeRange, FirstTightest;
    var combos := Combinations(window, size);
    var best := TightestOf(combos);
    BestIsLeast(window, size, combos, best);
    return Best(best);
  }

  function SpreadOf(best: Option<seq<real>>): Option<real> {
    if best.Some? then ComputeRange(best.value) else None
  }

  /** Of the subsets of least spread, the first in the order of positions. */
  ghost predicate FirstTightest(combos: seq<seq<real>>, subset: seq<real>) {
    exists i | 0 <= i < |combos| ::
      && combos[i] == subset
      && (forall j | 0 <= j < i :: Tighter(ComputeRange(subset), ComputeRange(combos[j])))
      && (forall j | i <= j < |combos| :: !Tighter(ComputeRange(combos[j]), ComputeRange(subset)))
  }

  /** The scan itself: the first subset no other is tighter than, if any has a finite spread. */
  method TightestOf(combos: seq<seq<real>>) returns (best: Option<seq<real>>)
    ensures best.Some? ==> best.value in combos && ComputeRange(best.value).Some? && FirstTightest(combos, best.value)
    ensures forall j | 0 <= j < |combos| :: !Tighter(ComputeRange(combos[j]), SpreadOf(best))
  {
    hide ComputeRange;
    best := None;
    var bestRange: Option<real> := None;
    ghost var at := 0;
    for k := 0 to |combos|
      invariant best.Some? ==> at < k && combos[at] == best.value && bestRange.Some?
      invariant best.Some? ==> forall j | 0 <= j < at :: Tighter(bestRange, ComputeRange(combos[j]))
      invariant bestRange == SpreadOf(best)
      invariant forall j | 0 <= j < k :: !Tighter(ComputeRange(combos[j]), bestRange)
    {
      var spread := ComputeRange(combos[k]);
      if Tighter(spread, bestRange) {
        bestRange := spread;
        best := Some(combos[k]);
        at := k;
      }
    }
  }

  lemma {:induction false} BestIsLeast(window: seq<real>, size: nat, combos: seq<seq<real>>, best: Option<seq<real>>)
    requires size <= |window| && combos == Combinations(window, size)
    requires best.Some? ==> best.value in combos && ComputeRange(best.value).Some?
    requires forall j | 0 <= j < |combos| :: !Tighter(ComputeRange(combos[j]), SpreadOf(best))
    ensures size < 2 ==> best == None
    ensures size >= 2 ==> best.Some? && Least(window, size, ComputeRange(best.value))
  {
    CombinationSizes(window, size);
    CombinationsExist(window, size);
    hide Combinations;
    if size >= 2 {
      assert combos[0] in combos;
      assert ComputeRange(combos[0]).Some?;
      hide ComputeRange;
      SubsetAgrees(window, size, best.value);
      hide Agree;
      forall r: real | Agree(window, size, r)
        ensures SpreadOf(best).value <= r
      {
        NoneTighter(window, size, combos, best, r);
      }
    }
  }

  lemma {:induction false} NoneTighter(window: seq<real>, size: nat, combos: seq<seq<real>>, best: Option<seq<real>>, r: real)
    requires size >= 2 && combos == Combinations(window, size) && SpreadOf(best).Some? && Agree(window, size, r)
    requires forall j | 0 <= j < |combos| :: !Tighter(ComputeRange(combos[j]), SpreadOf(best))
    ensures SpreadOf(best).value <= r
  {
    hide Combinations, ComputeRange, SpreadOf, CountIn;
    var lo :| CountFrom(window, lo, r) >= size;
    var c := AgreeingSubset(window, size, lo, lo + r);
    var j :| 0 <= j < |combos| && combos[j] == c;
  }

  /** k of the values lie in some interval of length r. */
  ghost predicate Agree(w: seq<real>, k: nat, r: real) {
    exists lo :: CountFrom(w, lo, r) >= k
  }

  /** How many values lie in the interval of length r from lo. */
  function CountFrom(w: seq<real>, lo: real, r: real): nat {
    CountIn(w, lo, lo + r)
  }

  /** The smallest interval length in which k values agree. */
  ghost predicate Least(w: seq<real>, k: nat, spread: Option<real>) {
    && spread.Some? && Agree(w, k, spread.value)
    && forall r: real | Agree(w, k, r) :: spread.value <= r
  }

  lemma {:induction false} CombinationSize(w: seq<real>, size: nat, c: seq<real>)
    requires c in Combinations(w, size)
    ensures |c| == size
  {
    CombinationBase(w, size, c);
    hide Combinations;
    if size > 0 {
      CombinationCases(w, size, c);
      if c in Combinations(w[1..], size) {
        CombinationSize(w[1..], size, c);
      } else {
        CombinationSize(w[1..], size - 1, c[1..]);
      }
    }
  }

  lemma {:induction false} CombinationSizes(w: seq<real>, size: nat)
    ensures forall c | c in Combinations(w, size) :: |c| == size
  {
    forall c | c in Combinations(w, size)
      ensures |c| == size
    {
      CombinationSize(w, size, c);
    }
  }

  lemma {:induction false} CombinationBase(w: seq<real>, size: nat, c: seq<real>)
    ensures size == 0 && c in Combinations(w, size) ==> c == []
    ensures size > 0 && w == [] ==> c !in Combinations(w, size)
  {
  }

  /** A subset of a window takes its first value or does not. */
  lemma CombinationCases(w: seq<real>, size: nat, c: seq<real>)
    requires size > 0 && w != []
    ensures c in Combinations(w, size) <==>
              c in Combinations(w[1..], size) || (c != [] && c[0] == w[0] && c[1..] in Combinations(w[1..], size - 1))
  {
    PrependedMembers(w[0], Combinations(w[1..], size - 1), c);
  }

  lemma {:induction false} PrependedMembers(v: real, cs: seq<seq<real>>, c: seq<real>)
    ensures c in Prepended(v, cs) <==> c != [] && c[0] == v && c[1..] in cs
  {
    if k :| 0 <= k < |cs| && Prepended(v, cs)[k] == c {
      assert c[1..] == cs[k];
    }
    if c != [] && c[0] == v && c[1..] in cs {
      var k :| 0 <= k < |cs| && cs[k] == c[1..];
      assert Prepended(v, cs)[k] == c;
    }
  }

  lemma {:induction false} CombinationsExist(w: seq<real>, size: nat)
    requires size <= |w|
    ensures Combinations(w, size) != []
  {
    if size > 0 { CombinationsExist(w[1..], size - 1); }
  }

  /** A subset takes at most as many values from an interval as the window holds. */
  lemma {:induction false} SubsetCounts(w: seq<real>, size: nat, c: seq<real>, lo: real, hi: real)
    requires c in Combinations(w, size)
    ensures CountIn(c, lo, hi) <= CountIn(w, lo, hi)
  {
    CombinationBase(w, size, c);
    hide Combinations;
    if size > 0 {
      CombinationCases(w, size, c);
      if c in Combinations(w[1..], size) {
        SubsetCounts(w[1..], size, c, lo, hi);
      } else {
        SubsetCounts(w[1..], size - 1, c[1..], lo, hi);
      }
    }
  }

  lemma {:induction false} SubsetAgrees(w: seq<real>, size: nat, c: seq<real>)
    requires size >= 2 && c in Combinations(w, size)
    ensures ComputeRange(c).Some? && Agree(w, size, ComputeRange(c).value)
  {
    CombinationSizes(w, size);
    hide Combinations, CountIn;
    var lo := MinOf(c);
    var hi := lo + ComputeRange(c).value;
    assert hi == MaxOf(c);
    CountAll(c, lo, hi);
    SubsetCounts(w, size, c, lo, hi);
    assert CountFrom(w, lo, ComputeRange(c).value) >= size;
  }

  /** Where k values agree, some subset of k of them lies in the interval. */
  lemma AgreeingSubset(w: seq<real>, size: nat, lo: real, hi: real) returns (c: seq<real>)
    requires CountIn(w, lo, hi) >= size
    ensures c in Combinations(w, size) && |c| == size && forall k | 0 <= k < size :: lo <= c[k] <= hi
    ensures size >= 2 ==> ComputeRange(c).Some? && ComputeRange(c).value <= hi - lo
  {
    c := SubsetInside(w, size, lo, hi);
    if size >= 2 {
      assert MaxOf(c) in c && MinOf(c) in c;
    }
  }

  lemma {:induction false} SubsetInside(w: seq<real>, size: nat, lo: real, hi: real) returns (c: seq<real>)
    requires CountIn(w, lo, hi) >= size
    ensures c in Combinations(w, size) && |c| == size && forall k | 0 <= k < size :: lo <= c[k] <= hi
  {
    if size == 0 {
      c := [];
    } else if lo <= w[0] <= hi {
      var rest := SubsetInside(w[1..], size - 1, lo, hi);
      c := [w[0]] + rest;
      assert c[1..] == rest;
      CombinationCases(w, size, c);
    } else {
      c := SubsetInside(w[1..], size, lo, hi);
      CombinationCases(w, size, c);
    }
  }

  // ----- the sorted view -----

  /** k values agree within r exactly when some k consecutive sorted values spread over at most r. */
  lemma {:induction false} AgreeIsASortedRun(w: seq<real>, k: nat, r: real)
    requires k >= 1
    ensures |Sorted(w)| == |w|
    ensures Agree(w, k, r) <==> exists i: nat :: i + k <= |w| && Sorted(w)[i + k - 1] - Sorted(w)[i] <= r
  {
    SortedLength(w);
    SortedIsOrdered(w);
    var s := Sorted(w);
    if Agree(w, k, r) {
      var lo :| CountFrom(w, lo, r) >= k;
      SortedCounts(w, lo, lo + r);
      var i := RunInside(s, k, lo, lo + r);
    }
    if i: nat :| i + k <= |w| && s[i + k - 1] - s[i] <= r {
      SortedCounts(w, s[i], s[i] + r);
      RunCounts(s, i, k, s[i], s[i] + r);
      assert CountFrom(w, s[i], r) >= k;
    }
  }

  lemma {:induction false} RunInside(s: seq<real>, k: nat, lo: real, hi: real) returns (i: nat)
    requires Ordered(s) && k >= 1 && CountIn(s, lo, hi) >= k
    ensures i + k <= |s| && lo <= s[i] && s[i + k - 1] <= hi
  {
    CountBound(s, lo, hi);
    if s[0] < lo {
      i := RunInside(s[1..], k, lo, hi);
      i := i + 1;
    } else {
      i := 0;
      if s[k - 1] > hi { TooManyAbove(s, lo, hi, k - 1); }
    }
  }

  lemma {:induction false} RunCounts(s: seq<real>, i: nat, k: nat, lo: real, hi: real)
    requires Ordered(s) && k >= 1 && i + k <= |s| && lo <= s[i] && s[i + k - 1] <= hi
    ensures CountIn(s, lo, hi) >= k
  {
    CountSplit(s, i, lo, hi);
    CountSplit(s[i..], k, lo, hi);
    var run := s[i..][..k];
    forall j | 0 <= j < k
      ensures lo <= run[j] <= hi
    {
      assert run[j] == s[i + j];
    }
    CountAll(run, lo, hi);
  }

  /** The least spread is the smallest over consecutive runs of the sorted window. */
  lemma {:induction false} LeastIsTheTightestRun(w: seq<real>, k: nat, spread: real)
    requires k >= 1
    ensures |Sorted(w)| == |w|
    ensures Least(w, k, Some(spread)) <==>
            && (exists i: nat :: i + k <= |w| && Sorted(w)[i + k - 1] - Sorted(w)[i] == spread)
            && (forall i: nat | i + k <= |w| :: spread <= Sorted(w)[i + k - 1] - Sorted(w)[i])
  {
    SortedLength(w);
    var s := Sorted(w);
    forall r: real
      ensures Agree(w, k, r) <==> exists i: nat :: i + k <= |w| && s[i + k - 1] - s[i] <= r
    {
      AgreeIsASortedRun(w, k, r);
    }
    hide Agree, Sorted;
    if Least(w, k, Some(spread)) {
      forall i: nat | i + k <= |w|
        ensures spread <= s[i + k - 1] - s[i]
      {
        assert Agree(w, k, s[i + k - 1] - s[i]);
      }
    }
  }

  // ----- the touch loop -----

  datatype Outcome =
    | Consensus(median: real, range: real, subset: seq<real>, touchesUsed: nat, allSamples: seq<real>)
    | NoConsensus(touches: nat, allSamples: seq<real>)

  /** The last `window` of the first n touches. */
  function RecentWindow(touches: seq<real>, n: nat, window: nat): seq<real>
    requires n <= |touches|
  {
    if n <= window then touches[..n] else touches[n - window..n]
  }

  /** As many of the first n touches as the window takes, and those the latest. */
  lemma RecentWindowIsTheLatest(touches: seq<real>, n: nat, window: nat, i: nat)
    requires n <= |touches| && i < n
    ensures var w := RecentWindow(touches, n, window);
            && |w| == (if n < window then n else window)
            && (i < window ==> i < |w| && w[|w| - 1 - i] == touches[n - 1 - i])
  {
  }

  /** After n touches the most recent window holds enough touches within the range. */
  ghost predicate AgreesAfter(touches: seq<real>, c: Config, n: nat)
    requires n <= |touches| && Check(c) == None
  {
    n >= c.samples && Agree(RecentWindow(touches, n, c.samples + c.maxNoisy), c.samples, c.sampleRange)
  }

  /** Take touches until a recent subset agrees, or the budget is spent; `touches` is what the probe would read. */
  method RunConsensus(touches: seq<real>, c: Config) returns (r: Outcome)
    requires Check(c) == None && |touches| >= c.maxSamples
    ensures r.NoConsensus? <==> forall n: nat | n <= c.maxSamples :: !AgreesAfter(touches, c, n)
    ensures r.NoConsensus? ==> r.touches == c.maxSamples && r.allSamples == touches[..c.maxSamples]
    ensures r.Consensus? ==>
              && r.touchesUsed <= c.maxSamples && r.allSamples == touches[..r.touchesUsed]
              && AgreesAfter(touches, c, r.touchesUsed) && (forall n: nat | n < r.touchesUsed :: !AgreesAfter(touches, c, n))
              && var w := RecentWindow(touches, r.touchesUsed, c.samples + c.maxNoisy);
                 && r.subset in Combinations(w, c.samples) && |r.subset| == c.samples
                 && FirstTightest(Combinations(w, c.samples), r.subset)
                 && ComputeRange(r.subset) == Some(r.range) && Least(w, c.samples, Some(r.range)) && r.range <= c.sampleRange
                 && r.median == Median(r.subset)
  {
    hide Combinations, ComputeRange, Agree, Median, FirstTightest;
    for i := 0 to c.maxSamples
      invariant forall n: nat | n <= i :: !AgreesAfter(touches, c, n)
    {
      var n := i + 1;
      if n >= c.samples {
        var window := RecentWindow(touches, n, c.samples + c.maxNoisy);
        var best := FindBestSubset(window, c.samples);
        CombinationSizes(window, c.samples);
        if best.Best? && best.subset.Some? {
          var spread := ComputeRange(best.subset.value);
          WithinRangeIffAgree(window, c.samples, spread, c.sampleRange);
          if spread.Some? && spread.value <= c.sampleRange {
            assert AgreesAfter(touches, c, n);
            return Consensus(Median(best.subset.value), spread.value, best.subset.value, n, touches[..n]);
          }
        }
      }
    }
    return NoConsensus(c.maxSamples, touches[..c.maxSamples]);
  }

  lemma WithinRangeIffAgree(w: seq<real>, k: nat, spread: Option<real>, range: real)
    requires k >= 1 && Least(w, k, spread)
    ensures spread.value <= range <==> Agree(w, k, range)
  {
    if spread.value <= range {
      AgreeIsASortedRun(w, k, spread.value);
      AgreeIsASortedRun(w, k, range);
      var i: nat :| i + k <= |w| && Sorted(w)[i + k - 1] - Sorted(w)[i] <= spread.value;
      assert Sorted(w)[i + k - 1] - Sorted(w)[i] <= range;
    }
  }

  /** The reported height is within the subset's spread of every touch in it. */
  lemma MedianIsNearEveryTouch(subset: seq<real>, k: nat)
    requires |subset| >= 2 && k < |subset|
    ensures -ComputeRange(subset).value <= Median(subset) - subset[k] <= ComputeRange(subset).value
  {
    var lo, hi := MinOf(subset), MaxOf(subset);
    CountAll(subset, lo, hi);
    MedianFollowsTheMajority(subset, lo, hi);
  }

  /** Two touches as close as the range were taken at least a window apart. */
  predicate Scattered(touches: seq<real>, c: Config) {
    forall i, j | 0 <= i < j < |touches| && -c.sampleRange <= touches[i] - touches[j] <= c.sampleRange :: j - i >= c.samples + c.maxNoisy
  }

  /** Scattered touches never reach a consensus, whatever the whole run would yield. */
  lemma ScatteredTouchesFail(touches: seq<real>, c: Config, n: nat)
    requires Check(c) == None && Scattered(touches, c) && n <= |touches|
    ensures !AgreesAfter(touches, c, n)
  {
    var window := c.samples + c.maxNoisy;
    var w := RecentWindow(touches, n, window);
    forall lo: real
      ensures CountFrom(w, lo, c.sampleRange) < c.samples
    {
      if CountFrom(w, lo, c.sampleRange) >= 2 {
        var i, j := CloseInWindow(touches, n, window, lo, lo + c.sampleRange);
      }
    }
  }

  /** Two values of a recent window in one interval are touches less than the window apart. */
  lemma CloseInWindow(touches: seq<real>, n: nat, window: nat, lo: real, hi: real) returns (i: nat, j: nat)
    requires n <= |touches| && CountIn(RecentWindow(touches, n, window), lo, hi) >= 2
    ensures i < j < |touches| && j - i < window && lo <= touches[i] <= hi && lo <= touches[j] <= hi
  {
    var w := RecentWindow(touches, n, window);
    i, j := TwoInside(w, lo, hi);
    var from := if n <= window then 0 else n - window;
    assert w[i] == touches[from + i] && w[j] == touches[from + j];
    i, j := from + i, from + j;
  }

  lemma {:induction false} OneInside(w: seq<real>, lo: real, hi: real) returns (i: nat)
    requires CountIn(w, lo, hi) >= 1
    ensures i < |w| && lo <= w[i] <= hi
  {
    if lo <= w[0] <= hi {
      i := 0;
    } else {
      i := OneInside(w[1..], lo, hi);
      i := i + 1;
    }
  }

  lemma {:induction false} TwoInside(w: seq<real>, lo: real, hi: real) returns (i: nat, j: nat)
    requires CountIn(w, lo, hi) >= 2
    ensures i < j < |w| && lo <= w[i] <= hi && lo <= w[j] <= hi
  {
    if lo <= w[0] <= hi {
      i := 0;
      j := OneInside(w[1..], lo, hi);
      j := j + 1;
    } else {
      i, j := TwoInside(w[1..], lo, hi);
      i, j := i + 1, j + 1;
    }
  }

  /** Such a run on which a search of all the touches would have passed. */
  lemma ScatteredYetAgreeing(good: real, far: real)
    requires far > good + 1.0
    ensures var c := Config(3, 9, 0, 0.01);
            var touches := [good, far, far + 2.0, good, far + 4.0, far + 6.0, good, far + 8.0, far + 10.0];
            Check(c) == None && Agree(touches, c.samples, c.sampleRange) && Scattered(touches, c)
  {
    var touches := [good, far, far + 2.0, good, far + 4.0, far + 6.0, good, far + 8.0, far + 10.0];
    GoodTouches(touches, good);
    assert CountFrom(touches, good, 0.01) >= 3;
  }

  lemma GoodTouches(t: seq<real>, good: real)
    requires |t| == 9 && t[0] == good && t[3] == good && t[6] == good
    ensures CountIn(t, good, good + 0.01) >= 3
  {
    CountSplit(t, 3, good, good + 0.01);
    CountSplit(t[3..], 3, good, good + 0.01);
    assert t[..3][0] == good && t[3..][..3][0] == good && t[3..][3..][0] == good;
  }
}
