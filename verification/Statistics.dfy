/** Sorting, counting in an interval and the median: what the touch consensus and the drag classifier share. */
module Statistics {
  function Insert(v: real, s: seq<real>): seq<real> {
    if s == [] || v <= s[0] then [v] + s else [s[0]] + Insert(v, s[1..])
  }

  function Sorted(s: seq<real>): seq<real> {
    if s == [] then [] else Insert(s[0], Sorted(s[1..]))
  }

  predicate Ordered(s: seq<real>) {
    forall i, j | 0 <= i < j < |s| :: s[i] <= s[j]
  }

  /** How many values lie in [lo, hi]. */
  function CountIn(s: seq<real>, lo: real, hi: real): nat {
    if s == [] then 0 else (if lo <= s[0] <= hi then 1 else 0) + CountIn(s[1..], lo, hi)
  }

  /** The middle value in sorted order, or the mean of the two middle ones. */
  function Median(s: seq<real>): real
    requires s != []
  {
    SortedLength(s);
    var ordered, mid := Sorted(s), |s| / 2;
    if |s| % 2 == 1 then ordered[mid] else (ordered[mid - 1] + ordered[mid]) / 2.0
  }

  lemma {:induction false} InsertKeeps(v: real, s: seq<real>)
    requires Ordered(s)
    ensures |Insert(v, s)| == |s| + 1 && Ordered(Insert(v, s))
    ensures forall k | 0 <= k < |Insert(v, s)| :: Insert(v, s)[k] == v || exists m | 0 <= m < |s| :: s[m] == Insert(v, s)[k]
  {
    if s != [] && v > s[0] {
      InsertKeeps(v, s[1..]);
      var r := Insert(v, s[1..]);
      forall k | 0 <= k < |r|
        ensures s[0] <= r[k] && (r[k] == v || exists m | 0 <= m < |s| :: s[m] == r[k])
      {
        if r[k] != v {
          var m :| 0 <= m < |s[1..]| && s[1..][m] == r[k];
          assert s[m + 1] == r[k];
        }
      }
    }
  }

  lemma {:induction false} InsertCounts(v: real, s: seq<real>, lo: real, hi: real)
    ensures CountIn(Insert(v, s), lo, hi) == CountIn([v] + s, lo, hi)
    ensures |Insert(v, s)| == |s| + 1
  {
    assert ([v] + s)[1..] == s;
    if s != [] && v > s[0] {
      InsertCounts(v, s[1..], lo, hi);
      assert ([v] + s[1..])[1..] == s[1..];
      assert ([s[0]] + Insert(v, s[1..]))[1..] == Insert(v, s[1..]);
    }
  }

  lemma {:induction false} SortedLength(s: seq<real>)
    ensures |Sorted(s)| == |s|
  {
    if s != [] {
      SortedLength(s[1..]);
      InsertCounts(s[0], Sorted(s[1..]), 0.0, 0.0);
    }
  }

  lemma {:induction false} SortedIsOrdered(s: seq<real>)
    ensures Ordered(Sorted(s))
  {
    if s != [] {
      SortedIsOrdered(s[1..]);
      InsertKeeps(s[0], Sorted(s[1..]));
    }
  }

  /** Sorting keeps the number of values in every interval, so every value as often as before. */
  lemma {:induction false} SortedCounts(s: seq<real>, lo: real, hi: real)
    ensures CountIn(Sorted(s), lo, hi) == CountIn(s, lo, hi)
  {
    if s != [] {
      SortedCounts(s[1..], lo, hi);
      InsertCounts(s[0], Sorted(s[1..]), lo, hi);
      assert ([s[0]] + Sorted(s[1..]))[1..] == Sorted(s[1..]);
    }
  }

  lemma {:induction false} CountSplit(s: seq<real>, k: nat, lo: real, hi: real)
    requires k <= |s|
    ensures CountIn(s, lo, hi) == CountIn(s[..k], lo, hi) + CountIn(s[k..], lo, hi)
  {
    if k > 0 {
      CountSplit(s[1..], k - 1, lo, hi);
      assert s[..k][1..] == s[1..][..k - 1] && s[1..][k - 1..] == s[k..];
    } else {
      assert s[k..] == s;
    }
  }

  lemma {:induction false} CountBound(s: seq<real>, lo: real, hi: real)
    ensures CountIn(s, lo, hi) <= |s|
  {
    if s != [] { CountBound(s[1..], lo, hi); }
  }

  lemma {:induction false} CountAll(s: seq<real>, lo: real, hi: real)
    requires forall k | 0 <= k < |s| :: lo <= s[k] <= hi
    ensures CountIn(s, lo, hi) == |s|
  {
    if s != [] { CountAll(s[1..], lo, hi); }
  }

  lemma {:induction false} CountNone(s: seq<real>, lo: real, hi: real)
    requires forall k | 0 <= k < |s| :: s[k] < lo || s[k] > hi
    ensures CountIn(s, lo, hi) == 0
  {
    if s != [] { CountNone(s[1..], lo, hi); }
  }

  /** Wherever more than half the values lie, the median lies too. */
  lemma {:induction false} MedianFollowsTheMajority(s: seq<real>, lo: real, hi: real)
    requires s != [] && 2 * CountIn(s, lo, hi) > |s|
    ensures lo <= Median(s) <= hi
  {
    SortedLength(s);
    SortedIsOrdered(s);
    SortedCounts(s, lo, hi);
    var r, mid := Sorted(s), |s| / 2;
    if r[mid] > hi {
      TooManyAbove(r, lo, hi, mid);
    }
    if r[(|s| - 1) / 2] < lo {
      TooManyBelow(r, lo, hi, (|s| - 1) / 2);
    }
    if |s| % 2 == 1 {
      assert (|s| - 1) / 2 == mid;
    } else {
      assert (|s| - 1) / 2 == mid - 1;
      assert r[mid - 1] <= r[mid];
    }
  }

  lemma {:induction false} TooManyAbove(r: seq<real>, lo: real, hi: real, k: nat)
    requires Ordered(r) && k < |r| && r[k] > hi
    ensures CountIn(r, lo, hi) <= k
  {
    CountSplit(r, k, lo, hi);
    CountBound(r[..k], lo, hi);
    CountNone(r[k..], lo, hi);
  }

  lemma {:induction false} TooManyBelow(r: seq<real>, lo: real, hi: real, k: nat)
    requires Ordered(r) && k < |r| && r[k] < lo
    ensures CountIn(r, lo, hi) <= |r| - k - 1
  {
    CountSplit(r, k + 1, lo, hi);
    CountBound(r[k + 1..], lo, hi);
    CountNone(r[..k + 1], lo, hi);
  }

  // ----- the median is the middle -----

  /** How many values are at most v, or at least v. */
  function CountSide(s: seq<real>, v: real, atMost: bool): nat {
    if s == [] then 0 else (if (atMost && s[0] <= v) || (!atMost && s[0] >= v) then 1 else 0) + CountSide(s[1..], v, atMost)
  }

  lemma {:induction false} InsertSides(v: real, s: seq<real>, w: real, atMost: bool)
    ensures CountSide(Insert(v, s), w, atMost) == CountSide([v] + s, w, atMost)
  {
    assert ([v] + s)[1..] == s;
    if s != [] && v > s[0] {
      InsertSides(v, s[1..], w, atMost);
      assert ([v] + s[1..])[1..] == s[1..];
      assert ([s[0]] + Insert(v, s[1..]))[1..] == Insert(v, s[1..]);
    }
  }

  lemma {:induction false} SortedSides(s: seq<real>, w: real, atMost: bool)
    ensures CountSide(Sorted(s), w, atMost) == CountSide(s, w, atMost)
  {
    if s != [] {
      SortedSides(s[1..], w, atMost);
      InsertSides(s[0], Sorted(s[1..]), w, atMost);
      assert ([s[0]] + Sorted(s[1..]))[1..] == Sorted(s[1..]);
    }
  }

  /** In sorted order the value at k has k + 1 values at most it and |r| - k at least it. */
  lemma {:induction false} SidesAt(r: seq<real>, k: nat)
    requires Ordered(r) && k < |r|
    ensures CountSide(r, r[k], true) >= k + 1 && CountSide(r, r[k], false) >= |r| - k
  {
    if k > 0 {
      SidesAt(r[1..], k - 1);
    } else {
      AllAtLeast(r, r[0]);
    }
  }

  lemma {:induction false} AllAtLeast(r: seq<real>, v: real)
    requires forall k | 0 <= k < |r| :: r[k] >= v
    ensures CountSide(r, v, false) == |r|
  {
    if r != [] { AllAtLeast(r[1..], v); }
  }

  /** The median is the mean of the lower and the upper middle value, which are one for an odd count: the lower has half the
      values, rounded up, at most it and more than half at least it; the upper the other way round. */
  lemma {:induction false} MedianIsTheMiddle(s: seq<real>)
    requires s != []
    ensures exists a: real, b: real ::
              && Median(s) == (a + b) / 2.0 && a <= b
              && CountSide(s, a, true) >= (|s| + 1) / 2 && CountSide(s, a, false) >= |s| / 2 + 1
              && CountSide(s, b, true) >= |s| / 2 + 1 && CountSide(s, b, false) >= (|s| + 1) / 2
  {
    SortedLength(s);
    SortedIsOrdered(s);
    var r := Sorted(s);
    var i, j := (|s| - 1) / 2, |s| / 2;
    var a, b := r[i], r[j];
    SidesAt(r, i);
    SidesAt(r, j);
    SortedSides(s, a, true);
    SortedSides(s, a, false);
    SortedSides(s, b, true);
    SortedSides(s, b, false);
    hide Sorted, CountSide;
    assert Median(s) == (a + b) / 2.0;
  }
}
