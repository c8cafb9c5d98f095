/** Greedy furthest-point choice of the representative stops.  Distances are squared, as in `Geom`. */
module Representatives {
  import opened Geom
  import M = Matcher
  import opened Model

  datatype RepInput = RepInput(index: nat, xy: Point, offset: nat)

  /** The deterministic order: by offset, then by index. */
  predicate Before(a: RepInput, b: RepInput) {
    a.offset < b.offset || (a.offset == b.offset && a.index < b.index)
  }

  ghost predicate Earliest(pool: seq<RepInput>, c: RepInput) {
    c in pool && forall o | o in pool :: !Before(o, c)
  }

  ghost predicate Latest(pool: seq<RepInput>, c: RepInput) {
    c in pool && forall o | o in pool :: !Before(c, o)
  }

  /** The least squared distance from c to a chosen stop. */
  function Gap(chosen: seq<RepInput>, c: RepInput): real
    requires chosen != []
  {
    var d := Dist2(chosen[|chosen| - 1].xy, c.xy);
    if |chosen| == 1 then d else Min(Gap(chosen[..|chosen| - 1], c), d)
  }

  predicate Unchosen(chosen: seq<RepInput>, c: RepInput) {
    forall k | 0 <= k < |chosen| :: chosen[k].index != c.index
  }

  /** d and c are at least as good a pick as e and o: further away, or as far and not later. */
  predicate NoWorse(d: real, c: RepInput, e: real, o: RepInput) {
    e < d || (e == d && !Before(o, c))
  }

  ghost predicate IsPick(pool: seq<RepInput>, chosen: seq<RepInput>, c: RepInput)
    requires chosen != []
  {
    && c in pool && Unchosen(chosen, c)
    && forall o | o in pool && Unchosen(chosen, o) :: NoWorse(Gap(chosen, c), c, Gap(chosen, o), o)
  }

  /** The endpoints, as the first entries of the chosen list. */
  ghost predicate StartsWithEndpoints(pool: seq<RepInput>, chosen: seq<RepInput>, base: nat) {
    && 1 <= base <= 2 && base <= |chosen| && Earliest(pool, chosen[0])
    && if base == 2 then Latest(pool, chosen[1]) && chosen[1].index != chosen[0].index
       else exists hi :: Latest(pool, hi) && hi.index == chosen[0].index
  }

  ghost predicate AllPicks(pool: seq<RepInput>, chosen: seq<RepInput>, base: nat)
    requires 1 <= base
  {
    forall k | base <= k < |chosen| :: IsPick(pool, chosen[..k], chosen[k])
  }

  /** A finished greedy run: endpoints, then picks, until the cap is reached or nothing is left. */
  ghost predicate GreedyRun(pool: seq<RepInput>, cap: nat, chosen: seq<RepInput>, base: nat) {
    && StartsWithEndpoints(pool, chosen, base) && AllPicks(pool, chosen, base)
    && |chosen| <= (if cap > base then cap else base)
    && (|chosen| < cap ==> forall o | o in pool :: !Unchosen(chosen, o))
  }

  /** The sorted, deduplicated indices. */
  function SortedIndices(chosen: seq<RepInput>): (r: seq<nat>)
    ensures M.Ascending(r) && forall x :: x in r <==> exists k | 0 <= k < |chosen| :: chosen[k].index == x
  {
    IndicesFrom(chosen, |chosen|)
  }

  function IndicesFrom(chosen: seq<RepInput>, n: nat): (r: seq<nat>)
    requires n <= |chosen|
    ensures M.Ascending(r) && forall x :: x in r <==> exists k | 0 <= k < n :: chosen[k].index == x
  {
    hide M.Ascending;
    if n == 0 then
      M.AscendingNone();
      []
    else M.InsertAscending(chosen[n - 1].index, IndicesFrom(chosen, n - 1))
  }

  // ----- the algorithm -----

  /** What the algorithm returns: the indices of a finished greedy run, nothing for an empty pool or cap. */
  ghost predicate RepresentativesOf(pool: seq<RepInput>, cap: nat, out: seq<nat>) {
    if pool == [] || cap == 0 then out == []
    else exists chosen, base :: GreedyRun(pool, cap, chosen, base) && out == SortedIndices(chosen)
  }

  method Representatives(pool: seq<RepInput>, cap: nat) returns (out: seq<nat>)
    ensures RepresentativesOf(pool, cap, out)
  {
    hide IsPick, Earliest, Latest, NoWorse, Unchosen;
    if pool == [] || cap == 0 {
      return [];
    }
    var lo, hi := Endpoints(pool);
    var picked := [lo];
    if hi.index != lo.index {
      picked := picked + [hi];
    }
    ghost var base := |picked|;
    var exhausted := false;
    while |picked| < cap && !exhausted
      invariant StartsWithEndpoints(pool, picked, base) && AllPicks(pool, picked, base)
      invariant |picked| <= (if cap > base then cap else base)
      invariant exhausted ==> forall o | o in pool :: !Unchosen(picked, o)
      decreases cap - |picked|, !exhausted
    {
      var best := FurthestUnchosen(pool, picked);
      if best.Some? {
        OneMorePick(pool, picked, best.value, base);
        picked := picked + [best.value];
      } else {
        exhausted := true;
      }
    }
    out := SortedIndices(picked);
    assert GreedyRun(pool, cap, picked, base);
  }

  lemma OneMorePick(pool: seq<RepInput>, chosen: seq<RepInput>, c: RepInput, base: nat)
    requires StartsWithEndpoints(pool, chosen, base) && AllPicks(pool, chosen, base) && IsPick(pool, chosen, c)
    ensures StartsWithEndpoints(pool, chosen + [c], base) && AllPicks(pool, chosen + [c], base)
  {
    hide IsPick, Earliest, Latest;
    forall k | base <= k < |chosen| + 1
      ensures IsPick(pool, (chosen + [c])[..k], (chosen + [c])[k])
    {
      assert (chosen + [c])[..k] == chosen[..k];
      if k == |chosen| { assert chosen[..k] == chosen; }
    }
  }

  method Endpoints(pool: seq<RepInput>) returns (lo: RepInput, hi: RepInput)
    requires pool != []
    ensures Earliest(pool, lo) && Latest(pool, hi)
  {
    lo, hi := pool[0], pool[0];
    for k := 1 to |pool|
      invariant lo in pool && hi in pool
      invariant forall j | 0 <= j < k :: !Before(pool[j], lo) && !Before(hi, pool[j])
    {
      if Before(pool[k], lo) { lo := pool[k]; }
      if !Before(pool[k], hi) { hi := pool[k]; }
    }
  }

  method FurthestUnchosen(pool: seq<RepInput>, chosen: seq<RepInput>) returns (r: Option<RepInput>)
    requires chosen != []
    ensures r.Some? ==> IsPick(pool, chosen, r.value)
    ensures r.None? ==> forall o | o in pool :: !Unchosen(chosen, o)
  {
    hide Gap, Unchosen;
    r := None;
    for k := 0 to |pool|
      invariant r.Some? ==> r.value in pool && Unchosen(chosen, r.value)
      invariant r.None? ==> forall j | 0 <= j < k :: !Unchosen(chosen, pool[j])
      invariant r.Some? ==> forall j | 0 <= j < k && Unchosen(chosen, pool[j]) ::
                              NoWorse(Gap(chosen, r.value), r.value, Gap(chosen, pool[j]), pool[j])
    {
      var c := pool[k];
      if Unchosen(chosen, c) {
        var d := Gap(chosen, c);
        if r.None? || d > Gap(chosen, r.value) || (d == Gap(chosen, r.value) && Before(c, r.value)) {
          r := Some(c);
        }
      }
    }
  }

  // ----- what a run means -----

  lemma {:induction false} GapIsLeast(chosen: seq<RepInput>, c: RepInput)
    requires chosen != []
    ensures forall k | 0 <= k < |chosen| :: Gap(chosen, c) <= Dist2(chosen[k].xy, c.xy)
    ensures exists k | 0 <= k < |chosen| :: Gap(chosen, c) == Dist2(chosen[k].xy, c.xy)
  {
    hide Dist2;
    var last := |chosen| - 1;
    if last > 0 {
      GapIsLeast(chosen[..last], c);
      var k :| 0 <= k < last && Gap(chosen[..last], c) == Dist2(chosen[..last][k].xy, c.xy);
      assert chosen[k] == chosen[..last][k];
      assert Dist2(chosen[last].xy, c.xy) == Gap(chosen, c) || Dist2(chosen[k].xy, c.xy) == Gap(chosen, c);
      forall j | 0 <= j < |chosen|
        ensures Gap(chosen, c) <= Dist2(chosen[j].xy, c.xy)
      {
        if j < last { assert chosen[..last][j] == chosen[j]; }
      }
    } else {
      assert Gap(chosen, c) == Dist2(chosen[0].xy, c.xy);
    }
  }

  /** Choosing more never widens a gap. */
  lemma {:induction false} GapShrinks(chosen: seq<RepInput>, n: nat, c: RepInput)
    requires 0 < n <= |chosen|
    ensures Gap(chosen, c) <= Gap(chosen[..n], c)
  {
    hide Dist2;
    if n == |chosen| {
      assert chosen[..n] == chosen;
    } else {
      var head := chosen[..|chosen| - 1];
      GapShrinks(head, n, c);
      assert head[..n] == chosen[..n];
    }
  }

  lemma UnchosenEarlier(chosen: seq<RepInput>, n: nat, c: RepInput)
    requires n <= |chosen| && Unchosen(chosen, c)
    ensures Unchosen(chosen[..n], c)
  {
  }

  /** The last pick's gap: the resolution of the run. */
  function LastGap(chosen: seq<RepInput>): real
    requires |chosen| >= 2
  {
    Gap(chosen[..|chosen| - 1], chosen[|chosen| - 1])
  }

  /** Covering: once picks were made, every unchosen stop is within the last pick's gap of a chosen one. */
  lemma UnchosenIsNear(pool: seq<RepInput>, cap: nat, chosen: seq<RepInput>, base: nat, c: RepInput) returns (k: nat)
    requires GreedyRun(pool, cap, chosen, base) && |chosen| > base && c in pool && Unchosen(chosen, c)
    ensures k < |chosen| && Dist2(chosen[k].xy, c.xy) <= LastGap(chosen)
  {
    hide Gap, Dist2, Earliest, Latest, Before;
    var last := |chosen| - 1;
    UnchosenEarlier(chosen, last, c);
    assert IsPick(pool, chosen[..last], chosen[last]);
    GapShrinks(chosen, last, c);
    GapIsLeast(chosen, c);
    k :| 0 <= k < |chosen| && Gap(chosen, c) == Dist2(chosen[k].xy, c.xy);
  }

  lemma PicksAreUnchosen(pool: seq<RepInput>, chosen: seq<RepInput>, base: nat)
    requires StartsWithEndpoints(pool, chosen, base) && AllPicks(pool, chosen, base)
    ensures forall i, j | 0 <= i < j < |chosen| :: chosen[i].index != chosen[j].index
    ensures forall k | 0 <= k < |chosen| :: chosen[k] in pool
  {
    hide Gap, NoWorse, Before;
    forall i, j | 0 <= i < j < |chosen|
      ensures chosen[i].index != chosen[j].index
    {
      if j >= base {
        assert IsPick(pool, chosen[..j], chosen[j]);
        assert chosen[..j][i] == chosen[i];
      }
    }
    forall k | 0 <= k < |chosen|
      ensures chosen[k] in pool
    {
      if k >= base { assert IsPick(pool, chosen[..k], chosen[k]); }
    }
  }

  /** Packing: two chosen stops that are not both endpoints are at least the last pick's gap apart. */
  lemma ChosenAreApart(pool: seq<RepInput>, cap: nat, chosen: seq<RepInput>, base: nat, i: nat, j: nat)
    requires GreedyRun(pool, cap, chosen, base) && |chosen| > base && i < j < |chosen| && j >= base
    ensures Dist2(chosen[i].xy, chosen[j].xy) >= LastGap(chosen)
  {
    hide Gap, Dist2, IsPick, Earliest, Latest, Before;
    GapIsLeast(chosen[..j], chosen[j]);
    assert chosen[..j][i] == chosen[i];
    if j < |chosen| - 1 { GapsShrink(pool, chosen, base, j); }
  }

  /** Later picks have no larger gaps: the last one's is the least. */
  lemma GapsShrink(pool: seq<RepInput>, chosen: seq<RepInput>, base: nat, j: nat)
    requires StartsWithEndpoints(pool, chosen, base) && AllPicks(pool, chosen, base) && base <= j < |chosen| - 1
    ensures Gap(chosen[..j], chosen[j]) >= LastGap(chosen)
  {
    hide Gap, Dist2, Earliest, Latest, Before;
    var last := |chosen| - 1;
    PicksAreUnchosen(pool, chosen, base);
    assert IsPick(pool, chosen[..j], chosen[j]);
    assert Unchosen(chosen[..j], chosen[last]);
    assert chosen[..last][..j] == chosen[..j];
    GapShrinks(chosen[..last], j, chosen[last]);
  }

  ghost function Indices(pool: seq<RepInput>): set<nat> {
    set c | c in pool :: c.index
  }

  /** One index names one stop. */
  ghost predicate DistinctIndices(pool: seq<RepInput>) {
    forall a, b | a in pool && b in pool && a.index == b.index :: a == b
  }

  lemma ChosenCount(pool: seq<RepInput>, chosen: seq<RepInput>, out: seq<nat>)
    requires forall i, j | 0 <= i < j < |chosen| :: chosen[i].index != chosen[j].index
    requires forall k | 0 <= k < |chosen| :: chosen[k] in pool
    requires out == SortedIndices(chosen)
    ensures |out| == |chosen| <= |Indices(pool)|
    ensures (forall o | o in pool :: !Unchosen(chosen, o)) ==> |chosen| == |Indices(pool)|
  {
    hide SortedIndices, M.Ascending;
    var named := set k | 0 <= k < |chosen| :: chosen[k].index;
    DistinctSize(chosen, |chosen|, named);
    M.AscendingCount(out, named);
    assert named <= Indices(pool);
    SubsetSize(named, Indices(pool));
    if forall o | o in pool :: !Unchosen(chosen, o) {
      assert named == Indices(pool);
    }
  }

  lemma SubsetSize(a: set<nat>, b: set<nat>)
    requires a <= b
    ensures |a| <= |b|
  {
    if x :| x in a { SubsetSize(a - {x}, b - {x}); }
  }

  lemma {:induction false} DistinctSize(chosen: seq<RepInput>, n: nat, named: set<nat>)
    requires n <= |chosen| && forall i, j | 0 <= i < j < n :: chosen[i].index != chosen[j].index
    requires forall x :: x in named <==> exists k | 0 <= k < n :: chosen[k].index == x
    ensures |named| == n
  {
    if n > 0 {
      var x := chosen[n - 1].index;
      assert x in named;
      forall y
        ensures y in named - {x} <==> exists k | 0 <= k < n - 1 :: chosen[k].index == y
      {
        if y in named - {x} {
          var k :| 0 <= k < n && chosen[k].index == y;
        }
      }
      DistinctSize(chosen, n - 1, named - {x});
    } else {
      assert named == {};
    }
  }

  /** With a cap of at least two, exactly min(cap, n) indices come out, among them the earliest and latest stops'. */
  lemma RepresentativesAreTheCap(pool: seq<RepInput>, cap: nat, chosen: seq<RepInput>, base: nat, lo: RepInput, hi: RepInput)
    requires GreedyRun(pool, cap, chosen, base) && cap >= 2 && Earliest(pool, lo) && Latest(pool, hi) && DistinctIndices(pool)
    ensures var out := SortedIndices(chosen);
            && |out| == (if cap <= |Indices(pool)| then cap else |Indices(pool)|)
            && lo.index in out && hi.index in out
            && forall x | x in out :: x in Indices(pool)
  {
    hide SortedIndices, IsPick;
    PicksAreUnchosen(pool, chosen, base);
    var out := SortedIndices(chosen);
    ChosenCount(pool, chosen, out);
    assert chosen[0] in pool;
    assert lo == chosen[0];
    if base == 2 { assert chosen[1] in pool; assert hi == chosen[1]; }
  }

  /** Below two the cap is not kept: a cap of one still returns both endpoints. */
  lemma CapOfOneReturnsBothEndpoints(pool: seq<RepInput>, chosen: seq<RepInput>, base: nat, lo: RepInput, hi: RepInput)
    requires GreedyRun(pool, 1, chosen, base) && Earliest(pool, lo) && Latest(pool, hi) && DistinctIndices(pool)
    ensures |SortedIndices(chosen)| == if lo.index == hi.index then 1 else 2
  {
    hide SortedIndices, IsPick;
    PicksAreUnchosen(pool, chosen, base);
    ChosenCount(pool, chosen, SortedIndices(chosen));
    assert chosen[0] in pool;
    assert lo == chosen[0];
    if base == 2 { assert hi == chosen[1]; }
  }

  // ----- the order of the input does not matter -----

  /** Stops in one order or another: the run, and so the result, is the same. */
  lemma OrderOfInputIsIrrelevant(p: seq<RepInput>, q: seq<RepInput>, cap: nat, a: seq<RepInput>, b: seq<RepInput>, m: nat, n: nat)
    requires DistinctIndices(p) && forall c :: c in p <==> c in q
    requires GreedyRun(p, cap, a, m) && GreedyRun(q, cap, b, n)
    ensures a == b && SortedIndices(a) == SortedIndices(b)
  {
    hide SortedIndices;
    SameEndpoints(p, q, a, b, m, n);
    hide IsPick, Earliest, Latest;
    PicksAreUnchosen(p, a, m);
    PicksAreUnchosen(q, b, n);
    var k := if |a| < |b| then |a| else |b|;
    SamePicks(p, q, a, b, m, k);
    SameLength(p, q, cap, a, b, m, k);
    SameLength(q, p, cap, b, a, m, k);
    assert a[..|a|] == a && b[..|b|] == b;
  }

  lemma SameLength(p: seq<RepInput>, q: seq<RepInput>, cap: nat, a: seq<RepInput>, b: seq<RepInput>, base: nat, k: nat)
    requires forall c :: c in p <==> c in q
    requires GreedyRun(p, cap, a, base) && GreedyRun(q, cap, b, base)
    requires k <= |a| && k <= |b| && b[..k] == a[..k] && k == if |a| < |b| then |a| else |b|
    requires forall i, j | 0 <= i < j < |b| :: b[i].index != b[j].index
    requires forall i | 0 <= i < |b| :: b[i] in q
    ensures |b| <= |a|
  {
    if k < |b| {
      assert forall i | 0 <= i < k :: b[..k][i] == b[i] && a[..k][i] == a[i];
      assert b[k] in q;
      assert k == |a| < |b| ==> Unchosen(a, b[k]);
    }
  }

  lemma SameEndpoints(p: seq<RepInput>, q: seq<RepInput>, a: seq<RepInput>, b: seq<RepInput>, m: nat, n: nat)
    requires DistinctIndices(p) && forall c :: c in p <==> c in q
    requires StartsWithEndpoints(p, a, m) && StartsWithEndpoints(q, b, n)
    ensures m == n && a[..m] == b[..m]
  {
    assert a[0] == b[0];
    if m == 2 && n == 2 { assert a[1] == b[1]; }
  }

  lemma {:induction false} SamePicks(p: seq<RepInput>, q: seq<RepInput>, a: seq<RepInput>, b: seq<RepInput>, base: nat, k: nat)
    requires DistinctIndices(p) && forall c :: c in p <==> c in q
    requires 1 <= base <= k <= |a| && k <= |b| && AllPicks(p, a, base) && AllPicks(q, b, base) && a[..base] == b[..base]
    ensures a[..k] == b[..k]
  {
    hide IsPick;
    if k > base {
      SamePicks(p, q, a, b, base, k - 1);
      OnePick(p, q, a[..k - 1], a[k - 1], b[k - 1]);
      assert a[..k] == a[..k - 1] + [a[k - 1]] && b[..k] == b[..k - 1] + [b[k - 1]];
    }
  }

  lemma OnePick(p: seq<RepInput>, q: seq<RepInput>, chosen: seq<RepInput>, c: RepInput, d: RepInput)
    requires DistinctIndices(p) && forall x :: x in p <==> x in q
    requires chosen != [] && IsPick(p, chosen, c) && IsPick(q, chosen, d)
    ensures c == d
  {
    hide Gap, Unchosen;
  }
}
