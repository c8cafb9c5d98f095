/** The resume preview: the stops an operator may hover over, where each would resume, and the anchors of the
    first/mid/last policies.  Moves are named by their position in the model. */
module Preview {
  import opened Geom
  import opened Model
  import opened Matcher
  import R = Representatives

  const MAX_REPS: nat := 7

  /** The cancelled-object test, when there is one. */
  type Oracle = Option<string -> bool>

  datatype Stop = Stop(index: nat, offset: nat, resume: nat, xy: Point, z: real, layer: Option<nat>,
                       feature: FeatureClass, onInfill: bool, isCandidate: bool)

  datatype Bounds = Bounds(maxLayers: nat, maxStops: nat)

  datatype Refusal = TooManyLayers(distinct: nat, limit: nat) | TooManyStops(count: nat, limit: nat)

  datatype PreviewSet = PreviewSet(stops: seq<Stop>, representatives: seq<nat>, firstIndex: nat, midIndex: nat, lastIndex: nat)

  datatype PreviewOutcome = InvalidEvidence(field: Invalid) | TooWide(refusal: Refusal) | NoStops | Preview(set_: PreviewSet)

  predicate Trusted(mv: SimMove) {
    mv.startKnown.x && mv.startKnown.y && mv.startKnown.z
  }

  predicate Cancelled(mv: SimMove, oracle: Oracle) {
    oracle.Some? && mv.part.Some? && oracle.value(mv.part.value)
  }

  predicate KeptDeposition(mv: SimMove, oracle: Oracle) {
    mv.kind == Extrusion && !Cancelled(mv, oracle)
  }

  /** The first kept deposition whose line starts at or after `offset`, searching from `from`; the length when none. */
  function NextKept(moves: seq<SimMove>, offset: nat, oracle: Oracle, from: nat): (k: nat)
    requires from <= |moves|
    ensures from <= k <= |moves|
    ensures k < |moves| ==> KeptDeposition(moves[k], oracle) && moves[k].span.start >= offset
    ensures forall j | from <= j < k :: !(KeptDeposition(moves[j], oracle) && moves[j].span.start >= offset)
    decreases |moves| - from
  {
    if from == |moves| || (KeptDeposition(moves[from], oracle) && moves[from].span.start >= offset) then from
    else NextKept(moves, offset, oracle, from + 1)
  }

  /** Without an oracle it is the resolver's own lookup. */
  lemma {:induction false} NoOracleIsTheResolver(moves: seq<SimMove>, offset: nat, from: nat)
    requires from <= |moves|
    ensures var k := NextKept(moves, offset, None, from);
            FirstDepositionAtOrAfter(moves[from..], offset) == if k < |moves| then Some(moves[k]) else None
    decreases |moves| - from
  {
    if from < |moves| {
      NoOracleIsTheResolver(moves, offset, from + 1);
      assert moves[from..][1..] == moves[from + 1..];
    }
  }

  // ----- stops -----

  predicate OnLine(path: TypedPath, start: nat) {
    exists s | 0 <= s < |path.segments| :: path.segments[s].span.start == start
  }

  /** The class of the first path with a segment of the line, `Other` when none has one. */
  function LineClass(paths: seq<TypedPath>, start: nat): (r: FeatureClass)
    ensures (forall p | 0 <= p < |paths| :: !OnLine(paths[p], start)) ==> r == Other
    ensures forall p | 0 <= p < |paths| && OnLine(paths[p], start) && (forall q | 0 <= q < p :: !OnLine(paths[q], start)) :: r == paths[p].class_
  {
    if paths == [] then Other
    else if OnLine(paths[0], start) then paths[0].class_
    else
      assert forall p | 0 < p < |paths| :: paths[p] == paths[1..][p - 1];
      LineClass(paths[1..], start)
  }

  function FeatureOf(m: Model, mv: SimMove): FeatureClass {
    if mv.layer.Some? && mv.layer.value < |m.layers| then LineClass(m.layers[mv.layer.value].paths, mv.span.start) else Other
  }

  predicate InDomain(mv: SimMove, w: ByteWindow) {
    mv.kind == Extrusion && InWindow(mv, w)
  }

  /** The in-window depositing moves, in order. */
  ghost predicate IsDomain(moves: seq<SimMove>, w: ByteWindow, domain: seq<nat>) {
    Ascending(domain) && forall k: nat :: k in domain <==> k < |moves| && InDomain(moves[k], w)
  }

  /** Trusted, not cancelled, and the next kept deposition, when there is one, is trusted too. */
  predicate Offerable(moves: seq<SimMove>, mv: SimMove, oracle: Oracle) {
    && Trusted(mv) && !Cancelled(mv, oracle)
    && var next := NextKept(moves, mv.span.end, oracle, 0);
       next < |moves| ==> Trusted(moves[next])
  }

  function ResumeOf(moves: seq<SimMove>, mv: SimMove, oracle: Oracle): nat {
    var next := NextKept(moves, mv.span.end, oracle, 0);
    if next < |moves| then moves[next].span.start else mv.span.end
  }

  function StopOf(m: Model, mv: SimMove, position: nat, lines: set<nat>, oracle: Oracle): Stop {
    var feature := FeatureOf(m, mv);
    Stop(if position > U32_MAX then U32_MAX else position, mv.span.start, ResumeOf(m.moves, mv, oracle),
         Point(mv.start.x, mv.start.y), mv.start.z, mv.layer, feature,
         feature == InternalInfill || feature == SolidInfill, mv.span.start in lines)
  }

  /** One stop for exactly the offerable moves of the domain, in order; src says which move each came from. */
  ghost predicate StopsAre(m: Model, domain: seq<nat>, lines: set<nat>, oracle: Oracle, stops: seq<Stop>, src: seq<nat>) {
    && |src| == |stops| && Ascending(src)
    && (forall k | 0 <= k < |src| :: src[k] in domain && src[k] < |m.moves| && Offerable(m.moves, m.moves[src[k]], oracle))
    && (forall k | 0 <= k < |src| :: stops[k] == StopOf(m, m.moves[src[k]], k, lines, oracle))
    && (forall d | d in domain && d < |m.moves| && Offerable(m.moves, m.moves[d], oracle) :: d in src)
  }

  lemma AscendingBound(s: seq<nat>, n: nat)
    requires Ascending(s) && n < |s|
    ensures forall x | x in s[..n] :: x < s[n]
  {
  }

  method BuildStops(m: Model, domain: seq<nat>, lines: set<nat>, oracle: Oracle) returns (stops: seq<Stop>)
    requires Ascending(domain) && forall k | k in domain :: k < |m.moves|
    ensures exists src: seq<nat> :: StopsAre(m, domain, lines, oracle, stops, src)
  {
    hide Offerable, StopOf, Ascending;
    stops := [];
    ghost var src: seq<nat> := [];
    AscendingNone();
    for i := 0 to |domain|
      invariant StopsAre(m, domain[..i], lines, oracle, stops, src)
      invariant forall x | x in src :: x in domain[..i]
    {
      var d := domain[i];
      assert d in domain;
      assert domain[..i + 1] == domain[..i] + [d];
      AscendingBound(domain, i);
      if Offerable(m.moves, m.moves[d], oracle) {
        AscendingAppend(src, d);
        stops := stops + [StopOf(m, m.moves[d], |stops|, lines, oracle)];
        src := src + [d];
      }
    }
    assert domain[..|domain|] == domain;
  }

  lemma AscendingAppend(s: seq<nat>, v: nat)
    requires Ascending(s) && forall x | x in s :: x < v
    ensures Ascending(s + [v])
  {
    assert forall k | 0 <= k < |s| :: s[k] in s;
  }

  /** The move names a part, and the oracle has it cancelled. */
  ghost predicate OfCancelledPart(mv: SimMove, oracle: Oracle) {
    exists name, cancelled :: mv.part == Some(name) && oracle == Some(cancelled) && cancelled(name)
  }

  lemma CancelledIsOfCancelledPart(oracle: Oracle)
    ensures forall mv :: Cancelled(mv, oracle) <==> OfCancelledPart(mv, oracle)
  {
    forall mv
      ensures Cancelled(mv, oracle) <==> OfCancelledPart(mv, oracle)
    {
      if Cancelled(mv, oracle) { assert mv.part == Some(mv.part.value) && oracle == Some(oracle.value); }
    }
  }

  /** Every stop is trusted and not cancelled, and resumes at the next kept deposition, which is trusted, or at its
      own line end when none is left. */
  lemma EveryStopIsSafe(m: Model, w: ByteWindow, domain: seq<nat>, lines: set<nat>, oracle: Oracle, stops: seq<Stop>, src: seq<nat>, k: nat)
    requires IsDomain(m.moves, w, domain) && StopsAre(m, domain, lines, oracle, stops, src) && k < |stops|
    ensures src[k] < |m.moves|
    ensures var mv := m.moves[src[k]];
            && mv.kind == Extrusion && mv.span.end > w.start && (w.end.Some? ==> mv.span.start < w.end.value)
            && mv.startKnown.x && mv.startKnown.y && mv.startKnown.z
            && !OfCancelledPart(mv, oracle) && stops[k].offset == mv.span.start
            && stops[k].xy == Point(mv.start.x, mv.start.y) && stops[k].z == mv.start.z
            && (stops[k].isCandidate <==> mv.span.start in lines)
            && stops[k].layer == mv.layer
            && stops[k].feature == (if mv.layer.Some? && mv.layer.value < |m.layers| then LineClass(m.layers[mv.layer.value].paths, mv.span.start) else Other)
            && (stops[k].onInfill <==> stops[k].feature == InternalInfill || stops[k].feature == SolidInfill)
            && ((exists t | 0 <= t < |m.moves| ::
                   && m.moves[t].kind == Extrusion && m.moves[t].span.start >= mv.span.end && !OfCancelledPart(m.moves[t], oracle)
                   && m.moves[t].startKnown.x && m.moves[t].startKnown.y && m.moves[t].startKnown.z
                   && stops[k].resume == m.moves[t].span.start
                   && forall j | 0 <= j < t && m.moves[j].kind == Extrusion && m.moves[j].span.start >= mv.span.end :: OfCancelledPart(m.moves[j], oracle))
                || (stops[k].resume == mv.span.end
                    && forall j | 0 <= j < |m.moves| && m.moves[j].kind == Extrusion && m.moves[j].span.start >= mv.span.end ::
                         OfCancelledPart(m.moves[j], oracle)))
  {
    assert src[k] in domain;
    assert Offerable(m.moves, m.moves[src[k]], oracle);
    CancelledIsOfCancelledPart(oracle);
    hide LineClass, Cancelled, OfCancelledPart;
    var t := NextKept(m.moves, m.moves[src[k]].span.end, oracle, 0);
  }

  /** Lines follow each other in the file; moves of one line share its span. */
  ghost predicate FileOrder(moves: seq<SimMove>) {
    && (forall i | 0 <= i < |moves| :: moves[i].span.start < moves[i].span.end)
    && (forall i, j | 0 <= i < j < |moves| :: moves[i].span == moves[j].span || moves[i].span.end <= moves[j].span.start)
  }

  /** Nudging forward never resumes earlier, and no resume repeats its stop's own line. */
  lemma ResumesAdvance(m: Model, w: ByteWindow, domain: seq<nat>, lines: set<nat>, oracle: Oracle, stops: seq<Stop>, src: seq<nat>, i: nat, j: nat)
    requires IsDomain(m.moves, w, domain) && StopsAre(m, domain, lines, oracle, stops, src) && FileOrder(m.moves)
    requires i <= j < |stops|
    ensures stops[i].offset < stops[i].resume <= stops[j].resume && stops[i].offset <= stops[j].offset
  {
    hide Trusted, Cancelled, InWindow, FeatureOf;
    var a, b := m.moves[src[i]], m.moves[src[j]];
    assert src[i] in domain && src[j] in domain;
    assert i < j ==> src[i] < src[j];
    assert a.span == b.span || a.span.end <= b.span.start;
    var s, t := NextKept(m.moves, a.span.end, oracle, 0), NextKept(m.moves, b.span.end, oracle, 0);
    assert s <= t;
    if s < t && s < |m.moves| {
      assert KeptDeposition(b, oracle);
    }
  }

  // ----- anchors -----

  function StopResumingAt(stops: seq<Stop>, resume: nat, n: nat): (r: Option<nat>)
    requires n <= |stops|
    ensures r.Some? ==> r.value < n && stops[r.value].resume == resume && forall k | r.value < k < n :: stops[k].resume != resume
    ensures r.None? ==> forall k | 0 <= k < n :: stops[k].resume != resume
  {
    if n == 0 then None
    else if stops[n - 1].resume == resume then Some(n - 1)
    else StopResumingAt(stops, resume, n - 1)
  }

  function StopAtOffset(stops: seq<Stop>, offset: nat, n: nat): (r: Option<nat>)
    requires n <= |stops|
    ensures r.Some? ==> r.value < n && stops[r.value].offset == offset && forall k | r.value < k < n :: stops[k].offset != offset
    ensures r.None? ==> forall k | 0 <= k < n :: stops[k].offset != offset
  {
    if n == 0 then None
    else if stops[n - 1].offset == offset then Some(n - 1)
    else StopAtOffset(stops, offset, n - 1)
  }

  predicate KeyAtMost(a: Stop, b: Stop) {
    a.offset < b.offset || (a.offset == b.offset && a.index <= b.index)
  }

  /** The last stop at or before `offset`, by (offset, index). */
  function LastAtOrBefore(stops: seq<Stop>, offset: nat, n: nat): (r: Option<nat>)
    requires n <= |stops|
    ensures r.Some? ==> r.value < n && stops[r.value].offset <= offset &&
                        forall k | 0 <= k < n && stops[k].offset <= offset :: KeyAtMost(stops[k], stops[r.value])
    ensures r.None? ==> forall k | 0 <= k < n :: stops[k].offset > offset
  {
    if n == 0 then None
    else
      var r := LastAtOrBefore(stops, offset, n - 1);
      if stops[n - 1].offset <= offset && (r.None? || KeyAtMost(stops[r.value], stops[n - 1])) then Some(n - 1) else r
  }

  /** The last stop at or before `offset`, the first stop when there is none. */
  function NearestAtOrBefore(stops: seq<Stop>, offset: nat): (k: nat)
    requires stops != []
    ensures k < |stops|
    ensures stops[k].offset <= offset ==> forall j | 0 <= j < |stops| && stops[j].offset <= offset :: KeyAtMost(stops[j], stops[k])
    ensures stops[k].offset > offset ==> k == 0 && forall j | 0 <= j < |stops| :: stops[j].offset > offset
  {
    var r := LastAtOrBefore(stops, offset, |stops|);
    if r.Some? then r.value else 0
  }

  /** The lower median position. */
  function MedianIndex(len: nat): (k: nat)
    requires len > 0
    ensures k < len && k <= len - 1 - k <= k + 1
  {
    (len - 1) / 2
  }

  /** The stop of a first or mid anchor: the last chord on the line, or the nearest stop before it. */
  function LineAnchor(stops: seq<Stop>, line: nat): (k: nat)
    requires stops != []
    ensures k < |stops|
    ensures (exists j | 0 <= j < |stops| :: stops[j].offset == line) ==>
              stops[k].offset == line && forall j | k < j < |stops| :: stops[j].offset != line
    ensures (forall j | 0 <= j < |stops| :: stops[j].offset != line) ==> k == NearestAtOrBefore(stops, line)
  {
    var at := StopAtOffset(stops, line, |stops|);
    if at.Some? then at.value else NearestAtOrBefore(stops, line)
  }

  /** The stop of the last anchor: one that resumes where the resolver would from the line, else one on that resume line,
      else the nearest stop before the line. */
  function LastAnchor(m: Model, stops: seq<Stop>, line: nat, oracle: Oracle): (k: nat)
    requires stops != []
    ensures k < |stops|
  {
    var t := NextKept(m.moves, line, oracle, 0);
    var resuming := if t < |m.moves| && Trusted(m.moves[t]) then StopResumingAt(stops, m.moves[t].span.start, |stops|) else None;
    var atTarget := if t < |m.moves| && Trusted(m.moves[t]) then StopAtOffset(stops, m.moves[t].span.start, |stops|) else None;
    if resuming.Some? then resuming.value else if atTarget.Some? then atTarget.value else NearestAtOrBefore(stops, line)
  }

  /** With no trusted target, or no stop that resumes at it or lies on its line, the last anchor is the nearest stop before. */
  lemma {:induction false} LastAnchorOtherwise(m: Model, stops: seq<Stop>, line: nat, oracle: Oracle)
    requires stops != []
    requires var t := NextKept(m.moves, line, oracle, 0);
             || t == |m.moves| || !Trusted(m.moves[t])
             || forall k | 0 <= k < |stops| :: stops[k].resume != m.moves[t].span.start && stops[k].offset != m.moves[t].span.start
    ensures LastAnchor(m, stops, line, oracle) == NearestAtOrBefore(stops, line)
  {
    hide NextKept, Trusted, KeptDeposition, StopAtOffset, StopResumingAt, NearestAtOrBefore;
  }

  // ----- the lines the policies anchor on -----

  predicate Least(lines: set<nat>, line: nat) {
    line in lines && forall l | l in lines :: line <= l
  }

  predicate Greatest(lines: set<nat>, line: nat) {
    line in lines && forall l | l in lines :: l <= line
  }

  /** As many lines before it as after it, or one fewer. */
  predicate Middle(lines: set<nat>, line: nat) {
    line in lines && |LinesBefore(lines, line)| <= |LinesAfter(lines, line)| <= |LinesBefore(lines, line)| + 1
  }

  function LinesBefore(lines: set<nat>, line: nat): set<nat> {
    set l | l in lines && l < line
  }

  function LinesAfter(lines: set<nat>, line: nat): set<nat> {
    set l | l in lines && l > line
  }

  /** The ascending offsets hold the least line first, the greatest last and the middle one at the median index. */
  lemma OffsetsHoldTheLines(offsets: seq<nat>, lines: set<nat>)
    requires Ascending(offsets) && offsets != [] && forall x :: x in offsets <==> x in lines
    ensures Least(lines, offsets[0]) && Greatest(lines, offsets[|offsets| - 1]) && Middle(lines, offsets[MedianIndex(|offsets|)])
  {
    var k := MedianIndex(|offsets|);
    assert offsets[0] in offsets && offsets[k] in offsets && offsets[|offsets| - 1] in offsets;
    AscendingPart(offsets, 0, k, LinesBefore(lines, offsets[k]));
    AscendingPart(offsets, k + 1, |offsets|, LinesAfter(lines, offsets[k]));
  }

  lemma AscendingPart(offsets: seq<nat>, from: nat, to: nat, part: set<nat>)
    requires Ascending(offsets) && from <= to <= |offsets|
    requires forall x :: x in part <==> exists i | from <= i < to :: offsets[i] == x
    ensures |part| == to - from
  {
    var s := offsets[from..to];
    forall x
      ensures x in s <==> x in part
    {
      if i :| from <= i < to && offsets[i] == x {
        assert s[i - from] == x;
      }
    }
    AscendingCount(s, part);
  }

  /** p's line is the last kept deposition line before t's. */
  predicate JustBefore(moves: seq<SimMove>, p: nat, t: nat, oracle: Oracle)
    requires p < |moves| && t < |moves|
  {
    && KeptDeposition(moves[p], oracle) && moves[p].span.start < moves[t].span.start
    && forall q | 0 <= q < |moves| && KeptDeposition(moves[q], oracle) ::
         !(moves[p].span.start < moves[q].span.start < moves[t].span.start)
  }

  lemma {:induction false} JustBeforeResumesThere(moves: seq<SimMove>, base: nat, p: nat, t: nat, oracle: Oracle)
    requires FileOrder(moves) && p < |moves| && t == NextKept(moves, base, oracle, 0) < |moves| && JustBefore(moves, p, t, oracle)
    ensures NextKept(moves, moves[p].span.end, oracle, 0) == t
  {
    hide KeptDeposition;
    var q := NextKept(moves, moves[p].span.end, oracle, 0);
    assert moves[p].span != moves[t].span;
    assert p < t && moves[p].span.end <= moves[t].span.start;
    assert q <= t;
    assert moves[q].span == moves[t].span;
  }

  lemma ResumingThereIsJustBefore(moves: seq<SimMove>, p: nat, t: nat, oracle: Oracle)
    requires FileOrder(moves) && p < |moves| && t < |moves| && KeptDeposition(moves[p], oracle) && KeptDeposition(moves[t], oracle)
    requires ResumeOf(moves, moves[p], oracle) == moves[t].span.start
    ensures JustBefore(moves, p, t, oracle)
  {
    hide KeptDeposition;
    var n := NextKept(moves, moves[p].span.end, oracle, 0);
    assert n < |moves|;
    forall q | 0 <= q < |moves| && KeptDeposition(moves[q], oracle)
      ensures !(moves[p].span.start < moves[q].span.start < moves[t].span.start)
    {
      if moves[p].span.start < moves[q].span.start {
        assert moves[p].span != moves[q].span;
        assert moves[q].span.start >= moves[p].span.end;
        assert n <= q;
      }
    }
  }

  /** The last-policy cursor commits the resolver's trusted target exactly when the kept deposition line just before
      that target has an in-window, trusted move. */
  lemma {:induction false} LastCommitsTheTarget(m: Model, w: ByteWindow, domain: seq<nat>, lines: set<nat>, oracle: Oracle, stops: seq<Stop>, src: seq<nat>, line: nat)
    requires FileOrder(m.moves) && IsDomain(m.moves, w, domain) && StopsAre(m, domain, lines, oracle, stops, src)
    requires stops != [] && Greatest(lines, line)
    requires var t := NextKept(m.moves, line, oracle, 0); t < |m.moves| && Trusted(m.moves[t])
    ensures var t := NextKept(m.moves, line, oracle, 0);
            stops[LastAnchor(m, stops, line, oracle)].resume == m.moves[t].span.start
            <==> exists p | 0 <= p < |m.moves| :: JustBefore(m.moves, p, t, oracle) && InWindow(m.moves[p], w) && Trusted(m.moves[p])
  {
    StopResumesThere(m, w, domain, lines, oracle, stops, src, line);
    LastAnchorCases(m, stops, line, oracle);
    hide NextKept, StopsAre, FileOrder, IsDomain, JustBefore, Trusted, InWindow, LastAnchor, KeptDeposition;
  }

  /** Which stop the last-policy cursor takes when the resolver's target is trusted. */
  lemma {:induction false} LastAnchorCases(m: Model, stops: seq<Stop>, line: nat, oracle: Oracle)
    requires stops != []
    requires var t := NextKept(m.moves, line, oracle, 0); t < |m.moves| && Trusted(m.moves[t])
    ensures var target := m.moves[NextKept(m.moves, line, oracle, 0)].span.start;
            var stop := stops[LastAnchor(m, stops, line, oracle)];
            && (stop.resume == target <==> exists k | 0 <= k < |stops| :: stops[k].resume == target)
            && ((exists k | 0 <= k < |stops| :: stops[k].offset == target) ==> stop.resume == target || stop.offset == target)
  {
    hide NextKept, Trusted, KeptDeposition, StopAtOffset, StopResumingAt, NearestAtOrBefore;
  }

  /** Some stop resumes at the target exactly when the line just before it has an in-window, trusted move. */
  lemma {:induction false} StopResumesThere(m: Model, w: ByteWindow, domain: seq<nat>, lines: set<nat>, oracle: Oracle, stops: seq<Stop>, src: seq<nat>, base: nat)
    requires FileOrder(m.moves) && IsDomain(m.moves, w, domain) && StopsAre(m, domain, lines, oracle, stops, src)
    requires var t := NextKept(m.moves, base, oracle, 0); t < |m.moves| && Trusted(m.moves[t])
    ensures var t := NextKept(m.moves, base, oracle, 0);
            (exists k | 0 <= k < |stops| :: stops[k].resume == m.moves[t].span.start)
            <==> exists p | 0 <= p < |m.moves| :: JustBefore(m.moves, p, t, oracle) && InWindow(m.moves[p], w) && Trusted(m.moves[p])
  {
    hide FileOrder, JustBefore, Trusted, InWindow, Cancelled, Ascending;
    var t := NextKept(m.moves, base, oracle, 0);
    var target := m.moves[t].span.start;
    if p :| 0 <= p < |m.moves| && JustBefore(m.moves, p, t, oracle) && InWindow(m.moves[p], w) && Trusted(m.moves[p]) {
      JustBeforeResumesThere(m.moves, base, p, t, oracle);
      JustBeforeIsKept(m.moves, p, t, oracle);
      PredecessorIsAStop(m, w, domain, lines, oracle, stops, src, p);
    }
    if k :| 0 <= k < |stops| && stops[k].resume == target {
      assert src[k] in domain;
      ResumingThereIsJustBefore(m.moves, src[k], t, oracle);
    }
  }

  lemma JustBeforeIsKept(moves: seq<SimMove>, p: nat, t: nat, oracle: Oracle)
    requires p < |moves| && t < |moves| && JustBefore(moves, p, t, oracle)
    ensures KeptDeposition(moves[p], oracle)
  {
  }

  lemma {:induction false} PredecessorIsAStop(m: Model, w: ByteWindow, domain: seq<nat>, lines: set<nat>, oracle: Oracle, stops: seq<Stop>, src: seq<nat>, p: nat)
    requires IsDomain(m.moves, w, domain) && StopsAre(m, domain, lines, oracle, stops, src)
    requires p < |m.moves| && InWindow(m.moves[p], w) && Trusted(m.moves[p]) && KeptDeposition(m.moves[p], oracle)
    requires var t := NextKept(m.moves, m.moves[p].span.end, oracle, 0); t < |m.moves| && Trusted(m.moves[t])
    ensures exists k | 0 <= k < |stops| :: stops[k].resume == m.moves[NextKept(m.moves, m.moves[p].span.end, oracle, 0)].span.start
  {
    hide InWindow, Trusted, Cancelled, Ascending, FeatureOf;
    assert p in domain && p in src;
    var k :| 0 <= k < |src| && src[k] == p;
    assert stops[k] == StopOf(m, m.moves[p], k, lines, oracle);
  }

  /** With a stop that resumes at the target or lies on its line, the cursor commits the target, or, when no stop resumes
      there, skips forward past it. */
  lemma {:induction false} LastSkipsForward(m: Model, w: ByteWindow, domain: seq<nat>, lines: set<nat>, oracle: Oracle, stops: seq<Stop>, src: seq<nat>, line: nat)
    requires FileOrder(m.moves) && IsDomain(m.moves, w, domain) && StopsAre(m, domain, lines, oracle, stops, src)
    requires stops != [] && Greatest(lines, line)
    requires var t := NextKept(m.moves, line, oracle, 0);
             && t < |m.moves| && Trusted(m.moves[t])
             && exists k | 0 <= k < |stops| :: stops[k].resume == m.moves[t].span.start || stops[k].offset == m.moves[t].span.start
    ensures var target := m.moves[NextKept(m.moves, line, oracle, 0)].span.start;
            var stop := stops[LastAnchor(m, stops, line, oracle)];
            stop.resume == target || (stop.resume > target && forall k | 0 <= k < |stops| :: stops[k].resume != target)
  {
    var k := LastAnchor(m, stops, line, oracle);
    ResumesAdvance(m, w, domain, lines, oracle, stops, src, k, k);
    LastAnchorCases(m, stops, line, oracle);
    hide StopsAre, FileOrder, IsDomain, Trusted, NextKept, LastAnchor, KeptDeposition;
  }

  // ----- the whole preview -----

  function RepInputs(stops: seq<Stop>, n: nat): seq<R.RepInput>
    requires n <= |stops|
  {
    if n == 0 then []
    else RepInputs(stops, n - 1) + if stops[n - 1].isCandidate then [R.RepInput(stops[n - 1].index, stops[n - 1].xy, stops[n - 1].offset)] else []
  }

  ghost function CandidateStops(stops: seq<Stop>, n: nat): set<nat>
    requires n <= |stops|
  {
    set k | 0 <= k < n && stops[k].isCandidate
  }

  lemma {:induction false} RepInputsAre(stops: seq<Stop>, n: nat)
    requires n <= |stops| && forall k | 0 <= k < n :: stops[k].index == k
    ensures forall c :: c in RepInputs(stops, n) <==>
                        c.index in CandidateStops(stops, n) && c == R.RepInput(c.index, stops[c.index].xy, stops[c.index].offset)
    ensures |RepInputs(stops, n)| == |CandidateStops(stops, n)|
  {
    if n > 0 {
      RepInputsAre(stops, n - 1);
      var named := CandidateStops(stops, n - 1);
      assert CandidateStops(stops, n) == if stops[n - 1].isCandidate then named + {n - 1} else named;
      hide CandidateStops;
      assert RepInputs(stops, n) == RepInputs(stops, n - 1) + if stops[n - 1].isCandidate then [InputOf(stops, n - 1)] else [];
      hide RepInputs;
    }
  }

  function InputOf(stops: seq<Stop>, k: nat): R.RepInput
    requires k < |stops|
  {
    R.RepInput(stops[k].index, stops[k].xy, stops[k].offset)
  }

  ghost predicate RepresentativesAre(stops: seq<Stop>, reps: seq<nat>) {
    R.RepresentativesOf(RepInputs(stops, |stops|), MAX_REPS, reps)
  }

  /** The representatives are min(7, n) of the n candidate stops, the first and the last among them. */
  lemma {:induction false} RepresentativesSpanTheCandidates(stops: seq<Stop>, reps: seq<nat>)
    requires forall k | 0 <= k < |stops| :: stops[k].index == k
    requires forall i, j | 0 <= i < j < |stops| :: stops[i].offset <= stops[j].offset
    requires RepresentativesAre(stops, reps) && CandidateStops(stops, |stops|) != {}
    ensures var n := |CandidateStops(stops, |stops|)|;
            && |reps| == (if n >= MAX_REPS then MAX_REPS else n)
            && (forall r | r in reps :: r in CandidateStops(stops, |stops|))
            && exists lo, hi :: lo in reps && hi in reps && forall k | k in CandidateStops(stops, |stops|) :: lo <= k <= hi
  {
    var pool := RepInputs(stops, |stops|);
    RepInputsAre(stops, |stops|);
    hide RepInputs, CandidateStops, R.GreedyRun, R.SortedIndices;
    var chosen, base :| R.GreedyRun(pool, MAX_REPS, chosen, base) && reps == R.SortedIndices(chosen);
    RunSpansTheCandidates(stops, chosen, base);
  }

  lemma {:induction false} RunSpansTheCandidates(stops: seq<Stop>, chosen: seq<R.RepInput>, base: nat)
    requires forall k | 0 <= k < |stops| :: stops[k].index == k
    requires forall i, j | 0 <= i < j < |stops| :: stops[i].offset <= stops[j].offset
    requires R.GreedyRun(RepInputs(stops, |stops|), MAX_REPS, chosen, base)
    ensures var n, reps := |CandidateStops(stops, |stops|)|, R.SortedIndices(chosen);
            && |reps| == (if n >= MAX_REPS then MAX_REPS else n)
            && (forall r | r in reps :: r in CandidateStops(stops, |stops|))
            && exists lo, hi :: lo in reps && hi in reps && forall k | k in CandidateStops(stops, |stops|) :: lo <= k <= hi
  {
    hide R.SortedIndices, R.AllPicks, R.Unchosen, R.NoWorse;
    var pool := RepInputs(stops, |stops|);
    RepInputsAre(stops, |stops|);
    hide RepInputs;
    var lo := chosen[0];
    assert R.Earliest(pool, lo);
    var hi :| R.Latest(pool, hi) && (base == 2 ==> hi == chosen[1]);
    R.RepresentativesAreTheCap(pool, MAX_REPS, chosen, base, lo, hi);
    hide R.GreedyRun;
    var named := CandidateStops(stops, |stops|);
    forall k | k in named
      ensures lo.index <= k <= hi.index && k in R.Indices(pool)
    {
      var c := R.RepInput(k, stops[k].xy, stops[k].offset);
      assert c in pool;
      assert lo.index < k || lo.index == k || k < lo.index;
    }
    assert R.Indices(pool) == named;
  }

  ghost function LayerSet(c: seq<Candidate>, n: nat): set<nat>
    requires n <= |c|
  {
    set k | 0 <= k < n && c[k].layer.Some? :: c[k].layer.value
  }

  method DistinctLayers(c: seq<Candidate>) returns (count: nat)
    ensures count == |LayerSet(c, |c|)|
  {
    var layers: seq<nat> := [];
    ghost var named: set<nat> := {};
    for k := 0 to |c|
      invariant named == LayerSet(c, k) && |layers| == |named|
      invariant forall x :: x in layers <==> x in named
    {
      if c[k].layer.Some? {
        var layer := c[k].layer.value;
        assert LayerSet(c, k + 1) == LayerSet(c, k) + {layer};
        if layer !in layers {
          layers := layers + [layer];
          named := named + {layer};
        }
      } else {
        assert LayerSet(c, k + 1) == LayerSet(c, k);
      }
    }
    count := |layers|;
  }

  method RawDomain(moves: seq<SimMove>, w: ByteWindow) returns (domain: seq<nat>)
    ensures IsDomain(moves, w, domain)
  {
    hide InWindow, Ascending;
    domain := [];
    AscendingNone();
    for k := 0 to |moves|
      invariant Ascending(domain)
      invariant forall i: nat :: i in domain <==> i < k && InDomain(moves[i], w)
    {
      if InDomain(moves[k], w) {
        AscendingAppend(domain, k);
        domain := domain + [k];
      }
    }
  }

  /** What was worked out on the way to an outcome. */
  datatype Work = Work(candidates: seq<Candidate>, domain: seq<nat>, stops: seq<Stop>, src: seq<nat>)

  /** The anchors: first on the least consistent line, mid on the middle one, last resolved from the greatest. */
  ghost predicate AnchorsAre(m: Model, stops: seq<Stop>, lines: set<nat>, oracle: Oracle, p: PreviewSet)
    requires stops != []
  {
    && lines != {}
    && (forall l | Least(lines, l) :: p.firstIndex == stops[LineAnchor(stops, l)].index)
    && (forall l | Middle(lines, l) :: p.midIndex == stops[LineAnchor(stops, l)].index)
    && (forall l | Greatest(lines, l) :: p.lastIndex == stops[LastAnchor(m, stops, l, oracle)].index)
  }

  /** Which outcome follows, gate by gate. */
  ghost predicate PreviewHolds(m: Model, ev: Evidence, cfg: Config, oracle: Oracle, bounds: Bounds, out: PreviewOutcome, w: Work) {
    var lines := Lines(m.moves, ev, cfg);
    if Validate(ev, cfg).Some? then out == InvalidEvidence(Validate(ev, cfg).value)
    else
      && Collected(m.moves, ev, cfg, w.candidates)
      && var layers := |LayerSet(w.candidates, |w.candidates|)|;
         if layers > bounds.maxLayers then out == TooWide(TooManyLayers(layers, bounds.maxLayers))
         else
           && IsDomain(m.moves, ev.window, w.domain)
           && if |w.domain| > bounds.maxStops then out == TooWide(TooManyStops(|w.domain|, bounds.maxStops))
              else FromStops(m, lines, oracle, out, w)
  }

  /** Past the gates: no stops without a candidate stop, else the set with its representatives and anchors. */
  ghost predicate FromStops(m: Model, lines: set<nat>, oracle: Oracle, out: PreviewOutcome, w: Work) {
    && StopsAre(m, w.domain, lines, oracle, w.stops, w.src)
    && if forall k | 0 <= k < |w.stops| :: !w.stops[k].isCandidate then out == NoStops
       else
         && out.Preview? && out.set_.stops == w.stops
         && RepresentativesAre(w.stops, out.set_.representatives)
         && AnchorsAre(m, w.stops, lines, oracle, out.set_)
  }

  /** The same of a whole preview: accepting the last-policy stop resumes at the resolver's trusted target exactly when the
      kept deposition line just before it has an in-window, trusted move. */
  lemma {:induction false} LastIndexCommitsTheTarget(m: Model, ev: Evidence, cfg: Config, oracle: Oracle, bounds: Bounds, out: PreviewOutcome, w: Work, line: nat)
    requires PreviewHolds(m, ev, cfg, oracle, bounds, out, w) && out.Preview? && FileOrder(m.moves) && |w.stops| <= U32_MAX
    requires Greatest(Lines(m.moves, ev, cfg), line)
    requires var t := NextKept(m.moves, line, oracle, 0); t < |m.moves| && Trusted(m.moves[t])
    ensures var t := NextKept(m.moves, line, oracle, 0);
            && out.set_.lastIndex < |out.set_.stops|
            && (out.set_.stops[out.set_.lastIndex].resume == m.moves[t].span.start
                <==> exists p | 0 <= p < |m.moves| :: JustBefore(m.moves, p, t, oracle) && InWindow(m.moves[p], ev.window) && Trusted(m.moves[p]))
  {
    hide Lines, IsDomain, NextKept, LastAnchor, LineAnchor, Collected, LayerSet, Validate, FileOrder, RepresentativesAre, JustBefore;
    IndexIsPosition(m, w.domain, Lines(m.moves, ev, cfg), oracle, w.stops, w.src, LastAnchor(m, w.stops, line, oracle));
    LastCommitsTheTarget(m, ev.window, w.domain, Lines(m.moves, ev, cfg), oracle, w.stops, w.src, line);
  }

  lemma IndexIsPosition(m: Model, domain: seq<nat>, lines: set<nat>, oracle: Oracle, stops: seq<Stop>, src: seq<nat>, k: nat)
    requires StopsAre(m, domain, lines, oracle, stops, src) && k < |stops| <= U32_MAX
    ensures stops[k].index == k
  {
    hide Offerable, ResumeOf, FeatureOf;
  }

  method BuildPreview(m: Model, ev: Evidence, cfg: Config, oracle: Oracle, bounds: Bounds) returns (out: PreviewOutcome)
    ensures exists w: Work :: PreviewHolds(m, ev, cfg, oracle, bounds, out, w)
  {
    hide Validate, Collected, Lines, IsDomain, StopsAre, LayerSet, FromStops;
    ghost var w := Work([], [], [], []);
    var field := Validate(ev, cfg);
    if field.Some? {
      out := InvalidEvidence(field.value);
      assert PreviewHolds(m, ev, cfg, oracle, bounds, out, w);
      return;
    }
    var candidates, _ := CollectCandidates(m.moves, ev, cfg);
    var layers := DistinctLayers(candidates);
    w := w.(candidates := candidates);
    if layers > bounds.maxLayers {
      out := TooWide(TooManyLayers(layers, bounds.maxLayers));
      assert PreviewHolds(m, ev, cfg, oracle, bounds, out, w);
      return;
    }
    var domain := RawDomain(m.moves, ev.window);
    w := w.(domain := domain);
    if |domain| > bounds.maxStops {
      out := TooWide(TooManyStops(|domain|, bounds.maxStops));
      assert PreviewHolds(m, ev, cfg, oracle, bounds, out, w);
      return;
    }
    out, w := FromDomain(m, ev, cfg, oracle, candidates, domain, w);
    assert PreviewHolds(m, ev, cfg, oracle, bounds, out, w);
  }

  method FromDomain(m: Model, ev: Evidence, cfg: Config, oracle: Oracle, candidates: seq<Candidate>, domain: seq<nat>, ghost w: Work)
    returns (out: PreviewOutcome, ghost w': Work)
    requires Collected(m.moves, ev, cfg, candidates) && IsDomain(m.moves, ev.window, domain)
    requires w.candidates == candidates && w.domain == domain
    ensures w'.candidates == candidates && w'.domain == domain && FromStops(m, Lines(m.moves, ev, cfg), oracle, out, w')
  {
    hide Collected, Lines, StopsAre, LastAnchor, RepInputs, OffsetsOf, R.RepresentativesOf, InDomain, Ascending;
    var offsets := OffsetsOf(candidates);
    LineCount(m.moves, ev, cfg, candidates);
    OffsetsAreLines(m.moves, ev, cfg, candidates);
    var stops := BuildStops(m, domain, (set o | o in offsets), oracle);
    ghost var src: seq<nat> :| StopsAre(m, domain, (set o | o in offsets), oracle, stops, src);
    w' := w.(stops := stops, src := src);
    CandidateStopsHaveLines(m, domain, (set o | o in offsets), oracle, stops, src, candidates);
    var inputs := RepInputs(stops, |stops|);
    InputsIffCandidates(stops, |stops|);
    if stops == [] || inputs == [] {
      return NoStops, w';
    }
    var reps := R.Representatives(inputs, MAX_REPS);
    out := Preview(PreviewSet(stops, reps, stops[LineAnchor(stops, offsets[0])].index,
                              stops[LineAnchor(stops, offsets[MedianIndex(|offsets|)])].index,
                              stops[LastAnchor(m, stops, offsets[|offsets| - 1], oracle)].index));
    OffsetsAnchor(m, stops, offsets, Lines(m.moves, ev, cfg), oracle, out.set_);
  }

  lemma OffsetsAnchor(m: Model, stops: seq<Stop>, offsets: seq<nat>, lines: set<nat>, oracle: Oracle, p: PreviewSet)
    requires stops != [] && Ascending(offsets) && offsets != [] && lines == (set o | o in offsets)
    requires p.firstIndex == stops[LineAnchor(stops, offsets[0])].index
    requires p.midIndex == stops[LineAnchor(stops, offsets[MedianIndex(|offsets|)])].index
    requires p.lastIndex == stops[LastAnchor(m, stops, offsets[|offsets| - 1], oracle)].index
    ensures AnchorsAre(m, stops, lines, oracle, p)
  {
    OffsetsHoldTheLines(offsets, lines);
    LinesAreUnique(lines, offsets[0], offsets[MedianIndex(|offsets|)], offsets[|offsets| - 1]);
    assert offsets[0] in lines;
    hide LineAnchor, LastAnchor, Least, Middle, Greatest, Ascending, MedianIndex;
  }

  lemma LinesAreUnique(lines: set<nat>, first: nat, mid: nat, last: nat)
    requires Least(lines, first) && Middle(lines, mid) && Greatest(lines, last)
    ensures forall l | Least(lines, l) :: l == first
    ensures forall l | Middle(lines, l) :: l == mid
    ensures forall l | Greatest(lines, l) :: l == last
  {
    forall l | Middle(lines, l)
      ensures l == mid
    {
      MiddleIsUnique(lines, l, mid);
    }
  }

  lemma MiddleIsUnique(lines: set<nat>, a: nat, b: nat)
    requires Middle(lines, a) && Middle(lines, b)
    ensures a == b
  {
    if a < b { MiddleNotBefore(lines, a, b); }
    if b < a { MiddleNotBefore(lines, b, a); }
  }

  lemma MiddleNotBefore(lines: set<nat>, a: nat, b: nat)
    requires a in lines && b in lines && a < b
    ensures |LinesBefore(lines, a)| + 1 <= |LinesBefore(lines, b)| && |LinesAfter(lines, b)| + 1 <= |LinesAfter(lines, a)|
  {
    R.SubsetSize(LinesBefore(lines, a) + {a}, LinesBefore(lines, b));
    R.SubsetSize(LinesAfter(lines, b) + {b}, LinesAfter(lines, a));
  }

  lemma {:induction false} OffsetsAreLines(moves: seq<SimMove>, ev: Evidence, cfg: Config, c: seq<Candidate>)
    requires Collected(moves, ev, cfg, c)
    ensures (set o | o in OffsetsOf(c)) == Lines(moves, ev, cfg)
    ensures OffsetsOf(c) == [] <==> c == []
  {
    LineCount(moves, ev, cfg, c);
    hide Collected, Lines;
  }

  lemma {:induction false} CandidateStopsHaveLines(m: Model, domain: seq<nat>, lines: set<nat>, oracle: Oracle, stops: seq<Stop>, src: seq<nat>, c: seq<Candidate>)
    requires StopsAre(m, domain, lines, oracle, stops, src) && lines == (set o | o in OffsetsOf(c)) && (OffsetsOf(c) == [] <==> c == [])
    ensures (exists k | 0 <= k < |stops| :: stops[k].isCandidate) ==> c != [] && OffsetsOf(c) != []
  {
    hide Offerable, OffsetsOf;
  }

  lemma {:induction false} InputsIffCandidates(stops: seq<Stop>, n: nat)
    requires n <= |stops|
    ensures RepInputs(stops, n) == [] <==> forall k | 0 <= k < n :: !stops[k].isCandidate
  {
    if n > 0 { InputsIffCandidates(stops, n - 1); }
  }
}
