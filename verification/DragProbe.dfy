/** The drag staircase: lateral passes at descending heights until one makes contact, under three independent bounds. */
module DragProbe {
  import opened Arith
  import opened Geom
  import opened Model

  const CLEARANCE_STEPS: real := 2.0
  const FLOOR_RESERVE_STEPS: real := 1.0
  const COVERAGE_GRACE_SECONDS: real := 0.15
  const IMPLAUSIBLE_RUN: nat := 3
  const IMPLAUSIBLE_MIN_RATIO: real := 0.5
  const STALL_RATIO_EPS: real := 0.05
  const STALL_MIN_DESCENT_STEPS: nat := 8
  const STALL_SLACK: real := 0.000000001
  const TEMP_BAND_C: real := 15.0
  const TEMP_WIDEN_PER_C: real := 0.02
  const TEMP_WIDEN_CAP: real := 0.50

  datatype Config = Config(startZ: real, positionMin: real, zStep: real, maxSeconds: real, stallPasses: nat)

  predicate Admitted(c: Config) {
    c.zStep > 0.0 && c.stallPasses >= 2
  }

  function FloorZ(c: Config): real {
    c.positionMin + FLOOR_RESERVE_STEPS * c.zStep
  }

  /** One pass as captured: nothing, refused by the classifier, or classified with its sample and motion windows. */
  datatype Capture =
    | NoData
    | Unclassifiable
    | Classified(contact: bool, ratio: real, firstT: real, lastT: real, motionStart: real, motionEnd: real)

  /** What the machine answers: the capture of pass k at height z, and the seconds elapsed when pass k is due. */
  datatype Machine = Machine(capture: (nat, real) -> Capture, elapsed: nat -> real)

  datatype Reason =
    | TimeBudget | NoSamples | InvalidPass | CoverageGap | FirstPassContact | Implausible | Stalled | Envelope

  datatype Outcome =
    | Refused
    | Failed(reason: Reason, passes: nat)
    | Located(triggerZ: real, passes: nat, ratio: real)

  /** A sample window that does not bracket the motion, to within the grace at both ends. */
  predicate Uncovered(p: Capture)
    requires p.Classified?
  {
    p.firstT > p.motionStart + COVERAGE_GRACE_SECONDS || p.lastT < p.motionEnd - COVERAGE_GRACE_SECONDS
  }

  // ----- heights and the pass bound -----

  function Steps(k: nat, step: real): real {
    (k as real) * step
  }

  lemma StepMore(k: nat, step: real)
    ensures Steps(k + 1, step) == Steps(k, step) + step
  {
  }

  lemma StepsMonotone(j: nat, k: nat, step: real)
    requires j <= k && step > 0.0
    ensures Steps(j, step) <= Steps(k, step)
  {
    MulLe(j as real, k as real, step);
  }

  function ZAt(c: Config, k: nat): real {
    c.startZ - Steps(k, c.zStep)
  }

  function Ceil(v: real): int {
    -((-v).Floor)
  }

  /** Hard cap on passes; None where the plugin refuses. */
  function IterationBound(startZ: real, floorZ: real, zStep: real): Option<int> {
    if zStep <= 0.0 || startZ <= floorZ then None else Some(Ceil((startZ - floorZ) / zStep))
  }

  /** The bound is the least number of steps that reach the floor. */
  lemma BoundReachesTheFloor(startZ: real, floorZ: real, zStep: real)
    requires zStep > 0.0 && startZ > floorZ
    ensures var n := IterationBound(startZ, floorZ, zStep).value;
            n >= 1 && startZ - Steps(n, zStep) <= floorZ < startZ - Steps(n - 1, zStep)
  {
    var q := (startZ - floorZ) / zStep;
    DivMul(startZ - floorZ, zStep);
    QuotientPos(startZ - floorZ, zStep, q);
    var n := Ceil(q);
    assert (n - 1) as real < q <= n as real;
    MulLe(q, n as real, zStep);
    StrictlyFewerSteps(n - 1, q, zStep);
  }

  lemma StrictlyFewerSteps(k: nat, q: real, step: real)
    requires (k as real) < q && step > 0.0
    ensures Steps(k, step) < q * step
  {
    MulPos(q - (k as real), step);
  }

  lemma QuotientPos(u: real, v: real, q: real)
    requires u > 0.0 && v > 0.0 && q * v == u
    ensures q > 0.0
  {
    if q <= 0.0 { MulLe(q, 0.0, v); }
  }

  // ----- the detectors -----

  /** The signal recedes: three falling ratios, the first already substantial. */
  predicate Recedes(ratios: seq<real>) {
    |ratios| >= IMPLAUSIBLE_RUN &&
    var r0, r1, r2 := ratios[|ratios| - 3], ratios[|ratios| - 2], ratios[|ratios| - 1];
    r0 >= IMPLAUSIBLE_MIN_RATIO && r0 > r1 > r2
  }

  /** How many of the last ratios form one flat run. */
  function FlatRun(ratios: seq<real>): (n: nat)
    ensures n <= |ratios| && (ratios != [] ==> n >= 1)
  {
    if |ratios| < 2 then |ratios|
    else if Abs(ratios[|ratios| - 1] - ratios[|ratios| - 2]) < STALL_RATIO_EPS then FlatRun(ratios[..|ratios| - 1]) + 1
    else 1
  }

  /** A flat run of the configured length, over enough descent, ending no higher than it began. */
  predicate StalledBy(c: Config, ratios: seq<real>) {
    var run := FlatRun(ratios);
    && run >= c.stallPasses && run >= 1
    && Steps(run - 1, c.zStep) >= Steps(STALL_MIN_DESCENT_STEPS, c.zStep) - STALL_SLACK
    && ratios[|ratios| - 1] <= ratios[|ratios| - run] + STALL_RATIO_EPS
  }

  /** Every two neighbours inside the flat run differ by less than the tolerance. */
  lemma {:induction false} FlatRunIsFlat(ratios: seq<real>, k: nat)
    requires |ratios| - FlatRun(ratios) < k < |ratios|
    ensures -0.05 < ratios[k] - ratios[k - 1] < 0.05
  {
    if k < |ratios| - 1 { FlatRunIsFlat(ratios[..|ratios| - 1], k); }
  }

  /** And it reaches as far back as it can: the step into it is no smaller than the tolerance. */
  lemma {:induction false} FlatRunIsLongest(ratios: seq<real>)
    requires FlatRun(ratios) < |ratios|
    ensures var k := |ratios| - FlatRun(ratios); ratios[k] - ratios[k - 1] >= 0.05 || ratios[k - 1] - ratios[k] >= 0.05
  {
    if FlatRun(ratios) > 1 { FlatRunIsLongest(ratios[..|ratios| - 1]); }
  }

  /** Exactly when a run stalls: the descent condition adds a ninth flat pass, even where fewer are configured. */
  lemma {:induction false} StallNeedsNinePasses(c: Config, ratios: seq<real>)
    requires c.zStep > STALL_SLACK && ratios != []
    ensures StalledBy(c, ratios) <==>
              && FlatRun(ratios) >= c.stallPasses && FlatRun(ratios) >= 9
              && ratios[|ratios| - 1] <= ratios[|ratios| - FlatRun(ratios)] + STALL_RATIO_EPS
  {
    var run := FlatRun(ratios);
    if run < 9 {
      StepsMonotone(run - 1, 7, c.zStep);
      StepMore(7, c.zStep);
    } else {
      StepsMonotone(STALL_MIN_DESCENT_STEPS, run - 1, c.zStep);
    }
  }

  /** Eight equal ratios are a flat run of the configured eight passes, and no stall. */
  lemma EightFlatPassesDoNotStall(c: Config, ratio: real)
    requires c.zStep > STALL_SLACK && c.stallPasses == 8
    ensures var ratios := seq(8, _ => ratio); FlatRun(ratios) == c.stallPasses && !StalledBy(c, ratios)
  {
    EqualRatiosAreFlat(8, ratio);
    StallNeedsNinePasses(c, seq(8, _ => ratio));
  }

  lemma {:induction false} EqualRatiosAreFlat(n: nat, ratio: real)
    ensures FlatRun(seq(n, _ => ratio)) == n
  {
    if n >= 2 {
      EqualRatiosAreFlat(n - 1, ratio);
      assert seq(n, _ => ratio)[..n - 1] == seq(n - 1, _ => ratio);
    }
  }

  // ----- what a run comes to -----

  function RatioAt(c: Config, m: Machine, k: nat): real {
    var p := m.capture(k, ZAt(c, k));
    if p.Classified? then p.ratio else 0.0
  }

  function Ratios(c: Config, m: Machine, n: nat): (r: seq<real>)
    ensures |r| == n && forall k | 0 <= k < n :: r[k] == RatioAt(c, m, k)
  {
    seq(n, k requires 0 <= k < n => RatioAt(c, m, k))
  }

  /** Why the run ends at pass k, every earlier pass having been clean; None when it goes on. */
  function StopAt(c: Config, m: Machine, k: nat): Option<Outcome> {
    var p := m.capture(k, ZAt(c, k));
    if m.elapsed(k) > c.maxSeconds then Some(Failed(TimeBudget, k))
    else if p.NoData? then Some(Failed(NoSamples, k + 1))
    else if p.Unclassifiable? then Some(Failed(InvalidPass, k + 1))
    else if Uncovered(p) then Some(Failed(CoverageGap, k + 1))
    else if p.contact then Some(if k == 0 then Failed(FirstPassContact, 1) else Located(ZAt(c, k - 1), k + 1, p.ratio))
    else if Recedes(Ratios(c, m, k + 1)) then Some(Failed(Implausible, k + 1))
    else if StalledBy(c, Ratios(c, m, k + 1)) then Some(Failed(Stalled, k + 1))
    else None
  }

  function RunFrom(c: Config, m: Machine, bound: nat, k: nat): Outcome
    requires k < bound
    decreases bound - k
  {
    var stop := StopAt(c, m, k);
    if stop.Some? then stop.value
    else if k == bound - 1 || ZAt(c, k + 1) < FloorZ(c) then Failed(Envelope, k + 1)
    else RunFrom(c, m, bound, k + 1)
  }

  /** The result of the command. */
  function Probe(c: Config, m: Machine): Outcome
    requires Admitted(c)
  {
    if c.startZ <= FloorZ(c) then Refused
    else
      BoundReachesTheFloor(c.startZ, FloorZ(c), c.zStep);
      RunFrom(c, m, IterationBound(c.startZ, FloorZ(c), c.zStep).value, 0)
  }

  // ----- the machine -----

  class Toolhead {
    var z: real
    var commanded: seq<real>

    constructor (z: real)
      ensures this.z == z && commanded == []
    {
      this.z, commanded := z, [];
    }

    method MoveZ(target: real)
      modifies this
      ensures z == target && commanded == old(commanded) + [target]
    {
      z, commanded := target, commanded + [target];
    }

    /** Lift straight back to the starting height; never moves down. */
    method RestoreZ(startZ: real)
      modifies this
      ensures z == (if old(z) < startZ then startZ else old(z))
      ensures commanded == old(commanded) + if old(z) < startZ then [startZ] else []
    {
      if z < startZ {
        MoveZ(startZ);
      }
    }
  }

  /** Every height commanded since `from` lies between the floor and the start. */
  ghost predicate Bounded(commanded: seq<real>, from: nat, c: Config) {
    from <= |commanded| && forall k | from <= k < |commanded| :: FloorZ(c) <= commanded[k] <= c.startZ
  }

  lemma BoundedMore(commanded: seq<real>, from: nat, c: Config, z: real)
    requires Bounded(commanded, from, c) && FloorZ(c) <= z <= c.startZ
    ensures Bounded(commanded + [z], from, c)
  {
  }

  /** Where the head is left: back at the start, or two steps above the contact. */
  function RestZ(c: Config, r: Outcome): real {
    if r.Located? then Min(c.startZ, r.triggerZ - c.zStep + CLEARANCE_STEPS * c.zStep) else c.startZ
  }

  /** The flat-run counters after one more clean pass. */
  method TrackStall(c: Config, ratios: seq<real>, z: real, run: nat, runStartZ: real) returns (run': nat, runStartZ': real)
    requires ratios != [] && (|ratios| >= 2 ==> run == FlatRun(ratios[..|ratios| - 1]) && runStartZ == ZAt(c, |ratios| - 1 - run))
    requires z == ZAt(c, |ratios| - 1)
    ensures run' == FlatRun(ratios) && runStartZ' == ZAt(c, |ratios| - run')
  {
    hide ZAt;
    if |ratios| >= 2 && Abs(ratios[|ratios| - 1] - ratios[|ratios| - 2]) < STALL_RATIO_EPS {
      run', runStartZ' := run + 1, runStartZ;
    } else {
      run', runStartZ' := 1, z;
    }
  }

  lemma {:induction false} DescentOfRun(c: Config, ratios: seq<real>, z: real, run: nat, runStartZ: real)
    requires ratios != [] && run == FlatRun(ratios) && z == ZAt(c, |ratios| - 1) && runStartZ == ZAt(c, |ratios| - run)
    ensures runStartZ - z == Steps(run - 1, c.zStep)
    ensures StalledBy(c, ratios) <==>
              && run >= c.stallPasses && runStartZ - z >= Steps(STALL_MIN_DESCENT_STEPS, c.zStep) - STALL_SLACK
              && ratios[|ratios| - 1] <= ratios[|ratios| - run] + STALL_RATIO_EPS
  {
    StepsAdd(|ratios| - run, run - 1, c.zStep);
  }

  lemma StepsAdd(j: nat, k: nat, step: real)
    ensures Steps(j + k, step) == Steps(j, step) + Steps(k, step)
  {
  }

  lemma ZBelow(c: Config, k: nat)
    ensures ZAt(c, k + 1) == ZAt(c, k) - c.zStep
  {
    StepMore(k, c.zStep);
  }

  /** The command: passes from the start height down, one step at a time. */
  method DragProbe(toolhead: Toolhead, c: Config, m: Machine) returns (r: Outcome)
    requires Admitted(c) && toolhead.z == c.startZ
    modifies toolhead
    ensures r == Probe(c, m)
    ensures toolhead.z == RestZ(c, r)
    ensures Bounded(toolhead.commanded, |old(toolhead.commanded)|, c)
  {
    if c.startZ <= FloorZ(c) {
      return Refused;
    }
    BoundReachesTheFloor(c.startZ, FloorZ(c), c.zStep);
    var bound := IterationBound(c.startZ, FloorZ(c), c.zStep).value;
    ProbeIsRun(c, m, bound);
    r := Staircase(toolhead, c, m, bound);
  }

  /** The clean passes so far, as the loop remembers them. */
  datatype History = History(lastCleanZ: Option<real>, ratios: seq<real>, stallRun: nat, stallRunStartZ: real)

  ghost predicate HistoryAt(c: Config, m: Machine, k: nat, h: History) {
    && h.ratios == Ratios(c, m, k) && h.lastCleanZ == (if k == 0 then None else Some(ZAt(c, k - 1)))
    && (k >= 1 ==> h.stallRun == FlatRun(h.ratios) && h.stallRunStartZ == ZAt(c, k - h.stallRun))
  }

  method Staircase(toolhead: Toolhead, c: Config, m: Machine, bound: nat) returns (r: Outcome)
    requires Admitted(c) && toolhead.z == c.startZ > FloorZ(c) && bound > 0
    modifies toolhead
    ensures r == RunFrom(c, m, bound, 0)
    ensures toolhead.z == RestZ(c, r)
    ensures Bounded(toolhead.commanded, |old(toolhead.commanded)|, c)
  {
    FirstHeight(c);
    NothingCommanded(toolhead.commanded, c);
    var h := History(None, [], 0, c.startZ);
    NoHistory(c, m, h);
    EnvelopeStopsCleanly(c);
    hide ZAt, StopAt, FloorZ, RunFrom, Bounded, RestZ, HistoryAt, StopsCleanly, Steps;
    ghost var from := |toolhead.commanded|;
    var z, k := c.startZ, 0;
    while true
      invariant 0 <= k < bound && RunFrom(c, m, bound, 0) == RunFrom(c, m, bound, k)
      invariant z == ZAt(c, k) == toolhead.z && FloorZ(c) <= z <= c.startZ
      invariant Bounded(toolhead.commanded, from, c) && HistoryAt(c, m, k, h)
      decreases bound - k
    {
      RunStops(c, m, bound, k);
      var stop, h' := OnePass(c, m, k, z, h);
      if stop.Some? {
        Settle(toolhead, c, from, k, stop.value);
        return stop.value;
      }
      h := h';
      ZBelow(c, k);
      var nextZ := z - c.zStep;
      if k == bound - 1 || nextZ < FloorZ(c) {
        Settle(toolhead, c, from, k, Failed(Envelope, k + 1));
        return Failed(Envelope, k + 1);
      }
      BoundedMore(toolhead.commanded, from, c, nextZ);
      toolhead.MoveZ(nextZ);
      z, k := nextZ, k + 1;
    }
  }

  lemma NoHistory(c: Config, m: Machine, h: History)
    requires h.lastCleanZ == None && h.ratios == []
    ensures HistoryAt(c, m, 0, h)
  {
  }

  /** Capture pass k at height z and judge it. */
  method OnePass(c: Config, m: Machine, k: nat, z: real, h: History) returns (stop: Option<Outcome>, h': History)
    requires HistoryAt(c, m, k, h) && z == ZAt(c, k)
    ensures stop == StopAt(c, m, k)
    ensures stop.None? ==> HistoryAt(c, m, k + 1, h')
    ensures stop.Some? ==> StopsCleanly(c, k, stop.value)
  {
    h' := h;
    hide FlatRun, StalledBy, Recedes, ZAt, Uncovered, StopAt;
    var capture := m.capture(k, z);
    stop := PassFailure(c, m, k, capture);
    if stop.Some? {
      return;
    }
    if capture.contact {
      var r := ContactResult(c, m, k, capture, h.lastCleanZ);
      return Some(r), h;
    }
    RatiosGrow(c, m, k, capture);
    var ratios := h.ratios + [capture.ratio];
    assert ratios[..k] == h.ratios;
    var run, runStartZ := TrackStall(c, ratios, z, h.stallRun, h.stallRunStartZ);
    stop := SignalFailure(c, m, k, ratios, z, run, runStartZ);
    h' := History(Some(z), ratios, run, runStartZ);
  }

  /** A located surface comes from a pass after the first; a first-pass contact from the first. */
  predicate StopsCleanly(c: Config, k: nat, r: Outcome) {
    !r.Refused? && (r.Located? ==> k > 0 && r.triggerZ == ZAt(c, k - 1)) && (r == Failed(FirstPassContact, 1) ==> k == 0)
  }

  lemma EnvelopeStopsCleanly(c: Config)
    ensures forall k: nat, n: nat :: StopsCleanly(c, k, Failed(Envelope, n))
  {
  }

  /** Move to rest: lift off a contact, stay after a first-pass contact, restore the start otherwise. */
  method Settle(toolhead: Toolhead, c: Config, ghost from: nat, ghost k: nat, r: Outcome)
    requires Admitted(c) && StopsCleanly(c, k, r) && toolhead.z == ZAt(c, k)
    requires FloorZ(c) <= toolhead.z <= c.startZ && Bounded(toolhead.commanded, from, c)
    modifies toolhead
    ensures toolhead.z == RestZ(c, r) && Bounded(toolhead.commanded, from, c)
  {
    FirstHeight(c);
    hide ZAt, FloorZ, Bounded;
    if r.Located? {
      ZBelow(c, k - 1);
      Lift(toolhead, c, from, k);
    } else if r != Failed(FirstPassContact, 1) {
      Restore(toolhead, c, from);
    }
  }

  lemma NothingCommanded(commanded: seq<real>, c: Config)
    ensures Bounded(commanded, |commanded|, c)
  {
  }

  lemma {:induction false} ProbeIsRun(c: Config, m: Machine, bound: nat)
    requires Admitted(c) && c.startZ > FloorZ(c) && IterationBound(c.startZ, FloorZ(c), c.zStep) == Some(bound) && bound > 0
    ensures Probe(c, m) == RunFrom(c, m, bound, 0)
  {
  }

  /** One step of the run. */
  lemma RunStops(c: Config, m: Machine, bound: nat, k: nat)
    requires k < bound
    ensures StopAt(c, m, k).Some? ==> RunFrom(c, m, bound, k) == StopAt(c, m, k).value
    ensures StopAt(c, m, k).None? && (k == bound - 1 || ZAt(c, k + 1) < FloorZ(c)) ==> RunFrom(c, m, bound, k) == Failed(Envelope, k + 1)
    ensures StopAt(c, m, k).None? && k < bound - 1 && ZAt(c, k + 1) >= FloorZ(c) ==> RunFrom(c, m, bound, k) == RunFrom(c, m, bound, k + 1)
  {
    hide StopAt, ZAt, FloorZ;
  }

  lemma FirstHeight(c: Config)
    ensures ZAt(c, 0) == c.startZ
  {
  }

  method Restore(toolhead: Toolhead, c: Config, ghost from: nat)
    requires FloorZ(c) <= toolhead.z <= c.startZ && Bounded(toolhead.commanded, from, c)
    modifies toolhead
    ensures toolhead.z == c.startZ && Bounded(toolhead.commanded, from, c)
  {
    BoundedMore(toolhead.commanded, from, c, c.startZ);
    toolhead.RestoreZ(c.startZ);
  }

  /** Lift clear of the contact, never above the start. */
  method Lift(toolhead: Toolhead, c: Config, ghost from: nat, ghost k: nat)
    requires Admitted(c) && toolhead.z == ZAt(c, k) && FloorZ(c) <= toolhead.z <= c.startZ && Bounded(toolhead.commanded, from, c)
    modifies toolhead
    ensures toolhead.z == Min(c.startZ, ZAt(c, k) + CLEARANCE_STEPS * c.zStep) && Bounded(toolhead.commanded, from, c)
  {
    hide ZAt, FloorZ;
    var clearanceZ := Min(c.startZ, toolhead.z + CLEARANCE_STEPS * c.zStep);
    BoundedMore(toolhead.commanded, from, c, clearanceZ);
    if clearanceZ > toolhead.z {
      toolhead.MoveZ(clearanceZ);
    }
  }

  /** The gates before a verdict is read: budget, data, validity, coverage. */
  method PassFailure(c: Config, m: Machine, k: nat, capture: Capture) returns (r: Option<Outcome>)
    requires capture == m.capture(k, ZAt(c, k))
    ensures r.Some? ==> StopAt(c, m, k) == r && r.value.Failed? && r.value.reason != FirstPassContact
    ensures r.None? ==> m.elapsed(k) <= c.maxSeconds && capture.Classified? && !Uncovered(capture)
  {
    if m.elapsed(k) > c.maxSeconds { return Some(Failed(TimeBudget, k)); }
    if capture.NoData? { return Some(Failed(NoSamples, k + 1)); }
    if capture.Unclassifiable? { return Some(Failed(InvalidPass, k + 1)); }
    if Uncovered(capture) { return Some(Failed(CoverageGap, k + 1)); }
    return None;
  }

  method ContactResult(c: Config, m: Machine, k: nat, capture: Capture, lastCleanZ: Option<real>) returns (r: Outcome)
    requires capture == m.capture(k, ZAt(c, k)) && capture.Classified? && capture.contact && !Uncovered(capture) && m.elapsed(k) <= c.maxSeconds
    requires lastCleanZ == if k == 0 then None else Some(ZAt(c, k - 1))
    ensures StopAt(c, m, k) == Some(r) && (r.Located? <==> k > 0) && (r.Located? ==> r.passes == k + 1 && r.triggerZ == ZAt(c, k - 1)) && StopsCleanly(c, k, r)
  {
    if lastCleanZ.None? { return Failed(FirstPassContact, 1); }
    return Located(lastCleanZ.value, k + 1, capture.ratio);
  }

  lemma RatiosGrow(c: Config, m: Machine, k: nat, capture: Capture)
    requires capture == m.capture(k, ZAt(c, k)) && capture.Classified?
    ensures Ratios(c, m, k + 1) == Ratios(c, m, k) + [capture.ratio]
  {
  }

  /** The two detectors over the clean ratios: a receding signal, then a stall. */
  method SignalFailure(c: Config, m: Machine, k: nat, ratios: seq<real>, z: real, stallRun: nat, stallRunStartZ: real) returns (r: Option<Outcome>)
    requires ratios == Ratios(c, m, k + 1) && z == ZAt(c, k)
    requires stallRun == FlatRun(ratios) && stallRunStartZ == ZAt(c, k + 1 - stallRun)
    requires var p := m.capture(k, ZAt(c, k)); p.Classified? && !p.contact && !Uncovered(p) && m.elapsed(k) <= c.maxSeconds
    ensures StopAt(c, m, k) == r && (r.Some? ==> r.value.Failed? && r.value.reason != FirstPassContact)
  {
    DescentOfRun(c, ratios, z, stallRun, stallRunStartZ);
    hide FlatRun, StalledBy, ZAt;
    if Recedes(ratios) { return Some(Failed(Implausible, k + 1)); }
    var descended := stallRunStartZ - z;
    if stallRun >= c.stallPasses && descended >= Steps(STALL_MIN_DESCENT_STEPS, c.zStep) - STALL_SLACK
       && ratios[|ratios| - 1] <= ratios[|ratios| - stallRun] + STALL_RATIO_EPS
    {
      return Some(Failed(Stalled, k + 1));
    }
    return None;
  }

  // ----- what every run guarantees -----

  /** Pass k went through, clean. */
  predicate CleanPass(c: Config, m: Machine, k: nat) {
    var p := m.capture(k, ZAt(c, k));
    m.elapsed(k) <= c.maxSeconds && p.Classified? && !Uncovered(p) && !p.contact
  }

  /** The last pass made contact above the floor, and the trigger is the height of the pass before. */
  predicate LocatedAt(c: Config, m: Machine, r: Outcome)
    requires r.Located?
  {
    && r.passes >= 2 && r.triggerZ == ZAt(c, r.passes - 2) && ZAt(c, r.passes - 1) >= FloorZ(c)
    && var p := m.capture(r.passes - 1, ZAt(c, r.passes - 1));
       p.Classified? && p.contact && p.ratio == r.ratio && !Uncovered(p)
  }

  lemma {:induction false} RunShape(c: Config, m: Machine, bound: nat, k: nat)
    requires k < bound && ZAt(c, k) >= FloorZ(c)
    requires forall j | 0 <= j < k :: CleanPass(c, m, j)
    ensures var r := RunFrom(c, m, bound, k);
            && !r.Refused? && r.passes <= bound
            && (forall j | 0 <= j < r.passes - 1 :: CleanPass(c, m, j))
            && (r.Located? ==> LocatedAt(c, m, r))
            && (r == Failed(Envelope, r.passes) ==>
                  && r.passes >= 1 && CleanPass(c, m, r.passes - 1)
                  && ZAt(c, r.passes - 1) >= FloorZ(c) && (r.passes == bound || ZAt(c, r.passes) < FloorZ(c)))
    decreases bound - k
  {
    hide ZAt, FloorZ, Recedes, StalledBy;
    var stop := StopAt(c, m, k);
    if stop.None? {
      assert CleanPass(c, m, k);
      if k < bound - 1 && ZAt(c, k + 1) >= FloorZ(c) { RunShape(c, m, bound, k + 1); }
    }
  }

  /** Success: contact one step below the last clean pass, every earlier pass clean, never below the floor. */
  lemma ContactIsOneStepDown(c: Config, m: Machine)
    requires Admitted(c) && Probe(c, m).Located?
    ensures var r := Probe(c, m);
            var contactZ := r.triggerZ - c.zStep;
            && r.passes >= 2 && contactZ == ZAt(c, r.passes - 1) >= FloorZ(c) == c.positionMin + c.zStep
            && (forall j | 0 <= j < r.passes - 1 :: CleanPass(c, m, j))
            && (var p := m.capture(r.passes - 1, contactZ); p.Classified? && p.contact)
            && RestZ(c, r) == Min(c.startZ, r.triggerZ + c.zStep)
  {
    BoundReachesTheFloor(c.startZ, FloorZ(c), c.zStep);
    FirstHeight(c);
    hide ZAt, FloorZ, RunFrom, IterationBound;
    RunShape(c, m, IterationBound(c.startZ, FloorZ(c), c.zStep).value, 0);
    ZBelow(c, Probe(c, m).passes - 2);
  }

  /** A machine that reports contact exactly below the surface. */
  ghost predicate PerfectContact(c: Config, m: Machine, surfaceZ: real) {
    forall k: nat :: m.capture(k, ZAt(c, k)).Classified? ==> (m.capture(k, ZAt(c, k)).contact <==> ZAt(c, k) < surfaceZ)
  }

  /** With such a machine the surface lies in (trigger - step, trigger]. */
  lemma SurfaceIsBracketed(c: Config, m: Machine, surfaceZ: real)
    requires Admitted(c) && Probe(c, m).Located? && PerfectContact(c, m, surfaceZ)
    ensures Probe(c, m).triggerZ - c.zStep < surfaceZ <= Probe(c, m).triggerZ
  {
    ContactIsOneStepDown(c, m);
    var r := Probe(c, m);
    ZBelow(c, r.passes - 2);
    hide ZAt, FloorZ, Probe;
    assert CleanPass(c, m, r.passes - 2);
    assert m.capture(r.passes - 1, ZAt(c, r.passes - 1)).contact;
  }

  /** At most ceil((start - floor) / step) passes, whatever the machine answers. */
  lemma PassesAreBounded(c: Config, m: Machine)
    requires Admitted(c) && c.startZ > FloorZ(c)
    ensures !Probe(c, m).Refused? && Probe(c, m).passes <= Ceil((c.startZ - FloorZ(c)) / c.zStep)
  {
    BoundReachesTheFloor(c.startZ, FloorZ(c), c.zStep);
    FirstHeight(c);
    hide ZAt, RunFrom;
    RunShape(c, m, IterationBound(c.startZ, FloorZ(c), c.zStep).value, 0);
  }

  /** Exhaustion: every pass clean, and the last within one step of the floor. */
  lemma ExhaustionReachesTheFloor(c: Config, m: Machine)
    requires Admitted(c) && Probe(c, m).Failed? && Probe(c, m).reason == Envelope
    ensures var n := Probe(c, m).passes;
            && n >= 1 && FloorZ(c) <= ZAt(c, n - 1) <= FloorZ(c) + c.zStep
            && forall j | 0 <= j < n :: CleanPass(c, m, j)
  {
    BoundReachesTheFloor(c.startZ, FloorZ(c), c.zStep);
    FirstHeight(c);
    var bound := IterationBound(c.startZ, FloorZ(c), c.zStep).value;
    var n := Probe(c, m).passes;
    assert ZAt(c, bound) <= FloorZ(c);
    hide FloorZ, RunFrom, IterationBound, ZAt;
    RunShape(c, m, bound, 0);
    ZBelow(c, n - 1);
  }

  /** In exact arithmetic the pass bound already keeps every descent above the floor: the check before a descent never fires. */
  lemma FloorCheckNeverFires(c: Config, k: nat)
    requires Admitted(c) && c.startZ > FloorZ(c)
    requires k + 1 < IterationBound(c.startZ, FloorZ(c), c.zStep).value
    ensures ZAt(c, k + 1) > FloorZ(c)
  {
    BoundReachesTheFloor(c.startZ, FloorZ(c), c.zStep);
    StepsMonotone(k + 1, IterationBound(c.startZ, FloorZ(c), c.zStep).value - 1, c.zStep);
  }

  // ----- why a run ends -----

  /** The sample window brackets the motion, to within 0.15 s at either end. */
  predicate Brackets(p: Capture) {
    p.Classified? && p.firstT - p.motionStart <= 0.15 && p.motionEnd - p.lastT <= 0.15
  }

  /** Pass k is in time, classified and covered. */
  predicate Usable(c: Config, m: Machine, k: nat) {
    m.elapsed(k) <= c.maxSeconds && Brackets(m.capture(k, ZAt(c, k)))
  }

  /** At pass k the ratio of two passes before was at least half the threshold, and has fallen twice since. */
  predicate Falls(c: Config, m: Machine, k: nat) {
    k >= 2 && RatioAt(c, m, k - 2) >= 0.5 && RatioAt(c, m, k - 2) > RatioAt(c, m, k - 1) > RatioAt(c, m, k)
  }

  /** Each way a run can end says what happened at its last pass. */
  ghost predicate EndsAsSaid(c: Config, m: Machine, r: Outcome) {
    match r
    case Refused => false
    case Located(_, n, ratio) => n >= 2 && Usable(c, m, n - 1) && m.capture(n - 1, ZAt(c, n - 1)).contact
    case Failed(reason, n) =>
      match reason
      case TimeBudget => m.elapsed(n) > c.maxSeconds
      case NoSamples => n >= 1 && m.capture(n - 1, ZAt(c, n - 1)).NoData?
      case InvalidPass => n >= 1 && m.capture(n - 1, ZAt(c, n - 1)).Unclassifiable?
      case CoverageGap => n >= 1 && m.capture(n - 1, ZAt(c, n - 1)).Classified? && !Brackets(m.capture(n - 1, ZAt(c, n - 1)))
      case FirstPassContact => n == 1 && Usable(c, m, 0) && m.capture(0, ZAt(c, 0)).contact
      case Implausible => n >= 3 && Usable(c, m, n - 1) && Falls(c, m, n - 1)
      case Stalled => n >= 1 && Usable(c, m, n - 1) && !Falls(c, m, n - 1) && StalledBy(c, Ratios(c, m, n))
      case Envelope => n >= 1 && Usable(c, m, n - 1) && !Falls(c, m, n - 1) && !StalledBy(c, Ratios(c, m, n))
  }

  lemma StopSaysWhy(c: Config, m: Machine, k: nat)
    ensures StopAt(c, m, k).Some? ==> EndsAsSaid(c, m, StopAt(c, m, k).value)
    ensures StopAt(c, m, k).None? ==> EndsAsSaid(c, m, Failed(Envelope, k + 1))
  {
    RecedesIsFalling(c, m, k);
    hide StalledBy, Recedes, Ratios, Falls, RatioAt, ZAt;
  }

  lemma RecedesIsFalling(c: Config, m: Machine, k: nat)
    ensures Recedes(Ratios(c, m, k + 1)) <==> Falls(c, m, k)
    ensures Falls(c, m, k) ==> k >= 2
  {
    hide RatioAt;
  }

  lemma {:induction false} RunEndsAsSaid(c: Config, m: Machine, bound: nat, k: nat)
    requires k < bound
    ensures EndsAsSaid(c, m, RunFrom(c, m, bound, k))
    decreases bound - k
  {
    StopSaysWhy(c, m, k);
    hide StopAt, EndsAsSaid, ZAt, FloorZ;
    if StopAt(c, m, k).None? && k < bound - 1 && ZAt(c, k + 1) >= FloorZ(c) { RunEndsAsSaid(c, m, bound, k + 1); }
  }

  /** Every run that starts ends for the reason it gives. */
  lemma ProbeEndsAsSaid(c: Config, m: Machine)
    requires Admitted(c) && c.startZ > FloorZ(c)
    ensures EndsAsSaid(c, m, Probe(c, m))
  {
    BoundReachesTheFloor(c.startZ, FloorZ(c), c.zStep);
    hide RunFrom, EndsAsSaid, IterationBound;
    RunEndsAsSaid(c, m, IterationBound(c.startZ, FloorZ(c), c.zStep).value, 0);
  }

  /** Within the budget, with every sample window bracketing its motion and no receding signal, a run ends only by contact,
      a stall or the envelope. */
  lemma GoodCapturesEndByContactStallOrEnvelope(c: Config, m: Machine)
    requires Admitted(c) && c.startZ > FloorZ(c) && forall k: nat :: Usable(c, m, k) && !Falls(c, m, k)
    ensures var r := Probe(c, m);
            r.Located? || (r.Failed? && (r.reason == FirstPassContact || r.reason == Stalled || r.reason == Envelope))
  {
    ProbeEndsAsSaid(c, m);
    hide Probe, ZAt, FloorZ, Falls, StalledBy, Ratios;
    GoodEndings(c, m, Probe(c, m));
  }

  lemma GoodEndings(c: Config, m: Machine, r: Outcome)
    requires EndsAsSaid(c, m, r) && forall k: nat :: Usable(c, m, k) && !Falls(c, m, k)
    ensures r.Located? || (r.Failed? && (r.reason == FirstPassContact || r.reason == Stalled || r.reason == Envelope))
  {
    hide ZAt, Falls, StalledBy, Ratios;
    if r.Failed? {
      assert Usable(c, m, r.passes);
      if r.passes >= 1 { assert Usable(c, m, r.passes - 1) && !Falls(c, m, r.passes - 1); }
    }
  }

  // ----- the temperature covariate -----

  function TempWidenFactor(staged: real, current: real): real {
    var deviation := Abs(current - staged);
    if deviation <= TEMP_BAND_C then 0.0 else Min(TEMP_WIDEN_CAP, TEMP_WIDEN_PER_C * (deviation - TEMP_BAND_C))
  }

  /** No widening within fifteen degrees, two percent a degree beyond, half at forty degrees and more. */
  lemma WideningCases(staged: real, current: real)
    ensures var d := Abs(current - staged);
            TempWidenFactor(staged, current) == if d <= 15.0 then 0.0 else if d >= 40.0 then 0.5 else 0.02 * (d - 15.0)
  {
  }

  /** Widening never narrows and never more than halves again; a pass clean unwidened stays clean; more drift, more widening. */
  lemma WideningOnlySuppresses(staged: real, current: real, further: real, noiseFloor: real, multiplier: real, peak: real)
    requires noiseFloor > 0.0 && multiplier > 0.0 && Abs(further - staged) >= Abs(current - staged)
    ensures var threshold := noiseFloor * (1.0 + TempWidenFactor(staged, current)) * multiplier;
            && noiseFloor * multiplier <= threshold <= 1.5 * (noiseFloor * multiplier)
            && (peak > threshold ==> peak > noiseFloor * multiplier)
    ensures TempWidenFactor(staged, current) <= TempWidenFactor(staged, further)
    ensures TempWidenFactor(staged, current) == TempWidenFactor(current, staged)
  {
    var w, base := TempWidenFactor(staged, current), noiseFloor * multiplier;
    MulPos(noiseFloor, multiplier);
    MulNonneg(base, w);
    MulLe(w, 0.5, base);
    assert noiseFloor * (1.0 + w) * multiplier == base + base * w;
  }
}
