/** Widening a 32-bit counter to a monotone 64-bit one, one reading at a time. */
module Clock {
  import opened Model

  const WRAP: nat := 0x1_0000_0000
  const HALF: nat := 0x8000_0000

  datatype SeqKind = First | Advanced(delta: nat) | Unchanged | Regressed(apparentBackstep: nat)

  datatype SeqUpdate = SeqUpdate(widened: nat, kind: SeqKind)

  datatype WidenerState = WidenerState(lastRaw: nat, widened: nat)

  function WrappingSub(a: nat, b: nat): (d: nat)
    requires a < WRAP && b < WRAP
    ensures d < WRAP && (b + d) % WRAP == a
  {
    if a >= b then a - b else a + WRAP - b
  }

  function SaturatingAdd(a: nat, b: nat): nat {
    if a + b > U64_MAX then U64_MAX else a + b
  }

  function KindOfDelta(delta: nat): SeqKind
    requires delta < WRAP
  {
    if delta == 0 then Unchanged else if delta < HALF then Advanced(delta) else Regressed(WRAP - delta)
  }

  /** The state after one more reading. */
  function Observed(s: Option<WidenerState>, raw: nat): WidenerState
    requires s.Some? ==> s.value.lastRaw < WRAP
  {
    var low := raw % WRAP;
    if s.None? then WidenerState(low, low)
    else
      var delta := WrappingSub(low, s.value.lastRaw);
      WidenerState(low, if delta < HALF then SaturatingAdd(s.value.widened, delta) else s.value.widened)
  }

  class ReceiveSeqWidener {
    var state: Option<WidenerState>

    ghost predicate Valid()
      reads this
    {
      state.Some? ==> state.value.lastRaw < WRAP && state.value.widened <= U64_MAX
    }

    constructor ()
      ensures Valid() && state == None
    {
      state := None;
    }

    method Observe(raw: nat) returns (u: SeqUpdate)
      requires Valid() && raw <= U64_MAX
      modifies this
      ensures Valid() && state == Some(Observed(old(state), raw)) && u.widened == state.value.widened
      ensures u.kind == if old(state).None? then First else KindOfDelta(WrappingSub(raw % WRAP, old(state).value.lastRaw))
    {
      var low := raw % WRAP;
      if state.None? {
        state := Some(WidenerState(low, low));
        return SeqUpdate(low, First);
      }
      var delta := WrappingSub(low, state.value.lastRaw);
      var kind := Unchanged;
      var widened := state.value.widened;
      if delta == 0 {
        kind := Unchanged;
      } else if delta < HALF {
        widened := SaturatingAdd(widened, delta);
        kind := Advanced(delta);
      } else {
        kind := Regressed(WRAP - delta);
      }
      state := Some(WidenerState(low, widened));
      return SeqUpdate(widened, kind);
    }
  }

  // ----- sequences of readings -----

  /** The state after the first n readings. */
  function After(readings: seq<nat>, n: nat): (s: WidenerState)
    requires 1 <= n <= |readings|
    ensures s.lastRaw == readings[n - 1] % WRAP && s.lastRaw < WRAP
  {
    if n == 1 then Observed(None, readings[0]) else Observed(Some(After(readings, n - 1)), readings[n - 1])
  }

  /** Whatever is read, the widened counter never decreases and stays within 64 bits. */
  lemma {:induction false} NeverDecreases(readings: seq<nat>, i: nat, j: nat)
    requires 1 <= i <= j <= |readings|
    ensures After(readings, i).widened <= After(readings, j).widened <= U64_MAX
    decreases j
  {
    if j > 1 {
      NeverDecreases(readings, if i < j then i else j - 1, j - 1);
    }
  }

  /** A true counter that advances by less than 2^31 between readings. */
  predicate AdvancesSlowly(counts: seq<nat>) {
    forall k | 0 <= k < |counts| - 1 :: counts[k] <= counts[k + 1] < counts[k] + HALF
  }

  lemma SmallAdvance(c: nat, d: nat)
    requires c <= d < c + HALF
    ensures WrappingSub(d % WRAP, c % WRAP) == d - c
  {
    var q, r := c / WRAP, c % WRAP;
    var e := r + (d - c);
    assert d == q * WRAP + e;
    if e < WRAP {
      assert d % WRAP == e;
    } else {
      assert d == (q + 1) * WRAP + (e - WRAP);
      assert d % WRAP == e - WRAP;
    }
  }

  /** A true advance of less than 2^31 is reported with its size, and no advance as none. */
  lemma AdvanceIsReported(c: nat, d: nat, s: WidenerState)
    requires c <= d < c + HALF && s.lastRaw == c % WRAP
    ensures KindOfDelta(WrappingSub(d % WRAP, s.lastRaw)) == if c == d then Unchanged else Advanced(d - c)
    ensures Observed(Some(s), d).widened == if s.widened + (d - c) > U64_MAX then U64_MAX else s.widened + (d - c)
  {
    SmallAdvance(c, d);
  }

  /** Across any number of 32-bit wraps, widened minus true stays what it was at the first reading. */
  lemma {:induction false} TracksTheTrueCounter(counts: seq<nat>, n: nat)
    requires 1 <= n <= |counts| && AdvancesSlowly(counts) && counts[n - 1] <= U64_MAX
    ensures After(counts, n).widened as int - counts[n - 1] as int == (counts[0] % WRAP) as int - counts[0] as int
  {
    if n > 1 {
      assert counts[n - 2] <= counts[n - 2 + 1] < counts[n - 2] + HALF;
      TracksTheTrueCounter(counts, n - 1);
      SmallAdvance(counts[n - 2], counts[n - 1]);
    }
  }

  /** A true step back of at most 2^31 is reported as a regression of that size, and the widened value holds. */
  lemma RegressionIsReported(c: nat, d: nat, s: WidenerState)
    requires d < c <= d + HALF && s.lastRaw == c % WRAP
    ensures KindOfDelta(WrappingSub(d % WRAP, s.lastRaw)) == Regressed(c - d)
    ensures Observed(Some(s), d).widened == s.widened
  {
    var q, r := d / WRAP, d % WRAP;
    var e := r + (c - d);
    if e < WRAP {
      assert c == q * WRAP + e;
      assert c % WRAP == e;
    } else {
      assert c == (q + 1) * WRAP + (e - WRAP);
      assert c % WRAP == e - WRAP;
    }
  }

  /** The bound is sharp: a true advance of 2^31 is taken for a step back, and is lost. */
  lemma AdvanceOfHalfIsLost(c: nat, s: WidenerState)
    requires s.lastRaw == c % WRAP
    ensures KindOfDelta(WrappingSub((c + HALF) % WRAP, s.lastRaw)) == Regressed(HALF)
    ensures Observed(Some(s), c + HALF).widened == s.widened
  {
    RegressedByHalf(c % WRAP);
    var q, r := c / WRAP, c % WRAP;
    if r < HALF {
      assert (c + HALF) % WRAP == r + HALF;
    } else {
      assert c + HALF == (q + 1) * WRAP + (r - HALF);
      assert (c + HALF) % WRAP == r - HALF;
    }
  }

  lemma RegressedByHalf(r: nat)
    requires r < WRAP
    ensures WrappingSub(if r < HALF then r + HALF else r - HALF, r) == HALF
  {
  }
}
