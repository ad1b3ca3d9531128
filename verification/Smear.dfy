/**
 Leap-second smearing: the window that the daemon publishes (fbclock/daemon/daemon.go) and the
 uint64 arithmetic with which the client spreads one second over it (fbclock/fbclock.c).
 */
module Smear {
  import opened Words

  const SMEAR_STEP_NS: int := 65000
  const NS_PER_S: int := 1000000000
  const UTC_TAI_OFFSET_NS: int := -37000000000

  /** The part of the shared record that the conversion to UTC reads. */
  datatype SmearData = SmearData(startS: uint64, endS: uint64, preS: int32, postS: int32)

  // ----- the client's arithmetic ------------------------------------------------------------

  /** `fbclock_apply_smear`: every operation wraps at 2^64. */
  function ApplySmear(time: uint64, preNs: uint64, postNs: uint64, startNs: uint64, endNs: uint64,
                      multiplier: int32): uint64 {
    if time > endNs then WrapUint64(time - postNs)
    else if time < startNs then WrapUint64(time - preNs)
    else
      var smear := WrapUint64(WrapUint64(multiplier) * (WrapUint64(time - startNs) / SMEAR_STEP_NS));
      WrapUint64(time - WrapUint64(preNs + smear))
  }

  /** The same smear on unbounded signed integers. */
  function Smeared(t: int, pre: int, post: int, start: int, end: int, m: int): int {
    if t > end then t - post
    else if t < start then t - pre
    else t - pre - m * ((t - start) / SMEAR_STEP_NS)
  }

  lemma WrapShift(x: int, k: int)
    ensures WrapUint64(x + TWO_POW_64 * k) == WrapUint64(x)
  {
    ModUnique(x + TWO_POW_64 * k, TWO_POW_64, x / TWO_POW_64 + k, x % TWO_POW_64);
  }

  lemma WrapOnce(x: int)
    ensures 0 <= x < TWO_POW_64 ==> WrapUint64(x) == x
    ensures -TWO_POW_64 <= x < 0 ==> WrapUint64(x) == x + TWO_POW_64
    ensures TWO_POW_64 <= x < 2 * TWO_POW_64 ==> WrapUint64(x) == x - TWO_POW_64
  {
  }

  /** A factor may be reduced before multiplying. */
  lemma WrapProduct(m: int, q: int)
    ensures WrapUint64(WrapUint64(m) * q) == WrapUint64(m * q)
  {
    var k := m / TWO_POW_64;
    var w := WrapUint64(m);
    assert m == TWO_POW_64 * k + w;
    assert m * q == w * q + TWO_POW_64 * (k * q) by {
      Distribute(TWO_POW_64, k, w, q);
    }
    hide WrapUint64;
    WrapShift(w * q, k * q);
  }

  lemma Distribute(a: int, k: int, w: int, q: int)
    ensures (a * k + w) * q == w * q + a * (k * q)
  {
  }

  lemma WrapDifference(t: int, p: int, s: int)
    ensures WrapUint64(t - WrapUint64(p + WrapUint64(s))) == WrapUint64(t - p - s)
  {
    var k1 := s / TWO_POW_64;
    var u := WrapUint64(s);
    var k2 := (p + u) / TWO_POW_64;
    assert s == TWO_POW_64 * k1 + u;
    assert p + u == TWO_POW_64 * k2 + WrapUint64(p + u);
    assert t - WrapUint64(p + u) == (t - p - s) + TWO_POW_64 * (k1 + k2);
    WrapShift(t - p - s, k1 + k2);
  }

  /** Wraparound does not matter: for every uint64 input the result is the signed one modulo 2^64. */
  lemma WraparoundAgrees(time: uint64, preNs: uint64, postNs: uint64, startNs: uint64, endNs: uint64, multiplier: int32)
    ensures ApplySmear(time, preNs, postNs, startNs, endNs, multiplier) ==
            WrapUint64(Smeared(time, preNs, postNs, startNs, endNs, multiplier))
  {
    if startNs <= time <= endNs {
      assert WrapUint64(time - startNs) == time - startNs;
      var q := (time - startNs) / SMEAR_STEP_NS;
      hide WrapUint64;
      WrapProduct(multiplier, q);
      WrapDifference(time, preNs, multiplier * q);
    }
  }

  /** `fbclock_apply_utc_offset`. */
  function ApplyUtcOffset(d: SmearData, phc: int64): uint64
    requires Convertible(d)
  {
    if d.preS == 0 && d.postS == 0 then WrapUint64(phc + UTC_TAI_OFFSET_NS)
    else ApplySmear(WrapUint64(phc), d.preS * NS_PER_S, d.postS * NS_PER_S,
                    d.startS * NS_PER_S, d.endS * NS_PER_S, d.postS - d.preS)
  }

  /** Products with 1e9 must fit uint64 and be nonnegative, or the conversion in C is undefined. */
  predicate Convertible(d: SmearData) {
    0 <= d.preS && 0 <= d.postS && d.startS * NS_PER_S < TWO_POW_64 && d.endS * NS_PER_S < TWO_POW_64
  }

  function Utc(d: SmearData, t: int): int {
    if d.preS == 0 && d.postS == 0 then t + UTC_TAI_OFFSET_NS
    else Smeared(t, d.preS * NS_PER_S, d.postS * NS_PER_S, d.startS * NS_PER_S, d.endS * NS_PER_S, d.postS - d.preS)
  }

  /** The offset in force after the leap. */
  function FinalOffset(d: SmearData): int {
    if d.preS == 0 && d.postS == 0 then -UTC_TAI_OFFSET_NS else d.postS * NS_PER_S
  }

  /**
   The C function computes UTC for every TAI instant, positive and negative leaps alike. A negative PHC
   time is taken for one after the leap, since it is compared as uint64.
   */
  lemma UtcAgrees(d: SmearData, phc: int64)
    requires Convertible(d)
    ensures ApplyUtcOffset(d, phc) == WrapUint64(Utc(d, WrapUint64(phc)))
    ensures phc >= 0 && 0 <= Utc(d, phc) < TWO_POW_64 ==> ApplyUtcOffset(d, phc) == Utc(d, phc)
    ensures phc < 0 && d.endS * NS_PER_S <= MAX_INT64 ==> ApplyUtcOffset(d, phc) == WrapUint64(phc - FinalOffset(d))
  {
    hide WrapUint64, ApplySmear, Smeared;
    var t := WrapUint64(phc);
    WrapOnce(phc);
    WrapOnce(Utc(d, phc));
    WrapShift(phc - FinalOffset(d), 1);
    LateUtc(d, phc + TWO_POW_64);
    if d.preS != 0 || d.postS != 0 {
      WraparoundAgrees(t, d.preS * NS_PER_S, d.postS * NS_PER_S, d.startS * NS_PER_S, d.endS * NS_PER_S, d.postS - d.preS);
    }
  }

  lemma LateUtc(d: SmearData, t: int)
    ensures t > d.endS * NS_PER_S ==> Utc(d, t) == t - FinalOffset(d)
  {
  }

  // ----- when smeared time runs backwards ---------------------------------------------------

  ghost predicate OrderPreserving(pre: int, post: int, start: int, end: int, m: int) {
    forall s: nat, t: nat :: s <= t ==> Smeared(s, pre, post, start, end, m) <= Smeared(t, pre, post, start, end, m)
  }

  /** The whole condition, on the leap and the length of the window only. */
  predicate Gentle(m: int, window: nat) {
    m <= 1 && m * (NS_PER_S - window / SMEAR_STEP_NS) <= 1
  }

  lemma InsideWindow(s: int, t: int, start: int, m: int)
    requires start <= s <= t && m <= 1
    ensures s - m * ((s - start) / SMEAR_STEP_NS) <= t - m * ((t - start) / SMEAR_STEP_NS)
  {
    var a, b := (s - start) / SMEAR_STEP_NS, (t - start) / SMEAR_STEP_NS;
    assert a <= b && b - a <= t - s;
    var d := b - a;
    assert m * b - m * a == m * d;
    assert m <= 0 ==> m * d <= 0;
    assert m == 1 ==> m * d == d;
  }

  lemma OrderedPair(pre: int, start: int, end: int, m: int, s: int, t: int)
    requires start <= end && Gentle(m, end - start) && s <= t
    ensures Smeared(s, pre, pre + m * NS_PER_S, start, end, m) <= Smeared(t, pre, pre + m * NS_PER_S, start, end, m)
  {
    var f := (end - start) / SMEAR_STEP_NS;
    assert m * (NS_PER_S - f) == m * NS_PER_S - m * f;
    var lo := if s < start then start else s;
    var hi := if t > end then end else t;
    assert m * ((start - start) / SMEAR_STEP_NS) == 0;
    if lo <= hi {
      InsideWindow(lo, hi, start, m);
    }
  }

  lemma BackwardAtEnd(pre: int, start: nat, end: nat, m: int)
    requires start <= end && m * (NS_PER_S - (end - start) / SMEAR_STEP_NS) > 1
    ensures Smeared(end, pre, pre + m * NS_PER_S, start, end, m) >
            Smeared(end + 1, pre, pre + m * NS_PER_S, start, end, m)
  {
    var f := (end - start) / SMEAR_STEP_NS;
    assert m * (NS_PER_S - f) == m * NS_PER_S - m * f;
  }

  lemma BackwardInside(pre: int, start: nat, end: nat, m: int)
    requires m >= 2 && end - start >= SMEAR_STEP_NS
    ensures Smeared(start + SMEAR_STEP_NS - 1, pre, pre + m * NS_PER_S, start, end, m) >
            Smeared(start + SMEAR_STEP_NS, pre, pre + m * NS_PER_S, start, end, m)
  {
  }

  /** UTC never runs backwards if and only if the leap is at most one second and the window is long enough. */
  lemma OrderPreservingIff(pre: int, start: nat, end: nat, m: int)
    requires start <= end
    ensures OrderPreserving(pre, pre + m * NS_PER_S, start, end, m) <==> Gentle(m, end - start)
  {
    var post := pre + m * NS_PER_S;
    if Gentle(m, end - start) {
      forall s: nat, t: nat | s <= t
        ensures Smeared(s, pre, post, start, end, m) <= Smeared(t, pre, post, start, end, m)
      {
        OrderedPair(pre, start, end, m, s, t);
      }
    } else if m * (NS_PER_S - (end - start) / SMEAR_STEP_NS) > 1 {
      BackwardAtEnd(pre, start, end, m);
      hide Smeared;
      assert !(Smeared(end, pre, post, start, end, m) <= Smeared(end + 1, pre, post, start, end, m));
    } else {
      LargeLeap(m, end - start);
      BackwardInside(pre, start, end, m);
      hide Smeared;
      var t := start + SMEAR_STEP_NS;
      assert !(Smeared(t - 1, pre, post, start, end, m) <= Smeared(t, pre, post, start, end, m));
    }
  }

  lemma LargeLeap(m: int, window: nat)
    requires m >= 2 && m * (NS_PER_S - window / SMEAR_STEP_NS) <= 1
    ensures window >= SMEAR_STEP_NS
  {
    var k := NS_PER_S - window / SMEAR_STEP_NS;
    assert k >= 1 ==> m * k >= 2;
  }

  /** For a positive leap second: order is kept exactly when the window has room for 10^9 - 1 steps. */
  lemma PositiveLeap(window: nat)
    ensures Gentle(1, window) <==> window / SMEAR_STEP_NS >= NS_PER_S - 1
    ensures Gentle(1, 65000 * NS_PER_S) && !Gentle(1, 62500 * NS_PER_S)
  {
  }

  // ----- the order of what the client computes ----------------------------------------------

  ghost predicate OrderedFrom(d: SmearData, first: int)
    requires Convertible(d)
  {
    forall s: int64, t: int64 :: first <= s <= t ==> ApplyUtcOffset(d, s) <= ApplyUtcOffset(d, t)
  }

  /** The window lies after both offsets and ends while the PHC still counts. */
  predicate Located(d: SmearData) {
    && Convertible(d) && d.preS <= d.startS && d.postS <= d.startS <= d.endS
    && d.endS * NS_PER_S < MAX_INT64
  }

  predicate Leaps(d: SmearData) {
    d.preS != 0 || d.postS != 0
  }

  predicate GentleWindow(d: SmearData)
    requires d.startS <= d.endS
  {
    Gentle(d.postS - d.preS, (d.endS - d.startS) * NS_PER_S)
  }

  lemma UtcOrdered(d: SmearData, s: int, t: int)
    requires Located(d) && Leaps(d) && GentleWindow(d) && s <= t
    ensures Utc(d, s) <= Utc(d, t)
  {
    hide Gentle, Smeared;
    OrderedPair(d.preS * NS_PER_S, d.startS * NS_PER_S, d.endS * NS_PER_S, d.postS - d.preS, s, t);
  }

  /** Both instants are before the end of the window, or both after it. */
  predicate OneSide(d: SmearData, s: int, t: int) {
    t <= d.endS * NS_PER_S || s > d.endS * NS_PER_S
  }

  /**
   How much less than TAI the smear of at most one second advances on one side of the end of its window,
   whatever its length: one nanosecond in 65000, rounded up.
   */
  lemma SideLoss(d: SmearData, s: int, t: int)
    requires Located(d) && Leaps(d) && d.postS - d.preS <= 1 && s <= t && OneSide(d, s, t)
    ensures var loss := t - s - (Utc(d, t) - Utc(d, s));
            loss <= t - s && SMEAR_STEP_NS * (loss - 1) < t - s
  {
    var m, start, end := d.postS - d.preS, d.startS * NS_PER_S, d.endS * NS_PER_S;
    if s < start <= t <= end {
      LossInside(m, start, start, t);
    } else if start <= s && t <= end {
      LossInside(m, start, s, t);
    }
  }

  /** The two instants do not have the end of a window between them that is not gentle. */
  predicate Smooth(d: SmearData, s: int, t: int)
    requires d.startS <= d.endS
  {
    GentleWindow(d) || (d.postS - d.preS <= 1 && OneSide(d, s, t))
  }

  /** Across the end of a gentle window the loss is at most one nanosecond more. */
  lemma SmearLoss(d: SmearData, s: int, t: int)
    requires Located(d) && Leaps(d) && s <= t && Smooth(d, s, t)
    ensures var loss := t - s - (Utc(d, t) - Utc(d, s));
            loss <= t - s && SMEAR_STEP_NS * (loss - 2) <= t - s
  {
    if OneSide(d, s, t) {
      hide Utc;
      SideLoss(d, s, t);
    } else {
      UtcOrdered(d, s, t);
      var m, start, end := d.postS - d.preS, d.startS * NS_PER_S, d.endS * NS_PER_S;
      var whole := (end - start) / SMEAR_STEP_NS;
      assert m * (NS_PER_S - whole) <= 1;
      LossPast(m, start, end, whole, if s < start then start else s);
    }
  }

  /** By how much UTC falls in the first nanosecond after the window. */
  function Drop(d: SmearData): int {
    (d.postS - d.preS) * (NS_PER_S - (d.endS * NS_PER_S - d.startS * NS_PER_S) / SMEAR_STEP_NS) - 1
  }

  lemma DropAtEnd(d: SmearData)
    requires Located(d) && Leaps(d)
    ensures var end := d.endS * NS_PER_S;
            Utc(d, end) - Utc(d, end + 1) == Drop(d)
    ensures d.postS - d.preS <= 1 ==> (Drop(d) <= 0 <==> GentleWindow(d))
  {
    var m, f := d.postS - d.preS, (d.endS * NS_PER_S - d.startS * NS_PER_S) / SMEAR_STEP_NS;
    assert m * (NS_PER_S - f) == m * NS_PER_S - m * f;
    assert (d.endS - d.startS) * NS_PER_S == d.endS * NS_PER_S - d.startS * NS_PER_S;
  }

  /** UTC stays where it is from `s` to the next nanosecond: a tick of the smear, or the last one at the end. */
  predicate StandsStill(d: SmearData, s: int) {
    var start, end, m := d.startS * NS_PER_S, d.endS * NS_PER_S, d.postS - d.preS;
    var steps := (end - start) / SMEAR_STEP_NS;
    || (m == 1 && start < s + 1 <= end && (s + 1 - start) % SMEAR_STEP_NS == 0)
    || (s == end && ((m == 1 && steps == NS_PER_S - 1) || (m == -1 && steps == NS_PER_S + 1)))
  }

  lemma StandsStillIff(d: SmearData, s: int)
    requires Located(d) && Leaps(d) && d.postS - d.preS <= 1
    ensures Utc(d, s + 1) == Utc(d, s) <==> StandsStill(d, s)
    ensures Utc(d, s + 1) < Utc(d, s) <==> s == d.endS * NS_PER_S && !GentleWindow(d)
  {
    var m, start, end := d.postS - d.preS, d.startS * NS_PER_S, d.endS * NS_PER_S;
    if s == end {
      DropAtEnd(d);
      UnitProduct(m, NS_PER_S - (end - start) / SMEAR_STEP_NS);
    } else {
      assert OneSide(d, s, s + 1);
      SideLoss(d, s, s + 1);
      if start <= s < end {
        NextStep(s - start);
        var a := (s - start) / SMEAR_STEP_NS;
        assert m * (a + 1) == m * a + m;
      }
    }
  }

  lemma NextStep(x: nat)
    ensures (x + 1) / SMEAR_STEP_NS == x / SMEAR_STEP_NS + if (x + 1) % SMEAR_STEP_NS == 0 then 1 else 0
  {
  }

  lemma UnitProduct(a: int, b: int)
    ensures a * b == 1 <==> (a == 1 && b == 1) || (a == -1 && b == -1)
  {
    assert a >= 2 ==> b <= 0 || a * b >= 2;
    assert a <= -2 ==> b >= 0 || a * b >= 2;
    assert a >= 1 && b <= 0 ==> a * b <= 0;
    assert a <= -1 && b >= 0 ==> a * b <= 0;
  }

  lemma LossInside(m: int, start: int, s: int, t: int)
    requires m <= 1 && start <= s <= t
    ensures var loss := m * ((t - start) / SMEAR_STEP_NS) - m * ((s - start) / SMEAR_STEP_NS);
            loss <= t - s && SMEAR_STEP_NS * (loss - 1) < t - s
  {
    var a, b := (s - start) / SMEAR_STEP_NS, (t - start) / SMEAR_STEP_NS;
    assert a <= b && SMEAR_STEP_NS * (b - a - 1) < t - s;
    assert m * b - m * a == m * (b - a);
    assert m <= 0 ==> m * (b - a) <= 0;
  }

  lemma LossPast(m: int, start: int, end: int, whole: int, s: int)
    requires m <= 1 && start <= s <= end && whole == (end - start) / SMEAR_STEP_NS && m * (NS_PER_S - whole) <= 1
    ensures SMEAR_STEP_NS * (m * NS_PER_S - m * ((s - start) / SMEAR_STEP_NS) - 2) <= end - s + 1
  {
    var a := (s - start) / SMEAR_STEP_NS;
    assert m * NS_PER_S - m * a == m * (NS_PER_S - whole) + m * (whole - a);
    assert m <= 0 ==> m * (whole - a) <= 0;
  }

  /** Windows in which UTC stays between zero and 2^64: gentle ones, and any for a leap forward. */
  predicate Tame(d: SmearData)
    requires d.startS <= d.endS
  {
    GentleWindow(d) || 0 <= d.postS - d.preS <= SMEAR_STEP_NS
  }

  /** From the first instant with a nonnegative UTC on, nothing wraps. */
  lemma UtcInRange(d: SmearData, t: int64)
    requires Located(d) && Leaps(d) && Tame(d) && d.preS * NS_PER_S <= t
    ensures 0 <= Utc(d, t) < TWO_POW_64 && ApplyUtcOffset(d, t) == Utc(d, t)
  {
    hide ApplyUtcOffset;
    if GentleWindow(d) {
      GentleInRange(d, t);
    } else {
      ForwardInRange(d, t);
    }
    hide Utc;
    UtcAgrees(d, t);
  }

  lemma GentleInRange(d: SmearData, t: int64)
    requires Located(d) && Leaps(d) && GentleWindow(d) && d.preS * NS_PER_S <= t
    ensures 0 <= Utc(d, t) < TWO_POW_64
  {
    hide Utc, GentleWindow;
    var first, last := d.preS * NS_PER_S, d.endS * NS_PER_S + 1;
    StartUtc(d);
    LateUtc(d, last);
    UtcOrdered(d, first, t);
    if t < last {
      UtcOrdered(d, t, last);
    } else {
      LateUtc(d, t);
    }
  }

  lemma ForwardInRange(d: SmearData, t: int64)
    requires Located(d) && Leaps(d) && 0 <= d.postS - d.preS <= SMEAR_STEP_NS && d.preS * NS_PER_S <= t
    ensures 0 <= Utc(d, t) < TWO_POW_64
  {
    var m, start := d.postS - d.preS, d.startS * NS_PER_S;
    if start <= t <= d.endS * NS_PER_S {
      SmallSmear(m, t - start);
    }
  }

  lemma SmallSmear(m: int, x: nat)
    requires 0 <= m <= SMEAR_STEP_NS
    ensures 0 <= m * (x / SMEAR_STEP_NS) <= x
  {
    var q := x / SMEAR_STEP_NS;
    SmallProduct(m, q);
  }

  lemma SmallProduct(m: int, q: nat)
    requires 0 <= m <= SMEAR_STEP_NS
    ensures 0 <= m * q <= SMEAR_STEP_NS * q
  {
    assert (SMEAR_STEP_NS - m) * q >= 0;
  }

  /** A step of a negative leap past 2^64. */
  lemma {:induction false} Crossing(d: SmearData, t: int) returns (u: int)
    requires Located(d) && Leaps(d) && d.startS * NS_PER_S < t <= d.endS * NS_PER_S
    requires Utc(d, t) >= TWO_POW_64
    ensures d.startS * NS_PER_S < u <= t && Utc(d, u - 1) < TWO_POW_64 <= Utc(d, u)
    decreases t
  {
    var start := d.startS * NS_PER_S;
    StartUtc(d);
    hide Utc;
    if Utc(d, t - 1) < TWO_POW_64 {
      u := t;
    } else {
      u := Crossing(d, t - 1);
    }
  }

  lemma StepInside(d: SmearData, u: int)
    requires Located(d) && Leaps(d) && d.startS * NS_PER_S < u <= d.endS * NS_PER_S
    ensures Utc(d, u) - Utc(d, u - 1) <= 1 + Abs(d.postS - d.preS)
  {
    var a, b := (u - 1 - d.startS * NS_PER_S) / SMEAR_STEP_NS, (u - d.startS * NS_PER_S) / SMEAR_STEP_NS;
    assert b == a || b == a + 1;
    var m := d.postS - d.preS;
    assert m * (a + 1) == m * a + m;
  }

  lemma StartUtc(d: SmearData)
    requires Located(d) && Leaps(d)
    ensures Utc(d, d.startS * NS_PER_S) == (d.startS - d.preS) * NS_PER_S
    ensures Utc(d, d.preS * NS_PER_S) == 0
    ensures d.preS > 0 ==> Utc(d, d.preS * NS_PER_S - 1) == -1
  {
  }

  lemma FirstStep(d: SmearData)
    requires Located(d) && Leaps(d) && d.endS * NS_PER_S >= d.startS * NS_PER_S + SMEAR_STEP_NS && d.postS >= d.preS + 2
    ensures var s := d.startS * NS_PER_S + SMEAR_STEP_NS - 1;
            0 <= Utc(d, s + 1) < Utc(d, s) < TWO_POW_64
  {
  }

  /** A window of the wrong length shows at its end, or where a negative leap passes 2^64. */
  lemma BackwardLate(d: SmearData) returns (s: int64)
    requires Located(d) && Leaps(d)
    requires (d.postS - d.preS) * (NS_PER_S - (d.endS - d.startS) * NS_PER_S / SMEAR_STEP_NS) > 1
    ensures d.startS * NS_PER_S <= s < MAX_INT64
    ensures ApplyUtcOffset(d, s) > ApplyUtcOffset(d, s + 1)
  {
    var m, start, end := d.postS - d.preS, d.startS * NS_PER_S, d.endS * NS_PER_S;
    assert end - start == (d.endS - d.startS) * NS_PER_S;
    BackwardAtEnd(d.preS * NS_PER_S, start, end, m);
    LateUtc(d, end + 1);
    StartUtc(d);
    hide Smeared, ApplyUtcOffset;
    s := end;
    if Utc(d, end) >= TWO_POW_64 {
      hide Utc;
      var u := Crossing(d, end);
      StepInside(d, u);
      s := u - 1;
    }
    BackwardOnWire(d, s);
  }

  /** A window that is not gentle shows: some later instant gets an earlier UTC. */
  lemma BackwardSomewhere(d: SmearData) returns (s: int64)
    requires Located(d) && Leaps(d) && !GentleWindow(d)
    ensures d.startS * NS_PER_S <= s < MAX_INT64
    ensures ApplyUtcOffset(d, s) > ApplyUtcOffset(d, s + 1)
  {
    var m, window := d.postS - d.preS, (d.endS - d.startS) * NS_PER_S;
    hide Utc, ApplyUtcOffset;
    if m * (NS_PER_S - window / SMEAR_STEP_NS) <= 1 {
      LargeLeap(m, window);
      FirstStep(d);
      s := d.startS * NS_PER_S + SMEAR_STEP_NS - 1;
      BackwardOnWire(d, s);
    } else {
      s := BackwardLate(d);
    }
  }

  /** UTC that decreases, or passes 2^64 by a small step, decreases as uint64. */
  lemma BackwardOnWire(d: SmearData, s: int64)
    requires Convertible(d) && 0 <= s < MAX_INT64
    requires var a, b := Utc(d, s), Utc(d, s + 1);
             0 <= b < a < TWO_POW_64 || (a < TWO_POW_64 <= b && b - a <= TWO_POW_64 / 2)
    ensures ApplyUtcOffset(d, s) > ApplyUtcOffset(d, s + 1)
  {
    hide Utc, ApplyUtcOffset, WrapUint64;
    UtcAgrees(d, s);
    UtcAgrees(d, s + 1);
    WrapOnce(s);
    WrapOnce(s + 1);
    WrapOnce(Utc(d, s + 1));
  }

  /**
   The client's UTC, on uint64 and for int64 PHC times, never runs backwards from `first` on if and only
   if the window is gentle and UTC is not negative at `first`.
   */
  lemma OrderedIff(d: SmearData, first: int)
    requires Located(d) && Leaps(d) && first <= d.startS * NS_PER_S
    ensures OrderedFrom(d, first) <==> GentleWindow(d) && first >= d.preS * NS_PER_S
  {
    hide Utc, ApplyUtcOffset, GentleWindow;
    if !GentleWindow(d) {
      var s := BackwardSomewhere(d);
      assert !(ApplyUtcOffset(d, s) <= ApplyUtcOffset(d, s + 1));
    } else if first < d.preS * NS_PER_S {
      WrappedBelow(d);
      var t: int64 := d.preS * NS_PER_S;
      assert !(ApplyUtcOffset(d, t - 1) <= ApplyUtcOffset(d, t));
    } else {
      forall s: int64, t: int64 | first <= s <= t
        ensures ApplyUtcOffset(d, s) <= ApplyUtcOffset(d, t)
      {
        UtcInRange(d, s);
        UtcInRange(d, t);
        UtcOrdered(d, s, t);
      }
    }
  }

  /** One nanosecond before the first nonnegative UTC the result wraps. */
  lemma WrappedBelow(d: SmearData)
    requires Located(d) && Leaps(d)
    ensures var t := d.preS * NS_PER_S;
            ApplyUtcOffset(d, t - 1) > 0 && ApplyUtcOffset(d, t) == 0
  {
    var t := d.preS * NS_PER_S;
    StartUtc(d);
    hide Utc, ApplyUtcOffset, WrapUint64;
    UtcAgrees(d, t);
    UtcAgrees(d, t - 1);
    WrapOnce(t - 1);
    WrapOnce(-1);
    WrapOnce(-1 - FinalOffset(d));
  }

  /** Without leap seconds the fixed offset of 37 s is subtracted, and order holds from there on. */
  lemma FixedOffsetOrdered(d: SmearData, first: int)
    requires Convertible(d) && !Leaps(d)
    ensures OrderedFrom(d, first) <==> first >= 37 * NS_PER_S
  {
    if first < 37 * NS_PER_S {
      var t: int64 := 37 * NS_PER_S;
      assert !(ApplyUtcOffset(d, t - 1) <= ApplyUtcOffset(d, t));
    }
  }

  // ----- what the daemon publishes ----------------------------------------------------------

  datatype LeapSecond = LeapSecond(tleap: uint64, nleap: int32)

  const UTC_OFFSET_ORIGINAL_S: int := 10
  const LEAP_DURATION_S: int := 62500

  function WrapInt32(x: int): int32 {
    var u := x % TWO_POW_32;
    if u < TWO_POW_32 / 2 then u else u - TWO_POW_32
  }

  /** `leapSecondSmearing`. */
  function LeapSecondSmearing(leaps: seq<LeapSecond>): SmearData {
    if |leaps| < 2 then SmearData(0, 0, 0, 0)
    else
      var latest, previous := leaps[|leaps| - 1], leaps[|leaps| - 2];
      var pre := WrapInt32(previous.nleap + UTC_OFFSET_ORIGINAL_S);
      var post := WrapInt32(latest.nleap + UTC_OFFSET_ORIGINAL_S);
      var event := WrapUint64(latest.tleap - WrapUint64(latest.nleap) + 1);
      SmearData(WrapUint64(event + WrapUint64(pre)), WrapUint64(event + LEAP_DURATION_S + WrapUint64(pre)), pre, post)
  }

  /** The published window is 62500 s long, unless the clock is about to wrap. */
  lemma PublishedWindow(leaps: seq<LeapSecond>)
    requires |leaps| >= 2
    ensures var d := LeapSecondSmearing(leaps);
            d.startS + LEAP_DURATION_S < TWO_POW_64 ==> d.endS == d.startS + LEAP_DURATION_S
  {
    var latest, previous := leaps[|leaps| - 1], leaps[|leaps| - 2];
    var pre := WrapUint64(WrapInt32(previous.nleap + UTC_OFFSET_ORIGINAL_S));
    var event := WrapUint64(latest.tleap - WrapUint64(latest.nleap) + 1);
    var d := LeapSecondSmearing(leaps);
    var k := (event + pre) / TWO_POW_64;
    assert event + pre == WrapUint64(event + pre) + TWO_POW_64 * k;
    hide WrapUint64, WrapInt32;
    WrapShift(d.startS + LEAP_DURATION_S, k);
    WrapOnce(d.startS + LEAP_DURATION_S);
    assert event + LEAP_DURATION_S + pre == d.startS + LEAP_DURATION_S + TWO_POW_64 * k;
  }

  /**
   The leap table in the terms of RFC 8536: the last leap second takes effect at `midnight` UTC, after
   `nleap - 1` earlier ones. Then the published offsets are 10 s more than the two leap counts, and the
   smear starts when UTC is midnight, still with the old offset.
   */
  lemma PublishedStart(leaps: seq<LeapSecond>, midnight: nat)
    requires |leaps| >= 2
    requires var latest, previous := leaps[|leaps| - 1], leaps[|leaps| - 2];
             && 0 <= previous.nleap < 2000000000 && 0 <= latest.nleap < 2000000000
             && latest.tleap == midnight + latest.nleap - 1
             && midnight + previous.nleap + 10 + LEAP_DURATION_S < TWO_POW_64
    ensures var latest, previous, d := leaps[|leaps| - 1], leaps[|leaps| - 2], LeapSecondSmearing(leaps);
            && d.preS == previous.nleap + 10 && d.postS == latest.nleap + 10
            && d.startS == midnight + d.preS && d.endS == d.startS + 62500
            && Utc(d, d.startS * NS_PER_S) == midnight * NS_PER_S
            && Utc(d, d.startS * NS_PER_S - 1) == midnight * NS_PER_S - 1
            && Utc(d, d.endS * NS_PER_S + 1) == (d.endS - d.postS) * NS_PER_S + 1
  {
    var latest, previous := leaps[|leaps| - 1], leaps[|leaps| - 2];
    var d := LeapSecondSmearing(leaps);
    EventIs(latest, midnight);
    WrapInt32Once(previous.nleap + 10);
    WrapInt32Once(latest.nleap + 10);
    WrapOnce(previous.nleap + 10);
    WrapOnce(midnight + previous.nleap + 10);
    WrapOnce(midnight + LEAP_DURATION_S + (previous.nleap + 10));
    hide WrapUint64, WrapInt32;
    assert d.startS == midnight + d.preS;
    hide LeapSecondSmearing;
  }

  lemma EventIs(latest: LeapSecond, midnight: nat)
    requires 0 <= latest.nleap && latest.tleap == midnight + latest.nleap - 1 && midnight < TWO_POW_64
    ensures WrapUint64(latest.tleap - WrapUint64(latest.nleap) + 1) == midnight
  {
    hide WrapUint64;
    WrapOnce(latest.nleap);
    WrapOnce(midnight);
  }

  lemma WrapInt32Once(x: int)
    requires 0 <= x < TWO_POW_32 / 2
    ensures WrapInt32(x) == x
  {
  }

  /** With fewer than two leap seconds nothing is published, and the client falls back on the fixed offset. */
  lemma NothingPublished(leaps: seq<LeapSecond>, t: int)
    requires |leaps| < 2
    ensures Utc(LeapSecondSmearing(leaps), t) == t - 37 * NS_PER_S
  {
  }

  /**
   With the published window and a positive leap second, the UTC that clients compute goes back by
   38461538 ns in the first nanosecond after the window, and only there.
   */
  lemma PublishedStepBack(leaps: seq<LeapSecond>, s: int64, t: int64)
    requires |leaps| >= 2
    requires var d := LeapSecondSmearing(leaps);
             Convertible(d) && d.preS <= d.startS && d.endS * NS_PER_S < MAX_INT64 && d.postS == d.preS + 1
             && d.startS + LEAP_DURATION_S < TWO_POW_64
    requires LeapSecondSmearing(leaps).preS * NS_PER_S <= s <= t
    ensures var d := LeapSecondSmearing(leaps);
            var last := d.endS * NS_PER_S;
            && ApplyUtcOffset(d, last) - ApplyUtcOffset(d, last + 1) == 38461538
            && (t <= last || s > last ==> ApplyUtcOffset(d, s) <= ApplyUtcOffset(d, t))
  {
    var d := LeapSecondSmearing(leaps);
    PublishedWindow(leaps);
    hide LeapSecondSmearing;
    var last := d.endS * NS_PER_S;
    ShortWindow(d, last, last + 1);
    ShortWindow(d, s, t);
    assert Utc(d, last) - Utc(d, last + 1) == 38461538;
    hide Utc, ApplyUtcOffset;
    UtcAgrees(d, last);
    UtcAgrees(d, last + 1);
    UtcAgrees(d, s);
    UtcAgrees(d, t);
  }

  lemma ShortWindow(d: SmearData, s: int, t: int)
    requires d.endS == d.startS + LEAP_DURATION_S && d.preS <= d.startS && d.postS == d.preS + 1 && d.preS >= 0
    requires d.preS * NS_PER_S <= s <= t <= MAX_INT64 && d.endS * NS_PER_S < MAX_INT64
    ensures 0 <= Utc(d, s) < TWO_POW_64 && 0 <= Utc(d, t) < TWO_POW_64
    ensures t <= d.endS * NS_PER_S || s > d.endS * NS_PER_S ==> Utc(d, s) <= Utc(d, t)
  {
    var start, end := d.startS * NS_PER_S, d.endS * NS_PER_S;
    if start <= s && t <= end {
      InsideWindow(s, t, start, 1);
    } else if s < start <= t <= end {
      InsideWindow(start, t, start, 1);
    }
  }
}
