/**
 What single calls of the PI servo and its filter answer (servo/pi.go), said without the formulas of the
 program: equations that the frequencies solve, and the exact offsets and times at which it decides.
 */
module ServoLaws {
  import opened Words
  import opened Rings
  import opened ServoFilter
  import opened Servo
  import opened ServoRuns

  /** Every int64 but -2^63, whose negation wraps. */
  predicate Proper64(x: int64) {
    x > -MAX_INT64 - 1
  }

  lemma MagnitudeIsAbs(offset: int64)
    ensures Proper64(offset) ==> Magnitude(offset) == Abs(offset)
    ensures !Proper64(offset) ==> Magnitude(offset) == offset
  {
    WrapInt64Once(-(offset as int));
  }

  // ----- the second sample ------------------------------------------------------------------

  /** The time between the samples, in nanoseconds with the margin of 0.1 percent, is enough for the gain. */
  predicate EnoughTime(ki: real, ns: nat) {
    var t := 1.001 * ns as real;
    t >= 1000000000000.0 || t * ki >= 16000000.0
  }

  lemma WaitIsEnough(ki: real, local0: uint64, local1: uint64)
    requires local0 < local1 && ki >= 0.0
    ensures ElapsedWithMargin(local0, local1) >= FreqEstInterval(ki) <==> EnoughTime(ki, local1 - local0)
  {
    var ns := local1 - local0;
    var e := ElapsedWithMargin(local0, local1);
    assert 1000000000.0 * e == 1.001 * ns as real by {
      Elapsed(ns as real);
    }
    hide ElapsedWithMargin;
    if ki > 0.0 {
      Interval(e, ki, 0.016 / ki);
      assert (1000000000.0 * e) * ki == 1000000000.0 * (e * ki);
    }
  }

  lemma Elapsed(ns: real)
    ensures var d := ns / 1000000000.0; 1000000000.0 * (d + d * 0.001) == 1.001 * ns
  {
  }

  lemma Interval(e: real, ki: real, t: real)
    requires ki > 0.0 && t == 0.016 / ki
    ensures e >= t <==> e * ki >= 0.016
  {
    assert t * ki == 0.016;
    assert e >= t ==> e * ki >= t * ki;
    assert e < t ==> e * ki < t * ki;
  }

  /** From the second sample on the servo leaves Init exactly when time has passed, and enough of it. */
  lemma SecondSampleIff(cfg: ServoConfig, s: ServoState, offset: int64, ts: uint64)
    requires s.count == 1 && s.ki >= 0.0
    ensures var o := SampleStep(cfg, s, offset, ts);
            && (o.status != Init <==> s.local0 < ts && EnoughTime(s.ki, ts - s.local0))
            && o.next.count == (if ts <= s.local0 then 0 else if o.status == Init then 1 else 2)
  {
    hide MeasuredDrift, Steps, Accept, EnoughTime, ElapsedWithMargin, FreqEstInterval;
    if s.local0 < ts {
      WaitIsEnough(s.ki, s.local0, ts);
    }
  }

  /** `e` is the frequency at which the offset would have grown as it did between the two samples. */
  predicate Explains(s: ServoState, offset: int64, ts: uint64, e: real)
    requires s.local0 < ts
  {
    (e - s.drift) * (ts - s.local0) as real == (1000000000.0 - s.drift) * (offset as int - s.offset0 as int) as real
  }

  lemma EstimateExplains(s: ServoState, offset: int64, ts: uint64)
    requires s.local0 < ts && FitsInt64(offset as int - s.offset0 as int)
    ensures Explains(s, offset, ts, s.drift + MeasuredDrift(s.drift, s.offset0, offset, s.local0, ts))
  {
    var diff := offset as int - s.offset0 as int;
    WrapInt64Once(diff);
    Quotient((1000000000.0 - s.drift) * diff as real, (ts - s.local0) as real);
  }

  lemma Quotient(a: real, b: real)
    requires b > 0.0
    ensures a / b * b == a
  {
  }

  lemma OneExplanation(s: ServoState, offset: int64, ts: uint64, e: real, f: real)
    requires s.local0 < ts && Explains(s, offset, ts, e) && Explains(s, offset, ts, f)
    ensures e == f
  {
    var x, y, dt := e - s.drift, f - s.drift, (ts - s.local0) as real;
    Cancelled(x, y, dt);
  }

  lemma Cancelled(x: real, y: real, k: real)
    requires k > 0.0 && x * k == y * k
    ensures x == y
  {
    assert (x - y) * k == 0.0;
    assert x > y ==> (x - y) * k > 0.0;
    assert x < y ==> (x - y) * k < 0.0;
  }

  /**
   The frequency of the second sample is the one that explains the two offsets, cut to the range. There
   is exactly one such frequency, so this determines the answer.
   */
  lemma SecondSampleIs(cfg: ServoConfig, s: ServoState, offset: int64, ts: uint64, e: real)
    requires s.count == 1 && s.local0 < ts && FitsInt64(offset as int - s.offset0 as int)
    requires SampleStep(cfg, s, offset, ts).status != Init && Explains(s, offset, ts, e)
    ensures var o := SampleStep(cfg, s, offset, ts);
            o.ppb == Clamp(e, cfg.maxFreq) && o.next.drift == o.ppb && o.next.lastFreq == o.ppb
  {
    hide MeasuredDrift, Steps, Accept, ElapsedWithMargin, FreqEstInterval, Explains, Clamp;
    var f := s.drift + MeasuredDrift(s.drift, s.offset0, offset, s.local0, ts);
    EstimateExplains(s, offset, ts);
    OneExplanation(s, offset, ts, e, f);
  }

  /** A growing offset never lowers the frequency, a falling one never raises it. */
  lemma SecondSampleDirection(cfg: ServoConfig, s: ServoState, offset: int64, ts: uint64)
    requires s.count == 1 && s.local0 < ts && FitsInt64(offset as int - s.offset0 as int)
    requires SampleStep(cfg, s, offset, ts).status != Init
    requires Within(s.drift, cfg.maxFreq) && cfg.maxFreq < 1000000000.0
    ensures var o := SampleStep(cfg, s, offset, ts);
            && (offset >= s.offset0 ==> o.ppb >= s.drift)
            && (offset <= s.offset0 ==> o.ppb <= s.drift)
  {
    hide *;
    var e := s.drift + MeasuredDrift(s.drift, s.offset0, offset, s.local0, ts);
    EstimateExplains(s, offset, ts);
    SecondSampleIs(cfg, s, offset, ts, e);
    ExplainedDirection(s, offset, ts, e, cfg.maxFreq);
    ClampSide(e, s.drift, cfg.maxFreq);
  }

  lemma ExplainedDirection(s: ServoState, offset: int64, ts: uint64, e: real, limit: real)
    requires s.local0 < ts && Explains(s, offset, ts, e) && Within(s.drift, limit) && limit < 1000000000.0
    ensures offset >= s.offset0 ==> e >= s.drift
    ensures offset <= s.offset0 ==> e <= s.drift
  {
    var x, d := e - s.drift, (offset as int - s.offset0 as int) as real;
    assert offset >= s.offset0 ==> d >= 0.0;
    assert offset <= s.offset0 ==> d <= 0.0;
    Direction(x, (ts - s.local0) as real, 1000000000.0 - s.drift, d);
  }

  lemma ClampSide(e: real, drift: real, limit: real)
    requires Within(drift, limit)
    ensures e >= drift ==> Clamp(e, limit) >= drift
    ensures e <= drift ==> Clamp(e, limit) <= drift
  {
  }

  lemma Direction(x: real, k: real, a: real, d: real)
    requires k > 0.0 && a > 0.0 && x * k == a * d
    ensures d >= 0.0 ==> x >= 0.0
    ensures d <= 0.0 ==> x <= 0.0
  {
    assert d >= 0.0 ==> a * d >= 0.0;
    assert d <= 0.0 ==> a * d <= 0.0;
    assert x < 0.0 ==> x * k < 0.0;
    assert x > 0.0 ==> x * k > 0.0;
  }

  /** An offset that grows by 1000 ns in a second is 1000 ppb. */
  lemma SecondSampleExample(cfg: ServoConfig, s: ServoState)
    requires cfg.maxFreq == 500000.0 && s.count == 1 && s.drift == 0.0 && s.offset0 == 0 && s.local0 == 1000000000 && s.ki == 1.0
    ensures SampleStep(cfg, s, 1000, 2000000000).ppb == 1000.0
  {
    SecondSampleIff(cfg, s, 1000, 2000000000);
    hide SampleStep;
    SecondSampleIs(cfg, s, 1000, 2000000000, 1000.0);
  }

  /** Two samples in a row from the start: the first one only remembers, the second one measures against it. */
  lemma TwoSamplesAre(cfg: ServoConfig, s: ServoState, o0: int64, t0: uint64, o1: int64, t1: uint64, e: real)
    requires s.count == 0 && s.ki >= 0.0 && t0 < t1 && EnoughTime(s.ki, t1 - t0) && FitsInt64(o1 as int - o0 as int)
    requires (e - s.drift) * (t1 - t0) as real == (1000000000.0 - s.drift) * (o1 as int - o0 as int) as real
    ensures var first := SampleStep(cfg, s, o0, t0);
            var second := SampleStep(cfg, first.next, o1, t1);
            && first.status == Init && first.ppb == s.lastFreq && first.next.drift == s.drift && first.next.filter == s.filter
            && second.status != Init && second.ppb == Clamp(e, cfg.maxFreq)
  {
    hide SampleStep, EnoughTime, Clamp, Explains;
    var next := SampleStep(cfg, s, o0, t0).next;
    FirstSampleIs(cfg, s, o0, t0);
    SecondSampleIff(cfg, next, o1, t1);
    ExplainsIs(next, o1, t1, e);
    SecondSampleIs(cfg, next, o1, t1, e);
  }

  /** The first sample is remembered, and nothing else changes. */
  lemma FirstSampleIs(cfg: ServoConfig, s: ServoState, offset: int64, ts: uint64)
    requires s.count == 0
    ensures SampleStep(cfg, s, offset, ts) == Outcome(s.(offset0 := offset, local0 := ts, count := 1), s.lastFreq, Init)
  {
  }

  lemma ExplainsIs(s: ServoState, offset: int64, ts: uint64, e: real)
    requires s.local0 < ts
    requires (e - s.drift) * (ts - s.local0) as real == (1000000000.0 - s.drift) * (offset as int - s.offset0 as int) as real
    ensures Explains(s, offset, ts, e)
  {
  }

  /** The clock is stepped exactly when the offset exceeds a threshold that is set. */
  lemma JumpIff(cfg: ServoConfig, s: ServoState, offset: int64, ts: uint64)
    requires s.count == 1 && Proper64(offset)
    ensures var o := SampleStep(cfg, s, offset, ts);
            o.status == Jump <==>
              && o.status != Init
              && ((cfg.stepThreshold > 0 && Abs(offset) > cfg.stepThreshold)
                  || (s.firstUpdate && cfg.firstStepThreshold > 0 && Abs(offset) > cfg.firstStepThreshold))
  {
    MagnitudeIsAbs(offset);
    hide MeasuredDrift, Accept, ElapsedWithMargin, FreqEstInterval, Magnitude;
  }

  // ----- a locked servo ---------------------------------------------------------------------

  /** It starts over exactly when a threshold is set and exceeded; the frequency is kept. */
  lemma RestartIff(cfg: ServoConfig, s: ServoState, offset: int64, ts: uint64)
    requires s.count == 2 && Proper64(offset)
    ensures var o := SampleStep(cfg, s, offset, ts);
            && (o.status == Init <==> cfg.stepThreshold != 0 && Abs(offset) > cfg.stepThreshold)
            && (o.status == Init <==> o.next.count == 0)
            && (o.status == Init ==> o.ppb == s.lastFreq && o.next.drift == s.drift)
            && (o.status != Init ==> o.status == Locked && o.next.count == 2)
  {
    MagnitudeIsAbs(offset);
    hide Accept, Cleared, Scaled, Magnitude;
  }

  /** The answer is the new drift and a proportional part on top, cut to the range; cut answers leave the drift alone. */
  lemma LockedIs(cfg: ServoConfig, s: ServoState, offset: int64, ts: uint64)
    requires s.count == 2 && SampleStep(cfg, s, offset, ts).status == Locked
    ensures var o := SampleStep(cfg, s, offset, ts);
            var wanted := s.drift + (s.kp + s.ki) * offset as real;
            && o.ppb == Clamp(wanted, cfg.maxFreq) && o.next.lastFreq == o.ppb
            && (Within(wanted, cfg.maxFreq) ==> o.ppb - o.next.drift == s.kp * offset as real
                                                && o.next.drift - s.drift == s.ki * offset as real)
            && (!Within(wanted, cfg.maxFreq) ==> o.next.drift == s.drift)
  {
    hide Accept, Cleared, Magnitude, Scaled;
    Parts(s.kp, s.ki, offset);
  }

  lemma Parts(kp: real, ki: real, offset: int64)
    ensures Scaled(kp, offset) == kp * offset as real && Scaled(ki, offset) == ki * offset as real
    ensures (kp + ki) * offset as real == Scaled(kp, offset) + Scaled(ki, offset)
  {
  }

  /** A larger offset never gives a lower frequency. */
  lemma LockedMonotone(cfg: ServoConfig, s: ServoState, x: int64, y: int64, ts: uint64)
    requires s.count == 2 && s.kp >= 0.0 && s.ki >= 0.0 && cfg.maxFreq >= 0.0 && x <= y
    requires SampleStep(cfg, s, x, ts).status == Locked && SampleStep(cfg, s, y, ts).status == Locked
    ensures SampleStep(cfg, s, x, ts).ppb <= SampleStep(cfg, s, y, ts).ppb
  {
    hide *;
    LockedIs(cfg, s, x, ts);
    LockedIs(cfg, s, y, ts);
    Scale(s.kp + s.ki, x as real, y as real);
    ClampOrder(s.drift + (s.kp + s.ki) * x as real, s.drift + (s.kp + s.ki) * y as real, cfg.maxFreq);
  }

  lemma ClampOrder(a: real, b: real, limit: real)
    requires a <= b && limit >= 0.0
    ensures Clamp(a, limit) <= Clamp(b, limit)
  {
  }

  lemma Scale(k: real, x: real, y: real)
    requires k >= 0.0 && x <= y
    ensures k * x <= k * y
  {
    assert k * (y - x) >= 0.0;
    assert k * (y - x) == k * y - k * x;
  }

  // ----- gains ------------------------------------------------------------------------------

  /** The smaller of the tuned gain and the one that the norm allows at this interval. */
  predicate IsGain(gain: real, tuned: real, norm: real, interval: real) {
    gain <= tuned && gain * interval <= norm && (gain == tuned || gain * interval == norm)
  }

  lemma GainsAre(cfg: ServoConfig, s: ServoState)
    requires s.tuning.interval > 0.0
    ensures var r, t := Resynced(cfg, s), s.tuning;
            && IsGain(r.kp, t.kpScale * t.kpPow, cfg.kpNormMax, t.interval)
            && IsGain(r.ki, t.kiScale * t.kiPow, cfg.kiNormMax, t.interval)
            && r == s.(kp := r.kp, ki := r.ki)
  {
    var t := s.tuning;
    Capped(t.kpScale * t.kpPow, cfg.kpNormMax, t.interval);
    Capped(t.kiScale * t.kiPow, cfg.kiNormMax, t.interval);
    hide IsGain, GainCap;
  }

  lemma Capped(tuned: real, norm: real, interval: real)
    requires interval > 0.0
    ensures var cap := GainCap(norm, interval);
            IsGain(if tuned > cap then cap else tuned, tuned, norm, interval)
  {
    var cap := norm / interval;
    assert cap * interval == norm;
    assert tuned <= cap ==> tuned * interval <= cap * interval;
  }

  /** A new sync interval takes effect at once, with the scales in force. */
  lemma SyncIntervalIs(cfg: ServoConfig, s: ServoState, interval: real, kpPow: real, kiPow: real)
    requires interval > 0.0
    ensures var u := SyncIntervalStep(cfg, s, interval, kpPow, kiPow);
            && IsGain(u.kp, s.tuning.kpScale * kpPow, cfg.kpNormMax, interval)
            && IsGain(u.ki, s.tuning.kiScale * kiPow, cfg.kiNormMax, interval)
            && u.count == s.count && u.drift == s.drift && u.lastFreq == s.lastFreq && u.filter == s.filter
  {
    hide Resynced, IsGain;
    var s1 := s.(tuning := s.tuning.(interval := interval, kpPow := kpPow, kiPow := kiPow));
    GainsFrom(cfg, s1, s.tuning.kpScale * kpPow, s.tuning.kiScale * kiPow);
  }

  lemma GainsFrom(cfg: ServoConfig, s: ServoState, kp: real, ki: real)
    requires s.tuning.interval > 0.0
    requires kp == s.tuning.kpScale * s.tuning.kpPow && ki == s.tuning.kiScale * s.tuning.kiPow
    ensures var r := Resynced(cfg, s);
            && IsGain(r.kp, kp, cfg.kpNormMax, s.tuning.interval) && IsGain(r.ki, ki, cfg.kiNormMax, s.tuning.interval)
            && r == s.(kp := r.kp, ki := r.ki)
  {
    hide Resynced;
    GainsAre(cfg, s);
  }

  /** After Unlock the fast gains 0.7 and 0.3 apply; the frequencies are kept, the mean one included. */
  lemma UnlockIs(cfg: ServoConfig, s: ServoState)
    requires s.tuning.interval > 0.0 && cfg.filter.ringSize > 0
    ensures var u := UnlockStep(cfg, s);
            && IsGain(u.kp, 0.7 * s.tuning.kpPow, cfg.kpNormMax, s.tuning.interval)
            && IsGain(u.ki, 0.3 * s.tuning.kiPow, cfg.kiNormMax, s.tuning.interval)
            && u.count == 0 && u.drift == s.drift && u.lastFreq == s.lastFreq
            && MeanFreq(cfg, u) == MeanFreq(cfg, s)
  {
    hide Resynced, IsGain;
    GainsAre(cfg, s.(count := 0, tuning := MadeFast(s.tuning)));
    if s.filter.Some? {
      ClearedMean(cfg.filter, s.filter.value);
    }
  }

  /** Clearing the filter forgets the samples but not their mean. */
  lemma ClearedMean(cfg: FilterConfig, f: FilterState)
    requires cfg.ringSize > 0
    ensures FreqMean(cfg, Cleared(cfg, f)) == FreqMean(cfg, f)
    ensures OffsetMean(cfg, Cleared(cfg, f)) == 0 && Cleared(cfg, f).skipped == 0
  {
    hide WindowFreqMean, WindowOffsetMean;
    EmptyMeans(cfg.ringSize, FreqMean(cfg, f));
  }

  // ----- spikes -----------------------------------------------------------------------------

  /** Exactly which offsets are reported as spikes. */
  lemma SpikeIff(cfg: ServoConfig, s: ServoState, offset: int64, maxOffsetLocked: int64)
    requires Proper64(offset)
    ensures IsSpikeStep(cfg, s, offset, maxOffsetLocked).1 <==>
              && s.filter.Some? && s.count >= 2
              && (s.filter.value.skipped >= cfg.filter.maxSkipCount
                  || (|s.filter.value.offsets| >= cfg.filter.ringSize
                      && Abs(offset) > maxOffsetLocked && Abs(offset) > cfg.filter.minOffsetLocked))
  {
    WrapInt64Once(-(offset as int));
    hide FreqMean, Resynced, WrapInt64;
  }

  /** A larger offset is a spike whenever a smaller one is. */
  lemma SpikeMonotone(cfg: ServoConfig, s: ServoState, x: int64, y: int64, maxOffsetLocked: int64)
    requires Proper64(x) && Proper64(y) && Abs(x) <= Abs(y)
    requires IsSpikeStep(cfg, s, x, maxOffsetLocked).1
    ensures IsSpikeStep(cfg, s, y, maxOffsetLocked).1
  {
    hide IsSpikeStep;
    SpikeIff(cfg, s, x, maxOffsetLocked);
    SpikeIff(cfg, s, y, maxOffsetLocked);
  }

  /** With patience left an offset of zero is never a spike, and neither is -2^63, whose size wraps. */
  lemma NeverSpikes(cfg: ServoConfig, s: ServoState, offset: int64, maxOffsetLocked: int64)
    requires s.filter.Some? && s.filter.value.skipped < cfg.filter.maxSkipCount && cfg.filter.minOffsetLocked >= 0
    requires offset == 0 || offset == -MAX_INT64 - 1
    ensures !IsSpikeStep(cfg, s, offset, maxOffsetLocked).1
  {
    hide FreqMean, Resynced;
  }

  /** While spikes are skipped or the servo restarts, the mean frequency is applied. */
  lemma SpikeHolds(cfg: ServoConfig, s: ServoState, offset: int64, maxOffsetLocked: int64)
    requires cfg.filter.ringSize > 0
    ensures var (u, spike) := IsSpikeStep(cfg, s, offset, maxOffsetLocked);
            && (spike ==> u.lastFreq == MeanFreq(cfg, s) == MeanFreq(cfg, u))
            && (spike && u.count == 0 ==> u.drift == 0.0 && u.filter.value.offsets == [])
            && (spike && u.count != 0 ==> u.drift == s.drift && u.filter.value.offsets == s.filter.value.offsets)
            && (!spike ==> u == s)
  {
    if s.filter.Some? {
      ClearedMean(cfg.filter, s.filter.value);
    }
    hide WindowFreqMean, Judge, GainCap, GainOf;
  }

  /** A spike that restarts the servo also brings back the fast gains. */
  lemma ResetGains(cfg: ServoConfig, s: ServoState, offset: int64, maxOffsetLocked: int64)
    requires s.tuning.interval > 0.0
    ensures var (u, spike) := IsSpikeStep(cfg, s, offset, maxOffsetLocked);
            spike && u.count == 0 ==>
              && IsGain(u.kp, 0.7 * s.tuning.kpPow, cfg.kpNormMax, s.tuning.interval)
              && IsGain(u.ki, 0.3 * s.tuning.kiPow, cfg.kiNormMax, s.tuning.interval)
  {
    hide Resynced, IsGain, Judge, FreqMean;
    if s.filter.Some? && s.count >= 2 {
      GainsAre(cfg, s.(lastFreq := FreqMean(cfg.filter, s.filter.value), count := 0, drift := 0.0,
                       filter := ClearFilter(cfg, s.filter), tuning := MadeFast(s.tuning)));
    }
  }

  // ----- what the filter learns -------------------------------------------------------------

  /** The mean frequency takes in exactly the samples whose offset is within the range. */
  lemma SteadyIff(cfg: FilterConfig, f: FilterState, s: Sample)
    requires Proper64(cfg.offsetRange)
    ensures var g := Accept(cfg, f, s);
            && g.offsets == f.offsets + [s] && g.held == f.held && g.skipped == f.skipped
            && g.freqs == if Abs(s.offset) <= cfg.offsetRange then f.freqs + [s] else f.freqs
  {
    WrapInt64Once(-(cfg.offsetRange as int));
    hide WrapInt64;
  }

  /** It learns from locked samples only, and each of them ends the count of skips. */
  lemma LearnsIff(cfg: ServoConfig, s: ServoState, offset: int64, ts: uint64)
    requires s.filter.Some?
    ensures var o := SampleStep(cfg, s, offset, ts);
            && o.next.filter.Some?
            && (o.status == Locked ==>
                  o.next.filter.value.offsets == s.filter.value.offsets + [Sample(offset, o.ppb)]
                  && o.next.filter.value.skipped == 0)
            && (o.status == Jump ==> o.next.filter == s.filter)
            && (o.status == Init && s.count != 2 ==> o.next.filter == s.filter)
            && (o.status == Init && s.count == 2 ==> o.next.filter.value.offsets == [])
  {
    hide MeasuredDrift, Magnitude, ElapsedWithMargin, FreqEstInterval, Steady, WindowFreqMean, Scaled;
  }
}
