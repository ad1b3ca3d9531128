/** Every run of the PI servo: what any sequence of calls keeps, for every argument of every call. */
module ServoRuns {
  import opened Words
  import opened ServoFilter
  import opened Servo

  datatype Call =
    | CallSample(offset: int64, ts: uint64)
    | CallIsSpike(offset: int64, maxOffsetLocked: int64)
    | CallUnlock
    | CallSyncInterval(interval: real, kpPow: real, kiPow: real)
    | CallUnsetFirstUpdate

  datatype Reply = Frequency(ppb: real, status: Status) | SpikeFlag(spike: bool) | NoReply

  function Step(cfg: ServoConfig, s: ServoState, c: Call): (ServoState, Reply) {
    match c
    case CallSample(offset, ts) =>
      var o := SampleStep(cfg, s, offset, ts);
      (o.next, Frequency(o.ppb, o.status))
    case CallIsSpike(offset, maxOffsetLocked) =>
      var (next, spike) := IsSpikeStep(cfg, s, offset, maxOffsetLocked);
      (next, SpikeFlag(spike))
    case CallUnlock => (UnlockStep(cfg, s), NoReply)
    case CallSyncInterval(interval, kpPow, kiPow) => (SyncIntervalStep(cfg, s, interval, kpPow, kiPow), NoReply)
    case CallUnsetFirstUpdate => (s.(firstUpdate := false), NoReply)
  }

  /** The servo after the first `n` calls. */
  function After(cfg: ServoConfig, s: ServoState, calls: seq<Call>, n: nat): ServoState
    requires n <= |calls|
  {
    if n == 0 then s else Step(cfg, After(cfg, s, calls, n - 1), calls[n - 1]).0
  }

  /** The reply to call number `i`. */
  function ReplyTo(cfg: ServoConfig, s: ServoState, calls: seq<Call>, i: nat): Reply
    requires i < |calls|
  {
    Step(cfg, After(cfg, s, calls, i), calls[i]).1
  }

  lemma AfterNext(cfg: ServoConfig, s: ServoState, calls: seq<Call>, n: nat)
    requires n < |calls|
    ensures (After(cfg, s, calls, n + 1), ReplyTo(cfg, s, calls, n)) == Step(cfg, After(cfg, s, calls, n), calls[n])
  {
    hide Step;
  }

  // ----- frequencies stay in range ----------------------------------------------------------

  predicate Sane(cfg: ServoConfig) {
    cfg.maxFreq >= 0.0 && cfg.kpNormMax >= 0.0 && cfg.kiNormMax >= 0.0
  }

  predicate Within(x: real, limit: real) {
    -limit <= x <= limit
  }

  /** Drift, last frequency and everything the filter may hand out are in [-maxFreq, maxFreq]. */
  predicate InRange(cfg: ServoConfig, s: ServoState) {
    && Within(s.drift, cfg.maxFreq)
    && Within(s.lastFreq, cfg.maxFreq)
    && (s.filter.Some? ==> FilterInRange(s.filter.value, cfg.maxFreq))
  }

  predicate FilterInRange(f: FilterState, limit: real) {
    Within(f.held, limit) && Bounded(f.freqs, limit)
  }

  predicate GainsPositive(s: ServoState) {
    && s.kp >= 0.0 && s.ki >= 0.0
    && s.tuning.kpScale >= 0.0 && s.tuning.kiScale >= 0.0 && s.tuning.interval >= 0.0
    && s.tuning.kpPow >= 0.0 && s.tuning.kiPow >= 0.0
  }

  /** `MeanFreq`: the mean of the filter, or the last frequency when there is none. */
  function MeanFreq(cfg: ServoConfig, s: ServoState): real {
    if s.filter.Some? then FreqMean(cfg.filter, s.filter.value) else s.lastFreq
  }

  /** A power of a nonnegative interval is nonnegative. */
  predicate Proper(c: Call) {
    c.CallSyncInterval? ==> c.interval >= 0.0 && c.kpPow >= 0.0 && c.kiPow >= 0.0
  }

  /** The integral term moves the drift toward the frequency that is sent out, never past it. */
  lemma DriftBetween(kp: real, ki: real, drift: real, offset: real, limit: real)
    requires kp >= 0.0 && ki >= 0.0 && Within(drift, limit)
    requires Within(kp * offset + drift + ki * offset, limit)
    ensures Within(drift + ki * offset, limit)
  {
    if offset >= 0.0 {
      assert kp * offset >= 0.0 && ki * offset >= 0.0;
    } else {
      assert kp * offset <= 0.0 && ki * offset <= 0.0;
    }
  }

  lemma GainCapPositive(normMax: real, interval: real)
    requires normMax >= 0.0 && interval > 0.0
    ensures GainCap(normMax, interval) >= 0.0
  {
  }

  lemma ResyncKeeps(cfg: ServoConfig, s: ServoState)
    requires Sane(cfg) && GainsPositive(s)
    ensures GainsPositive(Resynced(cfg, s))
  {
    if s.tuning.interval != 0.0 {
      GainCapPositive(cfg.kpNormMax, s.tuning.interval);
      GainCapPositive(cfg.kiNormMax, s.tuning.interval);
    }
  }

  lemma ClearKeeps(cfg: ServoConfig, f: FilterState)
    requires FilterInRange(f, cfg.maxFreq)
    ensures FilterInRange(Cleared(cfg.filter, f), cfg.maxFreq)
    ensures Within(FreqMean(cfg.filter, f), cfg.maxFreq)
  {
    FreqMeanBounded(cfg.filter, f, cfg.maxFreq);
  }

  lemma FollowKeeps(cfg: ServoConfig, s: ServoState, offset: int64)
    requires Sane(cfg) && InRange(cfg, s) && GainsPositive(s)
    ensures var o := Follow(cfg, s, offset);
            InRange(cfg, o.next) && GainsPositive(o.next) && Within(o.ppb, cfg.maxFreq)
  {
    hide FreqMean, Magnitude, FilterInRange, Cleared;
    if s.filter.Some? {
      ClearKeeps(cfg, s.filter.value);
    }
    if Within(s.kp * offset as real + s.drift + s.ki * offset as real, cfg.maxFreq) {
      DriftBetween(s.kp, s.ki, s.drift, offset as real, cfg.maxFreq);
    }
  }

  lemma RegulateKeeps(cfg: ServoConfig, s: ServoState, offset: int64, ts: uint64)
    requires Sane(cfg) && InRange(cfg, s) && GainsPositive(s)
    ensures var o := Regulate(cfg, s, offset, ts);
            InRange(cfg, o.next) && GainsPositive(o.next) && Within(o.ppb, cfg.maxFreq)
  {
    hide Follow, MeasuredDrift, ElapsedWithMargin, FreqEstInterval, FilterInRange, Steps;
    FollowKeeps(cfg, s, offset);
  }

  lemma SampleKeeps(cfg: ServoConfig, s: ServoState, offset: int64, ts: uint64)
    requires Sane(cfg) && InRange(cfg, s) && GainsPositive(s)
    ensures var o := SampleStep(cfg, s, offset, ts);
            InRange(cfg, o.next) && GainsPositive(o.next) && Within(o.ppb, cfg.maxFreq)
  {
    RegulateKeeps(cfg, s, offset, ts);
    hide Regulate, Steady;
  }

  lemma IsSpikeKeeps(cfg: ServoConfig, s: ServoState, offset: int64, maxOffsetLocked: int64)
    requires Sane(cfg) && InRange(cfg, s) && GainsPositive(s)
    ensures var next := IsSpikeStep(cfg, s, offset, maxOffsetLocked).0;
            InRange(cfg, next) && GainsPositive(next)
  {
    hide Judge, FreqMean, Bounded;
    if s.filter.Some? {
      var f := s.filter.value;
      ClearKeeps(cfg, f);
      ResyncKeeps(cfg, s.(lastFreq := FreqMean(cfg.filter, f), count := 0, drift := 0.0,
                          filter := ClearFilter(cfg, s.filter), tuning := MadeFast(s.tuning)));
    }
  }

  lemma StepKeeps(cfg: ServoConfig, s: ServoState, c: Call)
    requires Sane(cfg) && InRange(cfg, s) && GainsPositive(s) && Proper(c)
    ensures var (next, reply) := Step(cfg, s, c);
            && InRange(cfg, next) && GainsPositive(next)
            && (reply.Frequency? ==> Within(reply.ppb, cfg.maxFreq))
  {
    match c
    case CallSample(offset, ts) =>
      SampleKeeps(cfg, s, offset, ts);
    case CallIsSpike(offset, maxOffsetLocked) =>
      IsSpikeKeeps(cfg, s, offset, maxOffsetLocked);
    case CallUnlock =>
      ResyncKeeps(cfg, s.(count := 0, tuning := MadeFast(s.tuning)));
      if s.filter.Some? {
        ClearKeeps(cfg, s.filter.value);
      }
    case CallSyncInterval(interval, kpPow, kiPow) =>
      ResyncKeeps(cfg, s.(tuning := s.tuning.(interval := interval, kpPow := kpPow, kiPow := kiPow)));
    case CallUnsetFirstUpdate =>
  }

  lemma MeanInRange(cfg: ServoConfig, s: ServoState)
    requires InRange(cfg, s)
    ensures Within(MeanFreq(cfg, s), cfg.maxFreq)
  {
    if s.filter.Some? {
      FreqMeanBounded(cfg.filter, s.filter.value, cfg.maxFreq);
    }
  }

  /** Over every run, drift, last frequency, mean frequency and every reply stay in [-maxFreq, maxFreq]. */
  lemma {:induction false} FrequenciesBounded(cfg: ServoConfig, s: ServoState, calls: seq<Call>, n: nat)
    requires Sane(cfg) && InRange(cfg, s) && GainsPositive(s)
    requires n <= |calls| && forall i :: 0 <= i < |calls| ==> Proper(calls[i])
    ensures InRange(cfg, After(cfg, s, calls, n)) && GainsPositive(After(cfg, s, calls, n))
    ensures Within(MeanFreq(cfg, After(cfg, s, calls, n)), cfg.maxFreq)
    ensures forall i :: 0 <= i < n && ReplyTo(cfg, s, calls, i).Frequency? ==>
              Within(ReplyTo(cfg, s, calls, i).ppb, cfg.maxFreq)
  {
    if n > 0 {
      FrequenciesBounded(cfg, s, calls, n - 1);
      StepKeeps(cfg, After(cfg, s, calls, n - 1), calls[n - 1]);
      hide Step, InRange, GainsPositive, MeanFreq;
    }
    MeanInRange(cfg, After(cfg, s, calls, n));
  }

  // ----- spikes are tolerated only so often -------------------------------------------------

  /** How many spikes in a row are still possible before the servo is back at its first sample. */
  function Patience(cfg: ServoConfig, f: FilterState): (p: int)
    ensures p >= 1
  {
    1 + if f.skipped < cfg.filter.maxSkipCount then cfg.filter.maxSkipCount - f.skipped else 0
  }

  lemma OneSpike(cfg: ServoConfig, s: ServoState, c: Call)
    requires s.filter.Some? && c.CallIsSpike? && Step(cfg, s, c).1 == SpikeFlag(true)
    ensures s.count >= 2
    ensures var next := Step(cfg, s, c).0;
            && next.filter.Some?
            && (if Patience(cfg, s.filter.value) == 1 then next.count == 0
                else next.count == s.count && Patience(cfg, next.filter.value) == Patience(cfg, s.filter.value) - 1)
  {
    hide FreqMean, Magnitude;
  }

  /** Calls to IsSpike that all report a spike: at most `Patience` of them, and the last one resets. */
  lemma {:induction false} SpikesEnd(cfg: ServoConfig, s: ServoState, calls: seq<Call>, n: nat)
    requires s.filter.Some? && n <= |calls|
    requires forall i :: 0 <= i < n ==> calls[i].CallIsSpike? && ReplyTo(cfg, s, calls, i) == SpikeFlag(true)
    ensures n <= Patience(cfg, s.filter.value)
    ensures var now := After(cfg, s, calls, n);
            && now.filter.Some?
            && (n == Patience(cfg, s.filter.value) ==> now.count == 0)
            && (n < Patience(cfg, s.filter.value) ==>
                  now.count == s.count && Patience(cfg, now.filter.value) == Patience(cfg, s.filter.value) - n)
  {
    hide Patience, Step;
    if n > 0 {
      SpikesEnd(cfg, s, calls, n - 1);
      var before := After(cfg, s, calls, n - 1);
      assert ReplyTo(cfg, s, calls, n - 1) == SpikeFlag(true);
      OneSpike(cfg, before, calls[n - 1]);
    }
  }

  /** The skip count starts at zero and only grows between resets. */
  predicate Counting(s: ServoState) {
    s.filter.Some? ==> s.filter.value.skipped >= 0
  }

  lemma CountingKeeps(cfg: ServoConfig, s: ServoState, c: Call)
    requires Counting(s)
    ensures Counting(Step(cfg, s, c).0)
  {
    hide FreqMean, MeasuredDrift, Magnitude, ElapsedWithMargin, FreqEstInterval, GainCap, Steady;
  }

  lemma {:induction false} CountingStays(cfg: ServoConfig, s: ServoState, calls: seq<Call>, n: nat)
    requires Counting(s) && n <= |calls|
    ensures Counting(After(cfg, s, calls, n))
  {
    hide Step, Counting;
    if n > 0 {
      CountingStays(cfg, s, calls, n - 1);
      CountingKeeps(cfg, After(cfg, s, calls, n - 1), calls[n - 1]);
    }
  }

  /** How many spikes can still be reported before the next sample. */
  function Budget(cfg: ServoConfig, s: ServoState): (n: int)
    ensures n >= 0
  {
    if s.filter.Some? && s.count >= 2 then Patience(cfg, s.filter.value) else 0
  }

  predicate IsSpikeReply(r: Reply) {
    r.SpikeFlag? && r.spike
  }

  /** Every call but a sample spends the budget on the spikes it reports, and only ever lowers the count to zero. */
  lemma BudgetSpent(cfg: ServoConfig, s: ServoState, c: Call)
    requires !c.CallSample?
    ensures var (next, reply) := Step(cfg, s, c);
            && Budget(cfg, next) + (if IsSpikeReply(reply) then 1 else 0) <= Budget(cfg, s)
            && (next.count == s.count || next.count == 0)
            && (next.filter.Some? <==> s.filter.Some?)
  {
    hide FreqMean, Magnitude, GainCap;
  }

  /** The spikes reported by calls `a` to `b`. */
  function Spikes(cfg: ServoConfig, s: ServoState, calls: seq<Call>, a: nat, b: nat): (n: nat)
    requires a <= b <= |calls|
    decreases b
  {
    if a == b then 0
    else Spikes(cfg, s, calls, a, b - 1) + if IsSpikeReply(ReplyTo(cfg, s, calls, b - 1)) then 1 else 0
  }

  lemma {:induction false} BudgetRun(cfg: ServoConfig, s: ServoState, calls: seq<Call>, a: nat, b: nat)
    requires a <= b <= |calls| && forall i :: a <= i < b ==> !calls[i].CallSample?
    ensures var first, last := After(cfg, s, calls, a), After(cfg, s, calls, b);
            && Spikes(cfg, s, calls, a, b) + Budget(cfg, last) <= Budget(cfg, first)
            && (last.count == first.count || last.count == 0)
            && (last.filter.Some? <==> first.filter.Some?)
    decreases b
  {
    hide Step, Budget;
    if a < b {
      BudgetRun(cfg, s, calls, a, b - 1);
      BudgetSpent(cfg, After(cfg, s, calls, b - 1), calls[b - 1]);
    }
  }

  /**
   In any run, any block of calls without a sample reports at most `maxSkipCount + 1` spikes, whatever
   else is called in between, and that many only by taking the servo back to its first sample.
   */
  lemma SpikesBounded(cfg: ServoConfig, s: ServoState, calls: seq<Call>, a: nat, b: nat)
    requires Counting(s)
    requires a <= b <= |calls| && forall i :: a <= i < b ==> !calls[i].CallSample?
    ensures var n, most := Spikes(cfg, s, calls, a, b), 1 + if cfg.filter.maxSkipCount > 0 then cfg.filter.maxSkipCount else 0;
            && n <= most
            && (n == most ==> After(cfg, s, calls, b).count == 0)
  {
    CountingStays(cfg, s, calls, a);
    BudgetRun(cfg, s, calls, a, b);
    hide Step, After, Spikes;
  }

  /** After a locked sample the filter is patient again: `maxSkipCount + 1` spikes at most. */
  lemma LockedRestoresPatience(cfg: ServoConfig, s: ServoState, offset: int64, ts: uint64)
    requires s.filter.Some? && cfg.filter.maxSkipCount >= 0
    requires SampleStep(cfg, s, offset, ts).status == Locked
    ensures var next := SampleStep(cfg, s, offset, ts).next;
            next.filter.Some? && Patience(cfg, next.filter.value) == cfg.filter.maxSkipCount + 1
  {
    hide FreqMean, MeasuredDrift, Magnitude, ElapsedWithMargin, FreqEstInterval, Accept;
  }

  // ----- jumps ------------------------------------------------------------------------------

  predicate IsStatus(r: Reply, status: Status) {
    r.Frequency? && r.status == status
  }

  lemma CountMoves(cfg: ServoConfig, s: ServoState, c: Call)
    ensures var (next, reply) := Step(cfg, s, c);
            && (s.count != 1 && next.count == 1 ==> s.count == 0 && c.CallSample? && IsStatus(reply, Init))
            && (IsStatus(reply, Jump) ==> s.count == 1 && next.count == 2)
            && (s.count <= 2 ==> next.count <= 2)
  {
    hide FreqMean, MeasuredDrift, Magnitude, ElapsedWithMargin, FreqEstInterval, Accept, GainCap, Judge;
  }

  lemma {:induction false} FindRestart(cfg: ServoConfig, s: ServoState, calls: seq<Call>, a: nat, b: nat) returns (j: nat)
    requires a < b <= |calls|
    requires After(cfg, s, calls, a).count != 1 && After(cfg, s, calls, b).count == 1
    ensures a <= j < b && IsStatus(ReplyTo(cfg, s, calls, j), Init)
    decreases b
  {
    hide *;
    CountMoves(cfg, After(cfg, s, calls, b - 1), calls[b - 1]);
    AfterNext(cfg, s, calls, b - 1);
    if After(cfg, s, calls, b - 1).count != 1 {
      j := b - 1;
    } else {
      j := FindRestart(cfg, s, calls, a, b - 1);
    }
  }

  /** Between two clock steps of one run the servo always went through a fresh first sample. */
  lemma JumpsSeparated(cfg: ServoConfig, s: ServoState, calls: seq<Call>, i: nat, k: nat)
    requires i < k < |calls|
    requires IsStatus(ReplyTo(cfg, s, calls, i), Jump) && IsStatus(ReplyTo(cfg, s, calls, k), Jump)
    ensures exists j :: i < j < k && IsStatus(ReplyTo(cfg, s, calls, j), Init)
  {
    CountMoves(cfg, After(cfg, s, calls, i), calls[i]);
    CountMoves(cfg, After(cfg, s, calls, k), calls[k]);
    hide Step;
    var j := FindRestart(cfg, s, calls, i + 1, k);
  }

  // ----- timestamps -------------------------------------------------------------------------

  lemma TimestampMoves(cfg: ServoConfig, s: ServoState, c: Call)
    requires s.count <= 2
    ensures var (next, reply) := Step(cfg, s, c);
            && (s.count == 0 && next.count > 0 ==> next.count == 1 && c.CallSample? && next.local0 == c.ts)
            && (s.count > 0 && next.count > 0 ==> next.local0 == s.local0)
            && (s.count == 1 && next.count == 2 ==> c.CallSample? && s.local0 < c.ts)
            && (s.count == 2 && next.count > 0 ==> next.count == 2)
            && (IsStatus(reply, Jump) || IsStatus(reply, Locked) ==>
                  s.count == 2 || (s.count == 1 && c.CallSample? && s.local0 < c.ts))
  {
    hide FreqMean, MeasuredDrift, Magnitude, ElapsedWithMargin, FreqEstInterval, Accept, GainCap, Judge;
  }

  ghost predicate CountPositive(cfg: ServoConfig, s: ServoState, calls: seq<Call>, j: nat, n: nat)
    requires n <= |calls|
  {
    forall k :: j < k <= n ==> After(cfg, s, calls, k).count > 0
  }

  /** Where the first timestamp, and once the frequency is known also the second one, came from. */
  lemma {:induction false} Origins(cfg: ServoConfig, s: ServoState, calls: seq<Call>, n: nat) returns (j: nat, m: nat)
    requires s.count == 0 && n <= |calls|
    ensures After(cfg, s, calls, n).count <= 2
    ensures After(cfg, s, calls, n).count > 0 ==>
              && j < n && calls[j].CallSample? && calls[j].ts == After(cfg, s, calls, n).local0
              && CountPositive(cfg, s, calls, j, n)
    ensures After(cfg, s, calls, n).count == 2 ==>
              j < m < n && calls[m].CallSample? && calls[j].ts < calls[m].ts
    decreases n
  {
    hide Step;
    j, m := 0, 0;
    if n > 0 {
      hide After;
      j, m := Origins(cfg, s, calls, n - 1);
      var before := After(cfg, s, calls, n - 1);
      TimestampMoves(cfg, before, calls[n - 1]);
      CountMoves(cfg, before, calls[n - 1]);
      AfterNext(cfg, s, calls, n - 1);
      if before.count == 0 {
        j := n - 1;
      } else if before.count == 1 {
        m := n - 1;
      }
    }
  }

  /**
   Every frequency that the servo adjusts or steps by rests on two samples with increasing
   timestamps, both taken since the servo last went back to its first sample.
   */
  lemma StrictTimestamps(cfg: ServoConfig, s: ServoState, calls: seq<Call>, i: nat)
    requires s.count == 0 && i < |calls|
    requires IsStatus(ReplyTo(cfg, s, calls, i), Jump) || IsStatus(ReplyTo(cfg, s, calls, i), Locked)
    ensures exists j, m :: 0 <= j < m <= i && calls[j].CallSample? && calls[m].CallSample?
              && calls[j].ts < calls[m].ts && CountPositive(cfg, s, calls, j, i)
  {
    var j, m := Origins(cfg, s, calls, i);
    TimestampMoves(cfg, After(cfg, s, calls, i), calls[i]);
    hide Step, CountPositive;
    if After(cfg, s, calls, i).count == 1 {
      m := i;
    }
    assert calls[j].ts < calls[m].ts;
  }
}
