/**
 The PI servo (servo/pi.go).

 `ServoState` with its step functions says what one call does to the servo; `PiServo` is the program,
 which updates its fields and its filter in place, and is proved to make exactly these steps.
 */
module Servo {
  import opened Words
  import opened Rings
  import opened ServoFilter

  datatype ServoConfig = ServoConfig(
    maxFreq: real,
    stepThreshold: int64,
    firstStepThreshold: int64,
    kpNormMax: real,
    kiNormMax: real,
    filter: FilterConfig)

  /** Scales, the sync interval, and the two powers of it that `math.Pow` returns. */
  datatype Tuning = Tuning(kpScale: real, kiScale: real, interval: real, kpPow: real, kiPow: real)

  datatype ServoState = ServoState(
    count: nat,
    offset0: int64, offset1: int64,
    local0: uint64, local1: uint64,
    drift: real, lastFreq: real,
    kp: real, ki: real, tuning: Tuning,
    firstUpdate: bool,
    filter: Option<FilterState>)

  datatype Status = Init | Jump | Locked

  datatype Outcome = Outcome(next: ServoState, ppb: real, status: Status)

  const NS_PER_S: real := 1000000000.0

  function Clamp(x: real, limit: real): real {
    if x < -limit then -limit else if x > limit then limit else x
  }

  function Magnitude(offset: int64): int64 {
    if offset < 0 then WrapInt64(-(offset as int)) else offset
  }

  /** The shortest time between the two samples that measure the frequency. */
  function FreqEstInterval(ki: real): real {
    if ki == 0.0 then 1000.0
    else
      var t := 0.016 / ki;
      if t > 1000.0 then 1000.0 else t
  }

  function ElapsedWithMargin(local0: uint64, local1: uint64): real
    requires local0 < local1
  {
    var d := (local1 - local0) as real / NS_PER_S;
    d + d * 0.001
  }

  /** The frequency offset measured between the two samples. */
  function MeasuredDrift(drift: real, offset0: int64, offset1: int64, local0: uint64, local1: uint64): real
    requires local0 < local1
  {
    (NS_PER_S - drift) * WrapInt64(offset1 as int - offset0 as int) as real / (local1 - local0) as real
  }

  predicate Steps(cfg: ServoConfig, s: ServoState, offset: int64) {
    || (s.firstUpdate && cfg.firstStepThreshold > 0 && cfg.firstStepThreshold < Magnitude(offset))
    || (cfg.stepThreshold > 0 && cfg.stepThreshold < Magnitude(offset))
  }

  function ClearFilter(cfg: ServoConfig, f: Option<FilterState>): Option<FilterState> {
    if f.Some? then Some(Cleared(cfg.filter, f.value)) else None
  }

  /** The second sample estimates the frequency, unless it came too early or out of order. */
  function Estimate(cfg: ServoConfig, s: ServoState, offset: int64, ts: uint64): Outcome {
    var s1 := s.(offset1 := offset, local1 := ts);
    if s.local0 >= ts then Outcome(s1.(count := 0), s.lastFreq, Init)
    else if ElapsedWithMargin(s.local0, ts) < FreqEstInterval(s.ki) then Outcome(s1, s.lastFreq, Init)
    else
      var drift := Clamp(s.drift + MeasuredDrift(s.drift, s.offset0, offset, s.local0, ts), cfg.maxFreq);
      Outcome(s1.(drift := drift, count := 2), drift, if Steps(cfg, s, offset) then Jump else Locked)
  }

  function Scaled(gain: real, offset: int64): real {
    gain * offset as real
  }

  /** A locked servo follows the offset, or starts over when the offset is too large. */
  function Follow(cfg: ServoConfig, s: ServoState, offset: int64): Outcome {
    if cfg.stepThreshold != 0 && cfg.stepThreshold < Magnitude(offset) then
      Outcome(s.(count := 0, filter := ClearFilter(cfg, s.filter)), s.lastFreq, Init)
    else
      var kiTerm := Scaled(s.ki, offset);
      var ppb := Scaled(s.kp, offset) + s.drift + kiTerm;
      if -cfg.maxFreq <= ppb <= cfg.maxFreq then Outcome(s.(drift := s.drift + kiTerm), ppb, Locked)
      else Outcome(s, Clamp(ppb, cfg.maxFreq), Locked)
  }

  function Regulate(cfg: ServoConfig, s: ServoState, offset: int64, ts: uint64): Outcome {
    if s.count == 0 then Outcome(s.(offset0 := offset, local0 := ts, count := 1), s.lastFreq, Init)
    else if s.count == 1 then Estimate(cfg, s, offset, ts)
    else if s.count == 2 then Follow(cfg, s, offset)
    else Outcome(s, s.lastFreq, Init)
  }

  /** The filter learns the offset and the frequency of every locked sample. */
  function Record(cfg: ServoConfig, o: Outcome, offset: int64): Outcome {
    var next := o.next.(lastFreq := o.ppb);
    if o.status == Locked && next.filter.Some? then
      o.(next := next.(filter := Some(Accept(cfg.filter, next.filter.value, Sample(offset, o.ppb)).(skipped := 0))))
    else
      o.(next := next)
  }

  function SampleStep(cfg: ServoConfig, s: ServoState, offset: int64, ts: uint64): Outcome {
    Record(cfg, Regulate(cfg, s, offset, ts), offset)
  }

  /** The largest gain allowed at a sync interval. */
  function GainCap(normMax: real, interval: real): real
    requires interval != 0.0
  {
    normMax / interval
  }

  function GainOf(scale: real, pow: real): real {
    scale * pow
  }

  /** Gains from the tuning; a zero interval leaves them alone. */
  function Resynced(cfg: ServoConfig, s: ServoState): ServoState {
    var t := s.tuning;
    if t.interval == 0.0 then s
    else
      var kpCap, kiCap := GainCap(cfg.kpNormMax, t.interval), GainCap(cfg.kiNormMax, t.interval);
      var kp, ki := GainOf(t.kpScale, t.kpPow), GainOf(t.kiScale, t.kiPow);
      s.(kp := if kp > kpCap then kpCap else kp, ki := if ki > kiCap then kiCap else ki)
  }

  function MadeFast(t: Tuning): Tuning {
    t.(kpScale := 0.7, kiScale := 0.3)
  }

  function IsSpikeStep(cfg: ServoConfig, s: ServoState, offset: int64, maxOffsetLocked: int64): (ServoState, bool) {
    if s.filter == None || s.count < 2 then (s, false)
    else
      var f := s.filter.value;
      match Judge(cfg.filter, f, offset, maxOffsetLocked)
      case NoSpike => (s, false)
      case Spike => (s.(lastFreq := FreqMean(cfg.filter, f), filter := Some(f.(skipped := f.skipped + 1))), true)
      case ResetFilter =>
        var s1 := s.(lastFreq := FreqMean(cfg.filter, f), count := 0, drift := 0.0,
                     filter := ClearFilter(cfg, s.filter), tuning := MadeFast(s.tuning));
        (Resynced(cfg, s1), true)
  }

  function UnlockStep(cfg: ServoConfig, s: ServoState): ServoState {
    Resynced(cfg, s.(count := 0, tuning := MadeFast(s.tuning))).(filter := ClearFilter(cfg, s.filter))
  }

  function SyncIntervalStep(cfg: ServoConfig, s: ServoState, interval: real, kpPow: real, kiPow: real): ServoState {
    Resynced(cfg, s.(tuning := s.tuning.(interval := interval, kpPow := kpPow, kiPow := kiPow)))
  }

  class PiServo {
    const cfg: ServoConfig
    var offset0: int64
    var offset1: int64
    var local0: uint64
    var local1: uint64
    var drift: real
    var kp: real
    var ki: real
    var lastFreq: real
    var tuning: Tuning
    var count: nat
    var firstUpdate: bool
    var filter: PiServoFilter?

    ghost function Repr(): set<object>
      reads this, filter
    {
      {this} + if filter == null then {} else filter.Repr()
    }

    ghost predicate Valid()
      reads this, filter, Repr()
    {
      filter != null ==> filter.Valid() && filter.cfg == cfg.filter
    }

    ghost function State(): ServoState
      reads this, filter, Repr()
    {
      ServoState(count, offset0, offset1, local0, local1, drift, lastFreq, kp, ki, tuning, firstUpdate,
                 if filter == null then None else Some(filter.State()))
    }

    /** A new servo, without a filter and without a sync interval yet. */
    constructor (cfg: ServoConfig, firstUpdate: bool, kpPow: real, kiPow: real, freq: real)
      ensures Valid() && fresh(Repr()) && this.cfg == cfg && filter == null
      ensures State() == ServoState(0, 0, 0, 0, 0, freq, freq, 0.0, 0.0,
                                    Tuning(0.7, 0.3, 0.0, kpPow, kiPow), firstUpdate, None)
    {
      this.cfg := cfg;
      this.firstUpdate := firstUpdate;
      offset0, offset1, local0, local1, count := 0, 0, 0, 0, 0;
      drift, lastFreq, kp, ki := freq, freq, 0.0, 0.0;
      tuning := Tuning(0.7, 0.3, 0.0, kpPow, kiPow);
      filter := null;
    }

    method AddFilter()
      requires Valid() && cfg.filter.ringSize > 0
      modifies this`filter
      ensures Valid() && filter != null && fresh(filter.Repr())
      ensures State() == old(State()).(filter := Some(FilterState([], [], lastFreq, 0)))
    {
      filter := new PiServoFilter(cfg.filter, lastFreq);
    }

    method Sample(offset: int64, localTs: uint64) returns (ppb: real, status: Status)
      requires Valid()
      modifies Repr()
      ensures Valid() && fresh(Repr() - old(Repr()))
      ensures Outcome(State(), ppb, status) == old(SampleStep(cfg, State(), offset, localTs))
    {
      hide WindowFreqMean, WindowOffsetMean, Regulate, Accept;
      ppb, status := Adjust(offset, localTs);
      lastFreq := ppb;
      if status == Locked && filter != null {
        LearnLocked(offset, ppb);
      }
    }

    /** The switch on the number of samples. */
    method Adjust(offset: int64, localTs: uint64) returns (ppb: real, status: Status)
      requires Valid()
      modifies Repr()
      ensures Valid() && fresh(Repr() - old(Repr())) && filter == old(filter)
      ensures Outcome(State(), ppb, status) == old(Regulate(cfg, State(), offset, localTs))
    {
      hide PiServoFilter.Valid, PiServoFilter.State, Cleared, Magnitude, Estimate, Scaled;
      status := Init;
      ppb := lastFreq;
      if count == 0 {
        offset0, local0, count := offset, localTs, 1;
      } else if count == 1 {
        ppb, status := AdjustSecond(offset, localTs);
      } else if count == 2 {
        if cfg.stepThreshold != 0 && cfg.stepThreshold < Magnitude(offset) {
          count := 0;
          if filter != null {
            filter.Reset();
          }
        } else {
          status := Locked;
          var kiTerm := Scaled(ki, offset);
          ppb := Scaled(kp, offset) + drift + kiTerm;
          if ppb < -cfg.maxFreq {
            ppb := -cfg.maxFreq;
          } else if ppb > cfg.maxFreq {
            ppb := cfg.maxFreq;
          } else {
            drift := drift + kiTerm;
          }
        }
      }
    }

    method AdjustSecond(offset: int64, localTs: uint64) returns (ppb: real, status: Status)
      requires Valid() && count == 1
      modifies this`offset1, this`local1, this`count, this`drift
      ensures Outcome(State(), ppb, status) == old(Estimate(cfg, State(), offset, localTs))
    {
      hide FreqEstInterval, ElapsedWithMargin, Magnitude, MeasuredDrift, PiServoFilter.Valid;
      status := Init;
      ppb := lastFreq;
      offset1, local1 := offset, localTs;
      if local0 >= local1 {
        count := 0;
        return;
      }
      if ElapsedWithMargin(local0, local1) < FreqEstInterval(ki) {
        return;
      }
      drift := drift + MeasuredDrift(drift, offset0, offset1, local0, local1);
      if drift < -cfg.maxFreq {
        drift := -cfg.maxFreq;
      } else if drift > cfg.maxFreq {
        drift := cfg.maxFreq;
      }
      if (firstUpdate && cfg.firstStepThreshold > 0 && cfg.firstStepThreshold < Magnitude(offset))
         || (cfg.stepThreshold > 0 && cfg.stepThreshold < Magnitude(offset)) {
        status := Jump;
      } else {
        status := Locked;
      }
      ppb := drift;
      count := 2;
    }

    method LearnLocked(offset: int64, ppb: real)
      requires Valid() && filter != null
      modifies filter.Repr()
      ensures Valid() && filter.Repr() == old(filter.Repr())
      ensures State() == old(State()).(filter := Some(old(Accept(cfg.filter, filter.State(), ServoFilter.Sample(offset, ppb))).(skipped := 0)))
    {
      hide WindowFreqMean, WindowOffsetMean, Accept;
      filter.Sample(ServoFilter.Sample(offset, ppb));
      filter.skippedCount := 0;
    }

    method IsSpike(offset: int64, maxOffsetLocked: int64) returns (spike: bool)
      requires Valid()
      modifies Repr()
      ensures Valid() && fresh(Repr() - old(Repr()))
      ensures (State(), spike) == old(IsSpikeStep(cfg, State(), offset, maxOffsetLocked))
    {
      hide PiServoFilter.Valid, PiServoFilter.State, FreqMean, Judge, Resynced, Cleared;
      if filter == null || count < 2 {
        return false;
      }
      var verdict := filter.IsSpike(offset, maxOffsetLocked);
      if verdict == Spike {
        AdoptMean();
        SkipOne();
        return true;
      }
      if verdict == ResetFilter {
        AdoptMean();
        Restart();
        return true;
      }
      return false;
    }

    method AdoptMean()
      requires Valid() && filter != null
      modifies this`lastFreq
      ensures Valid() && State() == old(State()).(lastFreq := old(FreqMean(cfg.filter, filter.State())))
    {
      hide WindowFreqMean, WindowOffsetMean, Ring<ServoFilter.Sample>.Valid;
      lastFreq := filter.freqMean;
    }

    method SkipOne()
      requires Valid() && filter != null
      modifies filter`skippedCount
      ensures Valid() && filter.Repr() == old(filter.Repr())
      ensures State() == old(State().(filter := Some(filter.State().(skipped := filter.State().skipped + 1))))
    {
      hide WindowFreqMean, WindowOffsetMean, Ring<ServoFilter.Sample>.Valid;
      filter.skippedCount := filter.skippedCount + 1;
    }

    method Restart()
      requires Valid() && filter != null
      modifies Repr()
      ensures Valid() && fresh(Repr() - old(Repr()))
      ensures State() == old(Resynced(cfg, State().(count := 0, drift := 0.0, tuning := MadeFast(tuning),
                                                    filter := ClearFilter(cfg, State().filter))))
    {
      hide PiServoFilter.Valid, PiServoFilter.State, Cleared;
      count, drift := 0, 0.0;
      filter.Reset();
      tuning := MadeFast(tuning);
      ResyncInterval();
    }

    method Unlock()
      requires Valid() && filter != null
      modifies Repr()
      ensures Valid() && fresh(Repr() - old(Repr()))
      ensures State() == old(UnlockStep(cfg, State()))
    {
      hide PiServoFilter.Valid, PiServoFilter.State, Cleared;
      count := 0;
      tuning := MadeFast(tuning);
      ResyncInterval();
      filter.Reset();
    }

    method ResyncInterval()
      modifies this`kp, this`ki
      ensures State() == old(Resynced(cfg, State()))
    {
      hide GainCap, GainOf, WindowFreqMean, WindowOffsetMean;
      if tuning.interval == 0.0 {
        return;
      }
      kp := GainOf(tuning.kpScale, tuning.kpPow);
      if kp > GainCap(cfg.kpNormMax, tuning.interval) {
        kp := GainCap(cfg.kpNormMax, tuning.interval);
      }
      ki := GainOf(tuning.kiScale, tuning.kiPow);
      if ki > GainCap(cfg.kiNormMax, tuning.interval) {
        ki := GainCap(cfg.kiNormMax, tuning.interval);
      }
    }

    method SyncInterval(interval: real, kpPow: real, kiPow: real)
      requires Valid()
      modifies this`tuning, this`kp, this`ki
      ensures Valid() && State() == old(SyncIntervalStep(cfg, State(), interval, kpPow, kiPow))
    {
      hide Resynced, WindowFreqMean, WindowOffsetMean;
      tuning := tuning.(interval := interval, kpPow := kpPow, kiPow := kiPow);
      ResyncInterval();
    }

    method UnsetFirstUpdate()
      requires Valid()
      modifies this`firstUpdate
      ensures Valid() && State() == old(State()).(firstUpdate := false)
    {
      firstUpdate := false;
    }
  }
}
