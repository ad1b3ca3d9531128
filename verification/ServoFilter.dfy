/**
 The outlier filter of the PI servo (servo/pi.go).

 `FilterState` is the simple form: the samples seen since the last reset, from which every mean is
 recomputed. `PiServoFilter` is the program: two rings and running means corrected one sample at a
 time. The class is proved to compute the simple form.
 */
module ServoFilter {
  import opened Words
  import opened Rings

  datatype Sample = Sample(offset: int64, freq: real)

  datatype FilterConfig = FilterConfig(minOffsetLocked: int64, maxSkipCount: int, offsetRange: int64, ringSize: nat)

  /** The sum of the offsets, each divided by `c` and truncated. */
  function TruncSum(w: seq<Sample>, c: nat): int
    requires c > 0
  {
    if w == [] then 0 else TruncSum(w[..|w| - 1], c) + TruncDiv(w[|w| - 1].offset, c)
  }

  function OffsetSum(w: seq<Sample>): int {
    if w == [] then 0 else OffsetSum(w[..|w| - 1]) + w[|w| - 1].offset
  }

  function FreqSum(w: seq<Sample>): real {
    if w == [] then 0.0 else FreqSum(w[..|w| - 1]) + w[|w| - 1].freq
  }

  /** Samples offered and frequencies accepted since the last reset, and the mean carried over it. */
  datatype FilterState = FilterState(offsets: seq<Sample>, freqs: seq<Sample>, held: real, skipped: int)

  /** The truncated mean of the last `n` offsets, or of all of them when there are fewer. */
  function WindowOffsetMean(offsets: seq<Sample>, n: nat): int {
    var w := LastN(offsets, n);
    if w == [] then 0 else TruncSum(w, |w|)
  }

  function Share(x: real, n: nat): real
    requires n > 0
  {
    x / n as real
  }

  /** The mean of the last `n` accepted frequencies, once there are that many. */
  function WindowFreqMean(freqs: seq<Sample>, n: nat, held: real): real {
    if |freqs| < n || n == 0 then held else Share(FreqSum(LastN(freqs, n)), n)
  }

  function OffsetMean(cfg: FilterConfig, f: FilterState): int {
    WindowOffsetMean(f.offsets, cfg.ringSize)
  }

  function FreqMean(cfg: FilterConfig, f: FilterState): real {
    WindowFreqMean(f.freqs, cfg.ringSize, f.held)
  }

  predicate Steady(cfg: FilterConfig, offset: int64) {
    WrapInt64(-(cfg.offsetRange as int)) <= offset <= cfg.offsetRange
  }

  function Accept(cfg: FilterConfig, f: FilterState, s: Sample): FilterState {
    f.(offsets := f.offsets + [s], freqs := if Steady(cfg, s.offset) then f.freqs + [s] else f.freqs)
  }

  function Cleared(cfg: FilterConfig, f: FilterState): FilterState {
    FilterState([], [], FreqMean(cfg, f), 0)
  }

  datatype Verdict = NoSpike | Spike | ResetFilter

  /** `maxOffsetLocked` stands for the threshold computed from the deviations and the time passed. */
  function Judge(cfg: FilterConfig, f: FilterState, offset: int64, maxOffsetLocked: int64): Verdict {
    var size := if offset < 0 then WrapInt64(-(offset as int)) else offset;
    var limit := if maxOffsetLocked > cfg.minOffsetLocked then maxOffsetLocked else cfg.minOffsetLocked;
    if f.skipped >= cfg.maxSkipCount then ResetFilter
    else if |f.offsets| < cfg.ringSize then NoSpike
    else if size > limit then Spike else NoSpike
  }

  // ----- sums -------------------------------------------------------------------------------

  lemma {:induction false} TruncSumCons(w: seq<Sample>, c: nat)
    requires w != [] && c > 0
    ensures TruncSum(w, c) == TruncDiv(w[0].offset, c) + TruncSum(w[1..], c)
  {
    var n := |w| - 1;
    if n == 0 {
      assert w[..0] == [] && w[1..] == [];
    } else {
      TruncSumCons(w[..n], c);
      assert w[..n][1..] == w[1..][..n - 1];
    }
  }

  lemma {:induction false} FreqSumCons(w: seq<Sample>)
    requires w != []
    ensures FreqSum(w) == w[0].freq + FreqSum(w[1..])
  {
    var n := |w| - 1;
    if n == 0 {
      assert w[..0] == [] && w[1..] == [];
    } else {
      FreqSumCons(w[..n]);
      assert w[..n][1..] == w[1..][..n - 1];
    }
  }

  lemma QuotientOfSum(a: real, b: real, n: real)
    requires n > 0.0
    ensures (a + b) / n == a / n + b / n
  {
    var x, y := a / n, b / n;
    assert a == x * n && b == y * n;
    assert a + b == (x + y) * n;
    assert (x + y) * n / n == x + y;
  }

  lemma TruncTerm(a: int, c: nat)
    requires c > 0
    ensures a - c < c * TruncDiv(a, c) < a + c
    ensures a >= 0 ==> 0 <= c * TruncDiv(a, c) <= a
    ensures a <= 0 ==> a <= c * TruncDiv(a, c) <= 0
  {
    var m := Abs(a);
    assert m == c * (m / c) + m % c;
    assert c * -(m / c) == -(c * (m / c));
  }

  /** The truncated mean of `c` samples is within `c - 1` ns of their mean, without any division left. */
  lemma {:induction false} TruncSumError(w: seq<Sample>, c: nat)
    requires c > 0
    ensures OffsetSum(w) - |w| * (c - 1) <= c * TruncSum(w, c) <= OffsetSum(w) + |w| * (c - 1)
  {
    if w != [] {
      var n := |w| - 1;
      var t, d := TruncSum(w[..n], c), TruncDiv(w[n].offset, c);
      TruncSumError(w[..n], c);
      TruncTerm(w[n].offset, c);
      hide TruncDiv;
      ErrorStep(c, t, d, n, OffsetSum(w[..n]), w[n].offset);
    }
  }

  lemma ErrorStep(c: int, t: int, d: int, n: int, sum: int, o: int)
    requires sum - n * (c - 1) <= c * t <= sum + n * (c - 1)
    requires o - c < c * d < o + c
    ensures sum + o - (n + 1) * (c - 1) <= c * (t + d) <= sum + o + (n + 1) * (c - 1)
  {
    assert c * (t + d) == c * t + c * d;
    assert (n + 1) * (c - 1) == n * (c - 1) + (c - 1);
  }

  predicate FitsInt64(x: int) {
    -MAX_INT64 - 1 <= x <= MAX_INT64
  }

  /** The truncated mean of a window is an int64. */
  lemma TruncSumFits(w: seq<Sample>, c: nat)
    requires 0 < c && |w| <= c
    ensures FitsInt64(TruncSum(w, c))
  {
    TruncSumScaled(w, c);
    var t := TruncSum(w, c);
    ScaledFits(t, c, |w|);
  }

  lemma ScaledFits(t: int, c: int, n: int)
    requires c > 0 && n <= c
    requires -(n * (MAX_INT64 + 1)) <= c * t <= n * MAX_INT64
    ensures FitsInt64(t)
  {
    var top := MAX_INT64;
    assert n * top <= c * top && n * (top + 1) <= c * (top + 1);
    MulOrder(c, t, top);
    MulOrder(c, -(top + 1), t);
  }

  lemma MeanFits(offsets: seq<Sample>, n: nat)
    ensures WrapInt64(WindowOffsetMean(offsets, n)) == WindowOffsetMean(offsets, n)
  {
    var w := LastN(offsets, n);
    if w != [] {
      TruncSumFits(w, |w|);
    }
    hide TruncSum;
    WrapInt64Once(WindowOffsetMean(offsets, n));
  }

  /**
   Every partial sum of the loop that rebuilds the mean fits int64, except when the one sample since the
   reset is -2^63.
   */
  lemma PartialSumsFit(seen: seq<Sample>)
    requires seen != []
    ensures var c, newest := |seen|, seen[|seen| - 1].offset;
            (forall i :: 0 <= i <= c ==> FitsInt64(PartialSum(seen, c, newest, i))) <==>
            !(c == 1 && newest == -MAX_INT64 - 1)
  {
    var c, newest := |seen|, seen[|seen| - 1].offset;
    if c == 1 && newest == -MAX_INT64 - 1 {
      assert seen[..0] == [];
      assert PartialSum(seen, c, newest, 0) == MAX_INT64 + 1;
    } else {
      forall i | 0 <= i <= c
        ensures FitsInt64(PartialSum(seen, c, newest, i))
      {
        PartialSumFits(seen, i);
      }
    }
  }

  lemma PartialSumFits(seen: seq<Sample>, i: nat)
    requires seen != [] && i <= |seen| && !(|seen| == 1 && seen[0].offset == -MAX_INT64 - 1)
    ensures FitsInt64(PartialSum(seen, |seen|, seen[|seen| - 1].offset, i))
  {
    var c, newest := |seen|, seen[|seen| - 1].offset;
    var p := PartialSum(seen, c, newest, i);
    if i == c {
      assert seen[..c] == seen && seen[..c - 1] == seen[..c][..c - 1];
      TruncSumFits(seen[..c - 1], c);
    } else {
      TruncSumScaled(seen[..i], c);
      TruncTerm(newest, c);
      var t, d := TruncSum(seen[..i], c), TruncDiv(newest, c);
      assert p == t - d;
      hide TruncSum, TruncDiv, PartialSum;
      PartialRange(c, i, t, d, newest);
    }
  }

  lemma PartialRange(c: nat, i: nat, t: int, d: int, newest: int64)
    requires i < c && (c == 1 ==> newest != -MAX_INT64 - 1)
    requires -(i * (MAX_INT64 + 1)) <= c * t <= i * MAX_INT64
    requires (newest >= 0 ==> 0 <= c * d <= newest) && (newest <= 0 ==> newest <= c * d <= 0)
    ensures FitsInt64(t - d)
  {
    var top := MAX_INT64;
    assert c * (t - d) == c * t - c * d;
    assert i * top <= (c - 1) * top && i * (top + 1) <= (c - 1) * (top + 1);
    assert (c - 1) * top == c * top - top && (c - 1) * (top + 1) == c * (top + 1) - top - 1;
    assert c * (t - d) <= c * top + 1 && c * (t - d) >= -(c * (top + 1));
    if c * (t - d) == c * top + 1 {
      UnitDivides(c, t - d - top);
    } else {
      MulOrder(c, t - d, top);
    }
    MulOrder(c, -(top + 1), t - d);
  }

  lemma UnitDivides(c: nat, k: int)
    requires c * k == 1
    ensures c == 1
  {
  }

  lemma MulOrder(c: int, a: int, b: int)
    requires c > 0 && c * a <= c * b
    ensures a <= b
  {
    assert a > b ==> c * (a - b) > 0;
  }

  lemma {:induction false} TruncSumScaled(w: seq<Sample>, c: nat)
    requires 0 < c
    ensures -(|w| * (MAX_INT64 + 1)) <= c * TruncSum(w, c) <= |w| * MAX_INT64
  {
    if w != [] {
      var n := |w| - 1;
      TruncSumScaled(w[..n], c);
      TruncTerm(w[n].offset, c);
      var t, d := TruncSum(w[..n], c), TruncDiv(w[n].offset, c);
      assert c * (t + d) == c * t + c * d;
    }
  }

  /** The running mean of `c` offsets is less than `c` ns away from their true mean. */
  lemma OffsetMeanError(cfg: FilterConfig, f: FilterState)
    ensures var w := LastN(f.offsets, cfg.ringSize);
            OffsetSum(w) - |w| * (|w| - 1) <= |w| * OffsetMean(cfg, f) <= OffsetSum(w) + |w| * (|w| - 1)
  {
    var w := LastN(f.offsets, cfg.ringSize);
    if w != [] {
      TruncSumError(w, |w|);
    }
  }

  predicate Bounded(w: seq<Sample>, limit: real) {
    forall i :: 0 <= i < |w| ==> -limit <= w[i].freq <= limit
  }

  lemma {:induction false} FreqSumBounded(w: seq<Sample>, limit: real)
    requires Bounded(w, limit)
    ensures -(|w| as real * limit) <= FreqSum(w) <= |w| as real * limit
  {
    if w != [] {
      var n := |w| - 1;
      assert Bounded(w[..n], limit);
      FreqSumBounded(w[..n], limit);
      assert |w| as real * limit == n as real * limit + limit;
    }
  }

  /** The mean frequency never leaves a range that holds every accepted frequency and the held one. */
  lemma FreqMeanBounded(cfg: FilterConfig, f: FilterState, limit: real)
    requires Bounded(f.freqs, limit) && -limit <= f.held <= limit
    ensures -limit <= FreqMean(cfg, f) <= limit
  {
    if cfg.ringSize > 0 && |f.freqs| >= cfg.ringSize {
      var w := LastN(f.freqs, cfg.ringSize);
      FreqSumBounded(w, limit);
      QuotientBounded(FreqSum(w), cfg.ringSize as real, limit);
    }
  }

  lemma QuotientBounded(sum: real, n: real, limit: real)
    requires n > 0.0 && -(n * limit) <= sum <= n * limit
    ensures -limit <= sum / n <= limit
  {
    var q := sum / n;
    assert sum == q * n;
    assert q > limit ==> q * n > limit * n;
    assert q < -limit ==> q * n < -limit * n;
  }

  // ----- the program ------------------------------------------------------------------------

  class PiServoFilter {
    const cfg: FilterConfig
    var offsetMean: int64
    var lastOffset: int64
    var freqMean: real
    var skippedCount: int
    var offsetSamples: Ring<Sample>
    var offsetSamplesCount: nat
    var freqSamples: Ring<Sample>
    var freqSamplesCount: nat
    ghost var held: real

    ghost function Repr(): set<object>
      reads this
    {
      {this, offsetSamples, offsetSamples.slots, freqSamples, freqSamples.slots}
    }

    ghost predicate Valid()
      reads this, Repr()
    {
      && cfg.ringSize > 0
      && offsetSamples != freqSamples && offsetSamples.slots != freqSamples.slots
      && offsetSamples.Valid() && offsetSamples.slots.Length == cfg.ringSize
      && freqSamples.Valid() && freqSamples.slots.Length == cfg.ringSize
      && offsetSamplesCount == Min(|offsetSamples.pushed|, cfg.ringSize)
      && freqSamplesCount == Min(|freqSamples.pushed|, cfg.ringSize)
      && offsetMean == WindowOffsetMean(offsetSamples.pushed, cfg.ringSize)
      && freqMean == WindowFreqMean(freqSamples.pushed, cfg.ringSize, held)
    }

    ghost function State(): FilterState
      reads this, Repr()
    {
      FilterState(offsetSamples.pushed, freqSamples.pushed, held, skippedCount)
    }

    constructor (cfg: FilterConfig, lastFreq: real)
      requires cfg.ringSize > 0
      ensures Valid() && fresh(Repr()) && this.cfg == cfg
      ensures State() == FilterState([], [], lastFreq, 0)
    {
      this.cfg := cfg;
      offsetSamples := new Ring<Sample>(cfg.ringSize);
      freqSamples := new Ring<Sample>(cfg.ringSize);
      offsetMean, skippedCount, offsetSamplesCount, freqSamplesCount := 0, 0, 0, 0;
      lastOffset := 0;
      freqMean, held := lastFreq, lastFreq;
    }

    method Reset()
      requires Valid()
      modifies this
      ensures Valid() && fresh(Repr() - {this})
      ensures State() == old(Cleared(cfg, State()))
    {
      hide Ring<Sample>.Valid, WindowOffsetMean, WindowFreqMean;
      EmptyMeans(cfg.ringSize, freqMean);
      offsetSamples := new Ring<Sample>(cfg.ringSize);
      freqSamples := new Ring<Sample>(cfg.ringSize);
      offsetMean, skippedCount, offsetSamplesCount, freqSamplesCount := 0, 0, 0, 0;
      held := freqMean;
    }

    method IsSpike(offset: int64, maxOffsetLocked: int64) returns (v: Verdict)
      requires Valid()
      ensures v == Judge(cfg, State(), offset, maxOffsetLocked)
    {
      if skippedCount >= cfg.maxSkipCount {
        return ResetFilter;
      }
      if offsetSamplesCount != cfg.ringSize {
        return NoSpike;
      }
      var size := offset;
      if size < 0 {
        size := WrapInt64(-(size as int));
      }
      var limit := if maxOffsetLocked > cfg.minOffsetLocked then maxOffsetLocked else cfg.minOffsetLocked;
      if size > limit && skippedCount < cfg.maxSkipCount {
        return Spike;
      }
      return NoSpike;
    }

    method Sample(s: Sample)
      requires Valid()
      modifies Repr()
      ensures Valid() && Repr() == old(Repr())
      ensures State() == old(Accept(cfg, State(), s))
    {
      hide Ring<Sample>.Valid, WindowOffsetMean, WindowFreqMean, Steady;
      UpdateOffsets(s);
      lastOffset := s.offset;
      if Steady(cfg, lastOffset) && Steady(cfg, s.offset) {
        UpdateFreqs(s);
      }
    }

    /** The first half of `Sample`: the running truncated mean of the offsets. */
    method UpdateOffsets(s: Sample)
      requires Valid()
      modifies this`offsetMean, this`offsetSamplesCount, offsetSamples, offsetSamples.slots
      ensures Valid()
      ensures State() == old(State().(offsets := State().offsets + [s]))
    {
      hide Ring<Sample>.Valid, TruncDiv, TruncSum, LastN, WindowOffsetMean, WindowFreqMean, WrapInt64;
      ghost var before, n := offsetSamples.pushed, cfg.ringSize;
      MeanFits(before + [s], n);
      if offsetSamples.Value().Some? {
        var oldest := offsetSamples.Value().value.offset;
        OffsetMeanFull(before, s, n);
        WrapInt64Sum(offsetMean - TruncDiv(oldest, offsetSamplesCount), TruncDiv(s.offset, offsetSamplesCount));
        offsetMean := WrapInt64(offsetMean - TruncDiv(oldest, offsetSamplesCount));
      }
      offsetSamples.Push(s);
      if offsetSamplesCount != cfg.ringSize {
        OffsetMeanGrowing(before, s, n);
        offsetSamplesCount := offsetSamplesCount + 1;
        var seen := offsetSamples.Visit();
        offsetMean := SumTruncated(seen, offsetSamplesCount, s.offset);
      }
      offsetMean := WrapInt64(offsetMean + TruncDiv(s.offset, offsetSamplesCount));
    }

    /** The second half of `Sample`: the running mean of the accepted frequencies. */
    method UpdateFreqs(s: Sample)
      requires Valid()
      modifies this`freqMean, this`freqSamplesCount, freqSamples, freqSamples.slots
      ensures Valid()
      ensures State() == old(State().(freqs := State().freqs + [s]))
    {
      hide Ring<Sample>.Valid, FreqSum, Share, LastN, WindowOffsetMean, WindowFreqMean;
      ghost var before := freqSamples.pushed;
      FreqMeanPush(before, s, cfg.ringSize, held);
      if freqSamples.Value().Some? {
        freqMean := freqMean - Share(freqSamples.Value().value.freq, freqSamplesCount);
        freqSamples.Push(s);
        freqMean := freqMean + Share(s.freq, freqSamplesCount);
      } else {
        freqSamples.Push(s);
        freqSamplesCount := freqSamplesCount + 1;
        if freqSamples.Value().Some? {
          var seen := freqSamples.Visit();
          freqMean := SumScaled(seen, freqSamplesCount);
        }
      }
    }
  }

  lemma EmptyMeans(n: nat, held: real)
    requires n > 0
    ensures WindowOffsetMean([], n) == 0 && WindowFreqMean([], n, held) == held
  {
  }

  /** How the truncated mean moves when one more sample enters a full window. */
  lemma OffsetMeanFull(pushed: seq<Sample>, s: Sample, n: nat)
    requires 0 < n <= |pushed|
    ensures WindowOffsetMean(pushed + [s], n) ==
            WindowOffsetMean(pushed, n) - TruncDiv(pushed[|pushed| - n].offset, n) + TruncDiv(s.offset, n)
  {
    hide TruncDiv;
    LastNPush(pushed, s, n);
    var w, next := LastN(pushed, n), LastN(pushed + [s], n);
    TruncSumCons(w, n);
    assert next[..n - 1] == w[1..];
  }

  /** While the window grows the mean is rebuilt, since every share changes. */
  lemma OffsetMeanGrowing(pushed: seq<Sample>, s: Sample, n: nat)
    requires |pushed| < n
    ensures WindowOffsetMean(pushed + [s], n) == TruncSum(LastN(pushed + [s], n), |pushed| + 1)
  {
    hide TruncSum;
  }

  /** How the mean frequency moves when one more sample enters the window. */
  lemma FreqMeanPush(pushed: seq<Sample>, s: Sample, n: nat, held: real)
    requires 0 < n
    ensures |pushed| >= n ==>
              WindowFreqMean(pushed + [s], n, held) ==
              WindowFreqMean(pushed, n, held) - Share(pushed[|pushed| - n].freq, n) + Share(s.freq, n)
    ensures |pushed| + 1 == n ==>
              WindowFreqMean(pushed + [s], n, held) == Share(FreqSum(LastN(pushed + [s], n)), n)
    ensures |pushed| + 1 < n ==> WindowFreqMean(pushed + [s], n, held) == WindowFreqMean(pushed, n, held)
  {
    LastNPush(pushed, s, n);
    if |pushed| >= n {
      var w, next := LastN(pushed, n), LastN(pushed + [s], n);
      FreqSumCons(w);
      assert next[..n - 1] == w[1..];
      QuotientOfSum(w[0].freq, FreqSum(w[1..]), n as real);
      QuotientOfSum(FreqSum(w[1..]), s.freq, n as real);
    }
  }

  /** What the int64 mean holds after the first `i` turns of the loop that rebuilds it, without wraparound. */
  function PartialSum(seen: seq<Sample>, c: nat, newest: int64, i: nat): int
    requires c > 0 && i <= |seen|
  {
    TruncSum(seen[..i], c) - TruncDiv(newest, c)
  }

  /** The closure that rebuilds the offset mean while the ring fills up, starting below zero by the newest share. */
  method SumTruncated(seen: seq<Sample>, c: nat, newest: int64) returns (mean: int64)
    requires c > 0
    ensures mean == WrapInt64(PartialSum(seen, c, newest, |seen|))
    ensures WrapInt64(mean + TruncDiv(newest, c)) == WrapInt64(TruncSum(seen, c))
  {
    hide TruncDiv, WrapInt64;
    mean := WrapInt64(-TruncDiv(newest, c));
    for i := 0 to |seen|
      invariant mean == WrapInt64(PartialSum(seen, c, newest, i))
    {
      assert seen[..i + 1][..i] == seen[..i];
      WrapInt64Sum(PartialSum(seen, c, newest, i), TruncDiv(seen[i].offset, c));
      mean := WrapInt64(mean + TruncDiv(seen[i].offset, c));
    }
    assert seen[..|seen|] == seen;
    WrapInt64Sum(PartialSum(seen, c, newest, |seen|), TruncDiv(newest, c));
  }

  /** The closure that computes the frequency mean when the ring becomes full. */
  method SumScaled(seen: seq<Sample>, c: nat) returns (mean: real)
    requires c > 0
    ensures mean == Share(FreqSum(seen), c)
  {
    mean := 0.0;
    for i := 0 to |seen|
      invariant mean == Share(FreqSum(seen[..i]), c)
    {
      assert seen[..i + 1][..i] == seen[..i];
      QuotientOfSum(FreqSum(seen[..i]), seen[i].freq, c as real);
      mean := mean + Share(seen[i].freq, c);
    }
    assert seen[..|seen|] == seen;
  }
}
