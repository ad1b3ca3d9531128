/**
 The window of uncertainty from the daemon to the client (fbclock/shmem.go, fbclock/fbclock.c): values
 are quantised into the shared record, and the client rebuilds an interval that contains true time.
 Doubles are exact reals here.
 */
module TrueTime {
  import opened Words
  import opened Smear

  /** What the daemon wants to publish. */
  datatype Data = Data(ingressNs: int64, errorBoundNs: uint64, holdoverNs: real, smear: SmearData)

  /** What the shared record holds. */
  datatype ClockData = ClockData(ingressNs: int64, errorBoundNs: uint32, multiplier: uint32, smear: SmearData)

  const POW2_16: real := 65536.0
  const NS: real := 1000000000.0

  /** A nonnegative number in units of 2^-16, saturated. */
  function FloatAsUint32(x: real): uint32
    requires x >= 0.0
  {
    var scaled := POW2_16 * x;
    if scaled > MAX_UINT32 as real then MAX_UINT32 else scaled.Floor
  }

  function Uint64ToUint32(x: uint64): uint32 {
    if x > MAX_UINT32 then MAX_UINT32 else x
  }

  function Stored(d: Data): ClockData
    requires d.holdoverNs >= 0.0
  {
    ClockData(d.ingressNs, Uint64ToUint32(d.errorBoundNs), FloatAsUint32(d.holdoverNs), d.smear)
  }

  datatype Code = NoError | NoData | WouTooBig | PtpReadOffset | PhcInThePast

  datatype Interval = Interval(earliest: uint64, latest: uint64)

  /** One request to the PTP device: it fails, or gives a timestamp and how long it took. */
  datatype Reading = Failed | Reading(ts: int64, delay: int64)

  /** The check on the record, before the device is asked. */
  function Screen(r: ClockData): Code {
    if r.errorBoundNs == 0 || r.ingressNs == 0 then NoData
    else if r.errorBoundNs == MAX_UINT32 || r.multiplier == MAX_UINT32 then WouTooBig
    else NoError
  }

  /** Nanoseconds of drift per second, as the client reads them. */
  function Rate(multiplier: uint32): real {
    multiplier as real / POW2_16
  }

  function Seconds(elapsedNs: nat): real {
    elapsedNs as real / NS
  }

  /** Drift of `h` ns per second over `s` seconds, cut to whole nanoseconds. */
  function Drifted(h: real, s: real): int {
    (h * s).Floor
  }

  function Holdover(multiplier: uint32, elapsedNs: nat): int {
    Drifted(Rate(multiplier), Seconds(elapsedNs))
  }

  /** The half width of the interval, without any wraparound. */
  function HalfWidth(r: ClockData, delay: int64, ts: int64): int
    requires r.ingressNs <= ts
  {
    r.errorBoundNs + delay + Holdover(r.multiplier, ts - r.ingressNs)
  }

  /** `fbclock_window_of_uncertainty` on uint64. */
  function WindowOfUncertainty(seconds: real, errorBound: uint64, h: real): uint64 {
    WrapUint64(errorBound + Drifted(h, seconds))
  }

  // ----- the client -------------------------------------------------------------------------

  function Smallest(delays: seq<int64>): int64 {
    if delays == [] then MAX_INT64
    else
      var rest := Smallest(delays[..|delays| - 1]);
      if delays[|delays| - 1] < rest then delays[|delays| - 1] else rest
  }

  class Client {
    var minPhcDelay: int64
    ghost var delays: seq<int64>

    ghost predicate Valid()
      reads this
    {
      minPhcDelay == Smallest(delays) && forall i :: 0 <= i < |delays| ==> delays[i] >= 0
    }

    constructor ()
      ensures Valid() && delays == []
    {
      minPhcDelay := MAX_INT64;
      delays := [];
    }

    /** `fbclock_gettime_tz`, with the record that was loaded and the answer of the device. */
    method GetTime(r: ClockData, reading: Reading, utc: bool) returns (code: Code, tt: Interval)
      requires Valid() && (utc ==> Convertible(r.smear))
      modifies this
      ensures Valid()
      ensures delays == if Screen(r) == NoError && reading.Reading? && reading.delay >= 0
                        then old(delays) + [reading.delay] else old(delays)
      ensures code == if Screen(r) != NoError then Screen(r)
                      else if reading.Failed? || reading.delay < 0 then PtpReadOffset
                      else if r.ingressNs > reading.ts then PhcInThePast
                      else NoError
      ensures code == NoError ==> tt == Around(r, Smallest(delays), reading.ts, utc)
    {
      hide Convertible, Around;
      tt := Interval(0, 0);
      if r.errorBoundNs == 0 || r.ingressNs == 0 {
        return NoData, tt;
      }
      if r.errorBoundNs == MAX_UINT32 || r.multiplier == MAX_UINT32 {
        return WouTooBig, tt;
      }
      if reading.Failed? || reading.delay < 0 {
        return PtpReadOffset, tt;
      }
      assert (delays + [reading.delay])[..|delays|] == delays;
      if reading.delay < minPhcDelay {
        minPhcDelay := reading.delay;
      }
      delays := delays + [reading.delay];
      SmallestInRange(delays);
      code, tt := CalculateTime(r, minPhcDelay, reading.ts, utc);
    }
  }

  /** The interval of half width `HalfWidth` around the PHC time in the wanted time scale. */
  function Around(r: ClockData, delay: int64, ts: int64, utc: bool): Interval
    requires r.ingressNs <= ts && (utc ==> Convertible(r.smear))
  {
    var t := if utc then ApplyUtcOffset(r.smear, ts) else ts;
    var w := HalfWidth(r, delay, ts);
    Interval(WrapUint64(t - w), WrapUint64(t + w))
  }

  /** The sum of error bound and delay, then `fbclock_calculate_time`. */
  method CalculateTime(r: ClockData, delay: int64, ts: int64, utc: bool) returns (code: Code, tt: Interval)
    requires delay >= 0 && (utc ==> Convertible(r.smear))
    ensures code == if r.ingressNs > ts then PhcInThePast else NoError
    ensures code == NoError ==> tt == Around(r, delay, ts, utc)
  {
    hide WrapUint64, WrapInt64, ApplyUtcOffset, Drifted, Rate, Seconds, WindowOfUncertainty, Convertible, HalfWidth;
    if r.ingressNs > ts {
      return PhcInThePast, Interval(0, 0);
    }
    var errorBound := WrapUint64(r.errorBoundNs + delay);
    var w := WindowOfUncertainty(Seconds(ts - r.ingressNs), errorBound, Rate(r.multiplier));
    WidthFits(r, delay, ts);
    if utc {
      var u := ApplyUtcOffset(r.smear, ts);
      var t := WrapInt64(u);
      SignedAgain(u, w);
      return NoError, Interval(WrapUint64(t - w), WrapUint64(t + w));
    }
    return NoError, Interval(WrapUint64(ts - w), WrapUint64(ts + w));
  }

  lemma {:induction false} SmallestInRange(delays: seq<int64>)
    requires forall i :: 0 <= i < |delays| ==> delays[i] >= 0
    ensures 0 <= Smallest(delays)
    ensures forall i :: 0 <= i < |delays| ==> Smallest(delays) <= delays[i]
    ensures delays != [] ==> Smallest(delays) in delays || Smallest(delays) == MAX_INT64
  {
    if delays != [] {
      SmallestInRange(delays[..|delays| - 1]);
      assert forall i :: 0 <= i < |delays| - 1 ==> delays[i] == delays[..|delays| - 1][i];
    }
  }

  /** A uint64 stored in an int64 and widened again is the same modulo 2^64. */
  lemma SignedAgain(u: uint64, w: uint64)
    ensures WrapUint64(WrapInt64(u) - w) == WrapUint64(u - w)
    ensures WrapUint64(WrapInt64(u) + w) == WrapUint64(u + w)
  {
    if u >= TWO_POW_64 / 2 {
      WrapShift(u - w, -1);
      WrapShift(u + w, -1);
    }
  }

  lemma ProductBounds(a: real, b: real, p: real, q: real)
    requires 0.0 <= a <= p && 0.0 <= b <= q
    ensures 0.0 <= a * b <= p * q
  {
    assert a * b <= p * b;
    assert p * b <= p * q;
  }

  lemma HoldoverBounds(multiplier: uint32, elapsedNs: nat)
    requires elapsedNs <= TWO_POW_64
    ensures 0 <= Holdover(multiplier, elapsedNs) <= 65536 * 18446744074
  {
    var h, s := Rate(multiplier), Seconds(elapsedNs);
    ProductBounds(h, s, 65536.0, 18446744074.0);
    hide Rate, Seconds;
    assert 0.0 <= h * s <= 65536.0 * 18446744074.0;
  }

  /** No sum of the client overflows: the window it computes is the true half width. */
  lemma WidthFits(r: ClockData, delay: int64, ts: int64)
    requires r.ingressNs <= ts && delay >= 0
    ensures 0 <= HalfWidth(r, delay, ts) < TWO_POW_64
    ensures WindowOfUncertainty(Seconds(ts - r.ingressNs), WrapUint64(r.errorBoundNs + delay), Rate(r.multiplier)) ==
            HalfWidth(r, delay, ts)
  {
    HoldoverBounds(r.multiplier, ts - r.ingressNs);
    hide Drifted, Rate, Seconds;
    assert WrapUint64(r.errorBoundNs + delay) == r.errorBoundNs + delay;
  }

  // ----- from the daemon to the client ------------------------------------------------------

  /** A record that the client accepts was stored without saturation, and conversely. */
  lemma AcceptedIff(d: Data)
    requires d.holdoverNs >= 0.0
    ensures Screen(Stored(d)) == NoData <==> d.errorBoundNs == 0 || d.ingressNs == 0
    ensures Screen(Stored(d)) == NoError <==>
              && d.errorBoundNs != 0 && d.ingressNs != 0
              && d.errorBoundNs < MAX_UINT32 && POW2_16 * d.holdoverNs < MAX_UINT32 as real
  {
  }

  /** The stored rate is below the published one by less than one unit. */
  lemma QuantisedRate(x: real)
    requires x >= 0.0 && POW2_16 * x < MAX_UINT32 as real
    ensures 0.0 <= x - Rate(FloatAsUint32(x)) <= 1.0 / POW2_16
  {
  }

  lemma QuantisedHoldover(x: real, elapsedNs: nat)
    requires x >= 0.0 && POW2_16 * x < MAX_UINT32 as real
    ensures var s := Seconds(elapsedNs);
            x * s - s / POW2_16 - 1.0 < Holdover(FloatAsUint32(x), elapsedNs) as real <= x * s
  {
    var s, h := Seconds(elapsedNs), Rate(FloatAsUint32(x));
    QuantisedRate(x);
    assert s >= 0.0;
    hide Rate, Seconds, FloatAsUint32;
    Shortfall(x, h, s);
  }

  lemma Shortfall(x: real, h: real, s: real)
    requires 0.0 <= x - h <= 1.0 / POW2_16 && s >= 0.0
    ensures x * s - s / POW2_16 - 1.0 < Drifted(h, s) as real <= x * s
  {
    var p, q := h * s, x * s;
    assert q - p == (x - h) * s;
    ProductBounds(x - h, s, 1.0 / POW2_16, s);
    assert 0.0 <= q - p <= s / POW2_16;
    assert p - 1.0 < p.Floor as real <= p;
  }

  /** The half width the daemon has in mind `s` seconds after the last sync: W + delay + h * s. */
  function Wanted(d: Data, delay: int64, s: real): real {
    d.errorBoundNs as real + delay as real + d.holdoverNs * s
  }

  /**
   End to end: the window of an accepted record covers the published bound, the smallest device
   delay and the drift since the last sync, short of it by less than quantisation and one nanosecond.
   */
  lemma WindowBounds(d: Data, delay: int64, ts: int64)
    requires d.holdoverNs >= 0.0 && Screen(Stored(d)) == NoError && d.ingressNs <= ts
    ensures var s := Seconds(ts - d.ingressNs);
            Wanted(d, delay, s) - s / POW2_16 - 1.0 < HalfWidth(Stored(d), delay, ts) as real <= Wanted(d, delay, s)
  {
    AcceptedIff(d);
    hide *;
    UnsaturatedBounds(d, delay, ts);
  }

  lemma UnsaturatedBounds(d: Data, delay: int64, ts: int64)
    requires d.holdoverNs >= 0.0 && d.errorBoundNs < MAX_UINT32 && d.ingressNs <= ts
    requires POW2_16 * d.holdoverNs < MAX_UINT32 as real
    ensures var s := Seconds(ts - d.ingressNs);
            Wanted(d, delay, s) - s / POW2_16 - 1.0 < HalfWidth(Stored(d), delay, ts) as real <= Wanted(d, delay, s)
  {
    hide *;
    QuantisedHoldover(d.holdoverNs, ts - d.ingressNs);
    StoredWidth(d, delay, ts);
    var s, h := Seconds(ts - d.ingressNs), Holdover(FloatAsUint32(d.holdoverNs), ts - d.ingressNs);
    WantedBounds(d, delay, s, h);
  }

  lemma StoredWidth(d: Data, delay: int64, ts: int64)
    requires d.holdoverNs >= 0.0 && d.errorBoundNs < MAX_UINT32 && d.ingressNs <= ts
    ensures HalfWidth(Stored(d), delay, ts) ==
            d.errorBoundNs + delay + Holdover(FloatAsUint32(d.holdoverNs), ts - d.ingressNs)
  {
    hide Holdover, FloatAsUint32;
  }

  lemma WantedBounds(d: Data, delay: int64, s: real, h: int)
    requires d.holdoverNs * s - s / POW2_16 - 1.0 < h as real <= d.holdoverNs * s
    ensures var w := (d.errorBoundNs + delay + h) as real;
            Wanted(d, delay, s) - s / POW2_16 - 1.0 < w <= Wanted(d, delay, s)
  {
  }

  /**
   What the interval is for: when the clock is within the published bound plus drift of true time,
   and the device delay covers what quantisation took away, true time is inside.
   */
  lemma TruthInside(d: Data, delay: int64, ts: int64, truth: real)
    requires d.holdoverNs >= 0.0 && Screen(Stored(d)) == NoError && d.ingressNs <= ts
    requires var bound := Wanted(d, 0, Seconds(ts - d.ingressNs));
             ts as real - bound <= truth <= ts as real + bound
    requires delay as real >= Seconds(ts - d.ingressNs) / POW2_16 + 1.0
    ensures var w := HalfWidth(Stored(d), delay, ts) as real;
            ts as real - w <= truth <= ts as real + w
    ensures var w, tt := HalfWidth(Stored(d), delay, ts), Around(Stored(d), delay, ts, false);
            w <= ts && ts + w < TWO_POW_64 ==> tt.earliest as real <= truth <= tt.latest as real
  {
    WindowBounds(d, delay, ts);
    WantedDelay(d, delay, Seconds(ts - d.ingressNs));
    assert delay >= 0 by {
      assert Seconds(ts - d.ingressNs) >= 0.0;
    }
    TaiEnds(Stored(d), delay, ts);
    hide HalfWidth, Seconds, Screen, Around, Stored, Wanted;
  }

  lemma WantedDelay(d: Data, delay: int64, s: real)
    ensures Wanted(d, delay, s) == Wanted(d, 0, s) + delay as real
  {
  }

  lemma HoldoverSlope(multiplier: uint32, a: nat, b: nat)
    requires a <= b
    ensures 0 <= Holdover(multiplier, b) - Holdover(multiplier, a) <= b - a
  {
    var h, d := Rate(multiplier), Seconds(b - a);
    assert 0.0 <= h <= 65536.0 && Seconds(b) == Seconds(a) + d;
    assert 0.0 <= d && 65536.0 * d <= (b - a) as real;
    hide Rate, Seconds;
    ProductBounds(h, d, 65536.0, d);
    assert 0.0 <= h * d <= 65536.0 * d;
    DriftSlope(h, Seconds(a), d, b - a);
  }

  /** Less than one nanosecond of drift per nanosecond moves the floor by at most the time passed. */
  lemma DriftSlope(h: real, s: real, d: real, n: nat)
    requires 0.0 <= h * d <= n as real
    ensures 0 <= Drifted(h, s + d) - Drifted(h, s) <= n
  {
    var x, y := h * s, h * d;
    assert h * (s + d) == x + y;
    FloorSlope(x, y, n);
  }

  lemma FloorSlope(x: real, y: real, n: nat)
    requires 0.0 <= y <= n as real
    ensures 0 <= (x + y).Floor - x.Floor <= n
  {
    assert (x + n as real).Floor == x.Floor + n;
  }

  /** The interval that is returned has the ends it should have exactly when they are uint64 values. */
  lemma TaiEnds(r: ClockData, delay: int64, ts: int64)
    requires r.ingressNs <= ts && delay >= 0
    ensures var tt, w := Around(r, delay, ts, false), HalfWidth(r, delay, ts);
            && (tt.earliest == ts - w <==> w <= ts)
            && (tt.latest == ts + w <==> 0 <= ts + w < TWO_POW_64)
  {
    hide HalfWidth, WindowOfUncertainty, WrapUint64;
    WidthFits(r, delay, ts);
    TaiEndsOf(ts, HalfWidth(r, delay, ts));
  }

  lemma TaiEndsOf(ts: int64, w: uint64)
    ensures WrapUint64(ts - w) == ts - w <==> w <= ts
    ensures WrapUint64(ts + w) == ts + w <==> 0 <= ts + w < TWO_POW_64
  {
    hide WrapUint64;
    WrapFixed(ts + w);
    WrapFixed(ts - w);
  }

  lemma WrapFixed(x: int)
    ensures WrapUint64(x) == x <==> 0 <= x < TWO_POW_64
  {
  }

  /** For one record, both ends of the TAI interval move forward with the PHC. */
  lemma IntervalAdvances(r: ClockData, delay: int64, s: int64, t: int64)
    requires r.ingressNs <= s <= t && delay >= 0
    ensures s - HalfWidth(r, delay, s) <= t - HalfWidth(r, delay, t)
    ensures s + HalfWidth(r, delay, s) <= t + HalfWidth(r, delay, t)
    ensures HalfWidth(r, delay, s) <= s ==>
              Around(r, delay, s, false).earliest <= Around(r, delay, t, false).earliest
    ensures 0 <= s + HalfWidth(r, delay, s) && t + HalfWidth(r, delay, t) < TWO_POW_64 ==>
              Around(r, delay, s, false).latest <= Around(r, delay, t, false).latest
  {
    HoldoverSlope(r.multiplier, s - r.ingressNs, t - r.ingressNs);
    TaiEnds(r, delay, s);
    TaiEnds(r, delay, t);
    hide Holdover, Around;
  }

  // ----- the interval in UTC ----------------------------------------------------------------

  /** Drift below 65536 ns per second: a second tick takes more than 15258 ns. */
  lemma HoldoverTicks(multiplier: uint32, a: nat, b: nat)
    requires a < b
    ensures 15258 * (Holdover(multiplier, b) - Holdover(multiplier, a) - 1) < b - a
  {
    var h, d := Rate(multiplier), Seconds(b - a);
    assert 0.0 <= h <= 65536.0 && Seconds(b) == Seconds(a) + d;
    assert 0.0 <= d && 15258.0 * (65536.0 * d) < (b - a) as real;
    hide Rate, Seconds;
    ProductBounds(h, d, 65536.0, d);
    TickBound(h, Seconds(a), d, b - a);
  }

  lemma TickBound(h: real, s: real, d: real, n: nat)
    requires 15258.0 * (h * d) < n as real
    ensures 15258 * (Drifted(h, s + d) - Drifted(h, s) - 1) < n
  {
    var x, y := h * s, h * d;
    assert h * (s + d) == x + y;
    var k := (x + y).Floor - x.Floor - 1;
    assert k as real < y;
    assert 15258.0 * k as real < n as real;
  }

  function UtcEarliest(r: ClockData, delay: int64, ts: int64): int
    requires r.ingressNs <= ts
  {
    Utc(r.smear, ts) - HalfWidth(r, delay, ts)
  }

  function UtcLatest(r: ClockData, delay: int64, ts: int64): int
    requires r.ingressNs <= ts
  {
    Utc(r.smear, ts) + HalfWidth(r, delay, ts)
  }

  /**
   In UTC the later end never moves back either. The earlier one may, by a single nanosecond, when a
   tick of the drift meets a tick of the smear; never over three nanoseconds or more. That holds for a
   gentle window, and on each side of the end of any window of at most one second.
   */
  lemma UtcIntervalAdvances(r: ClockData, delay: int64, s: int64, t: int64)
    requires Located(r.smear) && Leaps(r.smear) && r.ingressNs <= s <= t && Smooth(r.smear, s, t)
    ensures UtcLatest(r, delay, s) <= UtcLatest(r, delay, t)
    ensures UtcEarliest(r, delay, s) <= UtcEarliest(r, delay, t) + 1
    ensures t - s >= 3 ==> UtcEarliest(r, delay, s) <= UtcEarliest(r, delay, t)
  {
    hide Holdover, Utc, Located, Smooth;
    SmearLoss(r.smear, s, t);
    HoldoverSlope(r.multiplier, s - r.ingressNs, t - r.ingressNs);
    if s < t {
      HoldoverTicks(r.multiplier, s - r.ingressNs, t - r.ingressNs);
    }
    var n, loss := t - s, t - s - (Utc(r.smear, t) - Utc(r.smear, s));
    var ticks := Holdover(r.multiplier, t - r.ingressNs) - Holdover(r.multiplier, s - r.ingressNs);
    LossAndTicks(n, loss, ticks);
  }

  lemma LossAndTicks(n: nat, loss: int, ticks: int)
    requires loss <= n && SMEAR_STEP_NS * (loss - 2) <= n
    requires 0 <= ticks <= n && (n > 0 ==> 15258 * (ticks - 1) < n)
    ensures loss + ticks <= n + 1 && (n >= 3 ==> loss + ticks <= n)
  {
  }

  /**
   Across the end of a window that is not gentle both ends fall, the later one by no more than UTC does
   and the earlier one by at most a nanosecond more. From the last nanosecond to the next a tick of the
   drift decides between the two.
   */
  lemma UtcIntervalDrops(r: ClockData, delay: int64, s: int64, t: int64)
    requires Located(r.smear) && Leaps(r.smear) && r.smear.postS - r.smear.preS <= 1 && !GentleWindow(r.smear)
    requires r.ingressNs <= s <= r.smear.endS * NS_PER_S < t
    ensures UtcLatest(r, delay, s) - UtcLatest(r, delay, t) <= Drop(r.smear)
    ensures UtcEarliest(r, delay, s) - UtcEarliest(r, delay, t) <= Drop(r.smear) + 1
    ensures t == s + 1 ==>
              var tick := Holdover(r.multiplier, t - r.ingressNs) - Holdover(r.multiplier, s - r.ingressNs);
              && 0 <= tick <= 1
              && UtcLatest(r, delay, s) - UtcLatest(r, delay, t) == Drop(r.smear) - tick
              && UtcEarliest(r, delay, s) - UtcEarliest(r, delay, t) == Drop(r.smear) + tick
  {
    var d, end := r.smear, r.smear.endS * NS_PER_S;
    hide Holdover, Utc, GentleWindow, Drop;
    SideLoss(d, s, end);
    SideLoss(d, end + 1, t);
    DropAtEnd(d);
    HoldoverSlope(r.multiplier, s - r.ingressNs, t - r.ingressNs);
    HoldoverTicks(r.multiplier, s - r.ingressNs, t - r.ingressNs);
    var ticks := Holdover(r.multiplier, t - r.ingressNs) - Holdover(r.multiplier, s - r.ingressNs);
    LateUtc(d, end + 1);
    LateUtc(d, t);
    AcrossEnd(end - s, t - s, end - s - (Utc(d, end) - Utc(d, s)), ticks);
  }

  lemma AcrossEnd(a: nat, n: nat, loss: int, ticks: int)
    requires a < n && loss <= a && SMEAR_STEP_NS * (loss - 1) < a
    requires 0 <= ticks <= n && 15258 * (ticks - 1) < n
    ensures loss + ticks <= n
  {
  }

  /** The daemon's window for a positive leap second: the fall is 38461538 ns. */
  lemma PublishedDrop(leaps: seq<LeapSecond>)
    requires |leaps| >= 2
    requires var d := LeapSecondSmearing(leaps);
             Located(d) && d.postS == d.preS + 1 && d.startS + LEAP_DURATION_S < TWO_POW_64
    ensures var d := LeapSecondSmearing(leaps);
            Drop(d) == 38461538 && !GentleWindow(d)
  {
    PublishedWindow(leaps);
    hide LeapSecondSmearing;
  }

  // ----- when the earlier end moves back -----------------------------------------------------

  const UNITS: int := 65536 * 1000000000

  /** The drift so far, in whole numbers. */
  lemma HoldoverExact(multiplier: uint32, elapsedNs: nat)
    ensures Holdover(multiplier, elapsedNs) == multiplier * elapsedNs / UNITS
  {
    var a := multiplier * elapsedNs;
    SharedQuotient(multiplier as real, elapsedNs as real);
    assert multiplier as real * elapsedNs as real == a as real;
    FloorOfQuotient(a, UNITS);
  }

  lemma SharedQuotient(x: real, y: real)
    ensures x / POW2_16 * (y / NS) == x * y / UNITS as real
  {
    var p, q := x / POW2_16, y / NS;
    assert x == p * POW2_16 && y == q * NS;
    assert x * y == p * q * (POW2_16 * NS);
  }

  lemma FloorOfQuotient(a: int, k: int)
    requires k > 0
    ensures (a as real / k as real).Floor == a / k
  {
    var q, rest := a / k, a % k;
    assert a == k * q + rest;
    WholeSum(k, q, rest);
    RealQuotient(a as real, k as real, q as real, rest as real);
  }

  lemma WholeSum(k: int, q: int, rest: int)
    ensures (k * q + rest) as real == q as real * k as real + rest as real
  {
  }

  lemma RealQuotient(a: real, k: real, q: real, rest: real)
    requires k > 0.0 && a == q * k + rest && 0.0 <= rest < k
    ensures q <= a / k < q + 1.0
  {
    assert a == a / k * k;
    Between(a / k, k, q, rest);
  }

  lemma Between(x: real, k: real, q: real, rest: real)
    requires k > 0.0 && x * k == q * k + rest && 0.0 <= rest < k
    ensures q <= x < q + 1.0
  {
    var y := x - q;
    var p, r, s := x * k, q * k, y * k;
    assert s == p - r;
    UnitRange(y, k, s);
  }

  lemma UnitRange(y: real, k: real, s: real)
    requires k > 0.0 && s == y * k && 0.0 <= s < k
    ensures 0.0 <= y < 1.0
  {
    assert y < 0.0 ==> y * k < 0.0;
    assert y >= 1.0 ==> y * k >= k;
  }

  /** The drift grows from one nanosecond to the next: the product passes a multiple of 65536 * 10^9. */
  predicate Ticks(multiplier: uint32, elapsedNs: nat) {
    multiplier * (elapsedNs + 1) % UNITS < multiplier
  }

  lemma TicksIff(multiplier: uint32, elapsedNs: nat)
    ensures Holdover(multiplier, elapsedNs + 1) == Holdover(multiplier, elapsedNs) + if Ticks(multiplier, elapsedNs) then 1 else 0
  {
    hide Holdover;
    HoldoverExact(multiplier, elapsedNs);
    HoldoverExact(multiplier, elapsedNs + 1);
    assert multiplier * (elapsedNs + 1) == multiplier * elapsedNs + multiplier;
    Carry(multiplier * elapsedNs, multiplier, UNITS);
  }

  lemma Carry(a: nat, m: nat, k: nat)
    requires m < k
    ensures (a + m) / k == a / k + if (a + m) % k < m then 1 else 0
  {
    var q, rest := a / k, a % k;
    if rest + m >= k {
      assert a + m == k * (q + 1) + (rest + m - k);
      ModUnique(a + m, k, q + 1, rest + m - k);
    } else {
      ModUnique(a + m, k, q, rest + m);
    }
  }

  /**
   From one nanosecond to the next the earlier end moves back exactly when UTC stands still and the
   drift ticks, or at the end of a window that is not gentle; both can be read off the record.
   */
  lemma StepBackIff(r: ClockData, delay: int64, s: int64)
    requires Located(r.smear) && Leaps(r.smear) && r.smear.postS - r.smear.preS <= 1 && r.ingressNs <= s < MAX_INT64
    ensures UtcEarliest(r, delay, s + 1) < UtcEarliest(r, delay, s) <==>
              || (StandsStill(r.smear, s) && Ticks(r.multiplier, s - r.ingressNs))
              || (s == r.smear.endS * NS_PER_S && !GentleWindow(r.smear))
  {
    hide Holdover, Utc, Located, GentleWindow, StandsStill, Ticks;
    StandsStillIff(r.smear, s);
    TicksIff(r.multiplier, s - r.ingressNs);
  }

  /** It does happen: 1 ns of drift per second, 13 s after a sync at the start of the window. */
  lemma StepBackHappens(start: nat, delay: int64)
    requires 37 <= start <= 9000000000
    ensures var r := ClockData(start * NS_PER_S, 1, 65536, SmearData(start, start + 65000, 36, 37));
            var t := (start + 13) * NS_PER_S;
            && Located(r.smear) && Leaps(r.smear) && GentleWindow(r.smear) && Screen(r) == NoError
            && UtcEarliest(r, delay, t) == UtcEarliest(r, delay, t - 1) - 1
  {
    HoldoverExact(65536, 13 * NS_PER_S);
    HoldoverExact(65536, 13 * NS_PER_S - 1);
    hide Holdover;
  }

  /** The UTC interval that is returned, whenever its ends are uint64 values. */
  lemma UtcEnds(r: ClockData, delay: int64, ts: int64)
    requires Located(r.smear) && Leaps(r.smear) && Tame(r.smear)
    requires r.ingressNs <= ts && delay >= 0 && r.smear.preS * NS_PER_S <= ts
    ensures var tt := Around(r, delay, ts, true);
            && (tt.earliest == UtcEarliest(r, delay, ts) <==> 0 <= UtcEarliest(r, delay, ts))
            && (tt.latest == UtcLatest(r, delay, ts) <==> UtcLatest(r, delay, ts) < TWO_POW_64)
  {
    hide HalfWidth, WindowOfUncertainty, WrapUint64, Utc, ApplyUtcOffset, Tame;
    UtcInRange(r.smear, ts);
    WidthFits(r, delay, ts);
    EndsOf(Utc(r.smear, ts), HalfWidth(r, delay, ts));
  }

  /** Ends that are computed on uint64 are right exactly when they fit. */
  lemma EndsOf(t: uint64, w: uint64)
    ensures WrapUint64(t - w) == t - w <==> 0 <= t - w
    ensures WrapUint64(t + w) == t + w <==> t + w < TWO_POW_64
  {
    hide WrapUint64;
    WrapFixed(t - w);
    WrapFixed(t + w);
  }
}
