/**
 When the fbclock daemon publishes (fbclock/daemon/daemon.go, fbclock/daemon/state.go): measurements go
 through two rings, and a record is produced only from full windows. The formulas for M, W and drift
 are configuration: any functions of the windows they are given, which may fail.
 */
module Daemon {
  import opened Words
  import opened Rings
  import opened Smear
  import opened TrueTime

  const MINUTE_NS: int := 60000000000

  /** `minRingSize`: enough points for one minute, but never fewer than configured. */
  function MinRingSize(configured: int, intervalNs: nat): int
    requires intervalNs > 0
  {
    if configured * intervalNs < MINUTE_NS then (MINUTE_NS + intervalNs - 1) / intervalNs else configured
  }

  /** The ring spans a minute, is no smaller than configured, and is the smallest one like that. */
  lemma MinRingSizeIsLeast(configured: int, intervalNs: nat)
    requires intervalNs > 0
    ensures var n := MinRingSize(configured, intervalNs);
            && n >= 1 && n >= configured && n * intervalNs >= MINUTE_NS
            && (n == configured || (n - 1) * intervalNs < MINUTE_NS)
  {
    var n := MinRingSize(configured, intervalNs);
    if configured * intervalNs < MINUTE_NS {
      var total := MINUTE_NS + intervalNs - 1;
      assert total == intervalNs * n + total % intervalNs;
      assert (n - 1) * intervalNs == n * intervalNs - intervalNs;
      ProductOrder(configured, n, intervalNs);
    }
    assert n <= 0 ==> n * intervalNs <= 0;
  }

  lemma ProductOrder(a: int, b: int, k: nat)
    requires a * k < b * k
    ensures a < b
  {
    assert a >= b ==> (a - b) * k >= 0;
    assert (a - b) * k == a * k - b * k;
  }

  datatype DataPoint = DataPoint(ingressNs: int64, masterOffset: real, pathDelay: real, freqAdjustment: real, clockAccuracy: real)

  /** `SanityCheck`: no field is zero and the accuracy is below the 25 s that stand for unknown. */
  predicate Sane(d: DataPoint) {
    && d.ingressNs != 0 && d.masterOffset != 0.0 && d.pathDelay != 0.0
    && d.freqAdjustment != 0.0 && d.clockAccuracy != 0.0 && d.clockAccuracy < 25000000000.0
  }

  datatype Error = Insane | MathError | NotEnoughForW | ZeroW | NotEnoughForDrift

  type Result<+T> = Fallible<T, Error>

  type bound = w: real | 0.0 <= w < TWO_POW_64 as real

  type rate = h: real | 0.0 <= h

  /** The configured formulas. M and drift see the newest points, W the newest values of M. */
  datatype Formulas = Formulas(
    m: seq<DataPoint> -> Option<real>,
    w: seq<real> -> Option<bound>,
    drift: seq<DataPoint> -> Option<rate>)

  /** Everything that was pushed so far. */
  datatype History = History(points: seq<DataPoint>, ms: seq<real>)

  /** `calcW`, after the point was pushed. */
  function CalculateW(f: Formulas, size: nat, h: History): (History, Result<bound>) {
    var m := f.m(Newest(h.points, size));
    if m == None then (h, Err(MathError))
    else
      var h1 := h.(ms := h.ms + [m.value]);
      var w := f.w(Newest(h1.ms, size));
      (h1, if |h1.ms| < size then Err(NotEnoughForW) else if w == None then Err(MathError) else Ok(w.value))
  }

  /** `calculateSHMData`, for a window of `size` measurements. */
  function Calculate(f: Formulas, size: nat, h: History, point: DataPoint, leaps: seq<LeapSecond>): (History, Result<Data>) {
    if !Sane(point) then (h, Err(Insane))
    else
      var (h1, w) := CalculateW(f, size, h.(points := h.points + [point]));
      if w.Err? then (h1, Err(w.error))
      else if w.value.Floor == 0 then (h1, Err(ZeroW))
      else if |h1.points| < size then (h1, Err(NotEnoughForDrift))
      else
        var drift := f.drift(Newest(h1.points, size));
        if drift == None then (h1, Err(MathError))
        else (h1, Ok(Data(point.ingressNs, w.value.Floor, drift.value, LeapSecondSmearing(leaps))))
  }

  // ----- the program ------------------------------------------------------------------------

  class DaemonState {
    const formulas: Formulas
    const size: nat
    const dataPoints: Ring<DataPoint>
    const mmms: Ring<real>

    ghost function Repr(): set<object> {
      {dataPoints, dataPoints.slots, mmms, mmms.slots}
    }

    ghost predicate Valid()
      reads Repr()
    {
      && size > 0 && dataPoints.Valid() && mmms.Valid()
      && dataPoints.slots.Length >= size && mmms.slots.Length == dataPoints.slots.Length
    }

    ghost function Pushed(): History
      reads Repr()
    {
      History(dataPoints.pushed, mmms.pushed)
    }

    constructor (formulas: Formulas, configured: nat, intervalNs: nat)
      requires configured > 0 && intervalNs > 0
      ensures Valid() && this.formulas == formulas && size == configured && fresh(Repr())
      ensures Pushed() == History([], [])
    {
      var n := MinRingSize(configured, intervalNs);
      MinRingSizeIsLeast(configured, intervalNs);
      this.formulas := formulas;
      size := configured;
      dataPoints := new Ring<DataPoint>(n);
      mmms := new Ring<real>(n);
    }

    method CalculateSHMData(point: DataPoint, leaps: seq<LeapSecond>) returns (r: Result<Data>)
      requires Valid()
      modifies Repr()
      ensures Valid()
      ensures (Pushed(), r) == old(Calculate(formulas, size, Pushed(), point, leaps))
    {
      hide LeapSecondSmearing, Ring<DataPoint>.Valid, Ring<real>.Valid, NewestCyclic, Newest, Sane, CalculateW;
      if !Sane(point) {
        return Err(Insane);
      }
      dataPoints.Push(point);
      var w := CalcW();
      if w.Err? {
        return Err(w.error);
      }
      var wUint := w.value.Floor;
      if wUint == 0 {
        return Err(ZeroW);
      }
      var lastN := dataPoints.Take(size);
      if |lastN| != size {
        return Err(NotEnoughForDrift);
      }
      var drift := formulas.drift(lastN);
      if drift == None {
        return Err(MathError);
      }
      return Ok(Data(point.ingressNs, wUint, drift.value, LeapSecondSmearing(leaps)));
    }

    /** `calcW`: pushes M and needs a full window of them. */
    method CalcW() returns (r: Result<bound>)
      requires Valid()
      modifies mmms, mmms.slots
      ensures Valid()
      ensures (Pushed(), r) == old(CalculateW(formulas, size, Pushed()))
    {
      hide Ring<DataPoint>.Valid, Ring<real>.Valid, NewestCyclic, Newest;
      var lastN := dataPoints.Take(size);
      var m := formulas.m(lastN);
      if m == None {
        return Err(MathError);
      }
      mmms.Push(m.value);
      var ms := mmms.Take(size);
      if |ms| != size {
        return Err(NotEnoughForW);
      }
      var w := formulas.w(ms);
      if w == None {
        return Err(MathError);
      }
      return Ok(w.value);
    }
  }

  // ----- runs -------------------------------------------------------------------------------

  /** Every call brings a point, and may see its own leap table. */
  datatype Call = Call(point: DataPoint, leaps: seq<LeapSecond>)

  /** What was pushed after the first `k` calls. */
  function After(f: Formulas, size: nat, calls: seq<Call>, k: nat): History
    requires k <= |calls|
  {
    if k == 0 then History([], [])
    else Calculate(f, size, After(f, size, calls, k - 1), calls[k - 1].point, calls[k - 1].leaps).0
  }

  function Answer(f: Formulas, size: nat, calls: seq<Call>, k: nat): Result<Data>
    requires k < |calls|
  {
    Calculate(f, size, After(f, size, calls, k), calls[k].point, calls[k].leaps).1
  }

  /** The sane points of the first `k` calls. */
  function SanePoints(calls: seq<Call>, k: nat): seq<DataPoint>
    requires k <= |calls|
  {
    if k == 0 then []
    else SanePoints(calls, k - 1) + if Sane(calls[k - 1].point) then [calls[k - 1].point] else []
  }

  /** The values of M along a history of points: one for each window on which the formula succeeds. */
  function Measurements(f: Formulas, size: nat, points: seq<DataPoint>): (ms: seq<real>)
    ensures |ms| <= |points|
    decreases |points|
  {
    if points == [] then []
    else
      var m := f.m(Newest(points, size));
      Measurements(f, size, points[..|points| - 1]) + if m.Some? then [m.value] else []
  }

  lemma MeasurementsSnoc(f: Formulas, size: nat, points: seq<DataPoint>, p: DataPoint)
    ensures var m := f.m(Newest(points + [p], size));
            Measurements(f, size, points + [p]) ==
            Measurements(f, size, points) + if m.Some? then [m.value] else []
  {
    hide Newest;
    assert (points + [p])[..|points|] == points;
  }

  /** What was pushed depends on the sane points alone, whatever the calls answered. */
  lemma {:induction false} HistoryOf(f: Formulas, size: nat, calls: seq<Call>, k: nat)
    requires k <= |calls|
    ensures After(f, size, calls, k) == History(SanePoints(calls, k), Measurements(f, size, SanePoints(calls, k)))
  {
    hide Sane, LeapSecondSmearing, Newest, Measurements;
    if k > 0 {
      HistoryOf(f, size, calls, k - 1);
      MeasurementsSnoc(f, size, SanePoints(calls, k - 1), calls[k - 1].point);
    } else {
      NoMeasurements(f, size);
    }
  }

  lemma NoMeasurements(f: Formulas, size: nat)
    ensures Measurements(f, size, []) == []
  {
  }

  /** No run ever reaches the drift formula with too few points: M is never ahead of the points. */
  lemma DriftNeverShort(f: Formulas, size: nat, calls: seq<Call>, k: nat)
    requires k < |calls|
    ensures Answer(f, size, calls, k) != Err(NotEnoughForDrift)
  {
    HistoryOf(f, size, calls, k);
    hide Sane, LeapSecondSmearing, After, Newest;
  }

  /** The points that are refused: a field is zero, or the clock accuracy is 25 s or more, which means unknown. */
  lemma RefusedIff(f: Formulas, size: nat, calls: seq<Call>, k: nat)
    requires k < |calls|
    ensures var p := calls[k].point;
            Answer(f, size, calls, k) == Err(Insane) <==>
              || p.ingressNs == 0 || p.masterOffset == 0.0 || p.pathDelay == 0.0 || p.freqAdjustment == 0.0
              || p.clockAccuracy == 0.0 || p.clockAccuracy >= 25000000000.0
  {
    hide LeapSecondSmearing, Newest, After;
  }

  /** What it takes to publish: the formulas succeed on the newest windows and there are `size` values of M. */
  predicate Publishable(f: Formulas, size: nat, points: seq<DataPoint>) {
    var ms := Measurements(f, size, points);
    && f.m(Newest(points, size)).Some?
    && |ms| >= size
    && f.w(Newest(ms, size)).Some? && f.w(Newest(ms, size)).value >= 1.0
    && f.drift(Newest(points, size)).Some?
  }

  /**
   Over every run: a call publishes exactly when its point is sane and the windows allow it, and then the
   record is computed from the newest `size` sane points and the newest `size` values of M.
   */
  lemma PublishIff(f: Formulas, size: nat, calls: seq<Call>, k: nat)
    requires k < |calls|
    ensures var points := SanePoints(calls, k + 1);
            var ms, r := Measurements(f, size, points), Answer(f, size, calls, k);
            && (r.Ok? <==> Sane(calls[k].point) && Publishable(f, size, points))
            && (r.Ok? ==> r.value == Data(calls[k].point.ingressNs, f.w(Newest(ms, size)).value.Floor,
                                          f.drift(Newest(points, size)).value, LeapSecondSmearing(calls[k].leaps)))
  {
    hide Sane, LeapSecondSmearing, Newest, Measurements, After;
    HistoryOf(f, size, calls, k);
    MeasurementsSnoc(f, size, SanePoints(calls, k), calls[k].point);
  }

  /** No record before `size` sane points have arrived, and clients do not find a published record empty. */
  lemma PublishSafety(f: Formulas, size: nat, calls: seq<Call>, k: nat)
    requires k < |calls| && Answer(f, size, calls, k).Ok?
    ensures |SanePoints(calls, k + 1)| >= size
    ensures var d := Answer(f, size, calls, k).value;
            d.holdoverNs >= 0.0 && Screen(Stored(d)) != NoData
  {
    PublishIff(f, size, calls, k);
    hide LeapSecondSmearing, After, Answer, Newest, Measurements, SanePoints;
    AcceptedIff(Answer(f, size, calls, k).value);
  }

  /** With a formula for M that never fails, `size` sane points are also enough for the window of M. */
  lemma {:induction false} FullWindow(f: Formulas, size: nat, points: seq<DataPoint>)
    requires forall w :: f.m(w).Some?
    ensures |Measurements(f, size, points)| == |points|
    decreases |points|
  {
    hide Newest;
    if points != [] {
      FullWindow(f, size, points[..|points| - 1]);
    }
  }
}
