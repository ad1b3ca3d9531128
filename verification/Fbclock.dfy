/**
 fbclock from end to end: what the daemon stores, as the client's load and arithmetic see it
 (fbclock/shmem.go, fbclock/fbclock.c).
 */
module Fbclock {
  import opened Words
  import opened Smear
  import opened TrueTime
  import opened ShmProtocol

  function FieldOf(r: ClockData, f: Field): int {
    match f
    case Ingress => r.ingressNs
    case Bound => r.errorBoundNs
    case Multiplier => r.multiplier
    case SmearStart => r.smear.startS
    case SmearEnd => r.smear.endS
    case OffsetPre => r.smear.preS
    case OffsetPost => r.smear.postS
  }

  /** The record as the protocol copies it, field by field. */
  function AsRec(r: ClockData): Rec {
    map f: Field | true :: FieldOf(r, f)
  }

  predicate InField(f: Field, v: int) {
    match f
    case Ingress => -MAX_INT64 - 1 <= v <= MAX_INT64
    case Bound => 0 <= v < TWO_POW_32
    case Multiplier => 0 <= v < TWO_POW_32
    case SmearStart => 0 <= v < TWO_POW_64
    case SmearEnd => 0 <= v < TWO_POW_64
    case OffsetPre => -TWO_POW_32 / 2 <= v < TWO_POW_32 / 2
    case OffsetPost => -TWO_POW_32 / 2 <= v < TWO_POW_32 / 2
  }

  ghost predicate Ranged(rec: Rec) {
    forall f: Field :: InField(f, rec[f])
  }

  /** The record that a client finds in its copy. */
  function Decoded(rec: Rec): ClockData
    requires Ranged(rec)
  {
    assert InField(Ingress, rec[Ingress]) && InField(Bound, rec[Bound]) && InField(Multiplier, rec[Multiplier]);
    assert InField(SmearStart, rec[SmearStart]) && InField(SmearEnd, rec[SmearEnd]);
    assert InField(OffsetPre, rec[OffsetPre]) && InField(OffsetPost, rec[OffsetPost]);
    ClockData(rec[Ingress], rec[Bound], rec[Multiplier],
              SmearData(rec[SmearStart], rec[SmearEnd], rec[OffsetPre], rec[OffsetPost]))
  }

  lemma DecodedBack(r: ClockData)
    ensures Ranged(AsRec(r)) && Decoded(AsRec(r)) == r
  {
  }

  /** A copy of fields that stem from stores is a record, however torn. */
  lemma KnownRanged(initial: Rec, begun: set<Rec>, rec: Rec)
    requires Ranged(initial) && KnownRec(initial, begun, rec)
    requires forall r :: r in begun ==> Ranged(r)
    ensures Ranged(rec)
  {
    forall f: Field
      ensures InField(f, rec[f])
    {
      assert Known(initial, begun, f, rec[f]);
      hide InField;
    }
  }

  /** A load has just matched, after stores of records only, the last complete one being that of `d`. */
  ghost predicate LoadedAfter(crc: Checksum, s: State, events: seq<Event>, d: Data)
    requires d.holdoverNs >= 0.0
  {
    && Fresh(s) && Ranged(s.mem) && IsRun(crc, s, events)
    && var now := After(crc, s, events);
    && (forall r :: r in now.begun ==> Ranged(r))
    && Distinguishes(crc, s.mem, now.begun) && Matches(crc, now) && now.reader.current == Some(AsRec(Stored(d)))
  }

  lemma LoadedRanged(crc: Checksum, s: State, events: seq<Event>, d: Data)
    requires d.holdoverNs >= 0.0 && LoadedAfter(crc, s, events, d)
    ensures Ranged(After(crc, s, events).reader.local)
  {
    FreshInv(crc, s);
    RunKeeps(crc, s.mem, s, events);
    hide Ranged, KnownRec, Distinguishes;
    var now := After(crc, s, events);
    KnownRanged(s.mem, now.begun, now.reader.local);
  }

  /** The part of the record that the checksum covers is the daemon's, the smear fields aside. */
  lemma LoadedCovered(crc: Checksum, s: State, events: seq<Event>, d: Data)
    requires d.holdoverNs >= 0.0 && LoadedAfter(crc, s, events, d)
    ensures Ranged(After(crc, s, events).reader.local)
    ensures var r := Decoded(After(crc, s, events).reader.local);
            r == Stored(d).(smear := r.smear)
  {
    LoadedRanged(crc, s, events, d);
    MatchIsLastStore(crc, s, events);
    hide Distinguishes, Ranged, Fresh, IsRun, After, Stored;
    var local := After(crc, s, events).reader.local;
    assert Covered(local) == Covered(AsRec(Stored(d)));
  }

  /**
   End to end in TAI, over every interleaving: a client whose load matched accepts or refuses the record
   as the daemon published it, and its interval is within quantisation of what the daemon has in mind.
   */
  lemma ClientInterval(crc: Checksum, s: State, events: seq<Event>, d: Data, delay: int64, ts: int64)
    requires d.holdoverNs >= 0.0 && LoadedAfter(crc, s, events, d) && d.ingressNs <= ts
    ensures Ranged(After(crc, s, events).reader.local)
    ensures var r := Decoded(After(crc, s, events).reader.local);
            && r.ingressNs == d.ingressNs && Screen(r) == Screen(Stored(d))
            && Around(r, delay, ts, false) == Around(Stored(d), delay, ts, false)
            && (Screen(r) == NoError ==>
                  var sec := Seconds(ts - d.ingressNs);
                  Wanted(d, delay, sec) - sec / POW2_16 - 1.0 < HalfWidth(r, delay, ts) as real <= Wanted(d, delay, sec))
  {
    LoadedCovered(crc, s, events, d);
    var r := Decoded(After(crc, s, events).reader.local);
    hide *;
    SmearAside(r, Stored(d), delay, ts);
    if Screen(r) == NoError {
      WindowBounds(d, delay, ts);
    }
  }

  /** The smear fields have no part in acceptance, width or the TAI interval. */
  lemma SmearAside(r: ClockData, q: ClockData, delay: int64, ts: int64)
    requires r == q.(smear := r.smear) && r.ingressNs <= ts
    ensures Screen(r) == Screen(q) && HalfWidth(r, delay, ts) == HalfWidth(q, delay, ts)
    ensures Around(r, delay, ts, false) == Around(q, delay, ts, false)
  {
    hide Holdover, WrapUint64;
  }

  /** What it is all for: true time lies in the interval of a client whose load matched. */
  lemma ClientTruth(crc: Checksum, s: State, events: seq<Event>, d: Data, delay: int64, ts: int64, truth: real)
    requires d.holdoverNs >= 0.0 && LoadedAfter(crc, s, events, d) && d.ingressNs <= ts && Screen(Stored(d)) == NoError
    requires var bound := Wanted(d, 0, Seconds(ts - d.ingressNs));
             ts as real - bound <= truth <= ts as real + bound
    requires delay as real >= Seconds(ts - d.ingressNs) / POW2_16 + 1.0
    requires var w := HalfWidth(Stored(d), delay, ts); w <= ts && ts + w < TWO_POW_64
    ensures Ranged(After(crc, s, events).reader.local)
    ensures var r := Decoded(After(crc, s, events).reader.local);
            && r.ingressNs <= ts
            && var tt := Around(r, delay, ts, false); tt.earliest as real <= truth <= tt.latest as real
  {
    ClientInterval(crc, s, events, d, delay, ts);
    TruthInside(d, delay, ts, truth);
    hide LoadedAfter, After, Decoded, Seconds, Wanted, Screen, Stored, Around, HalfWidth;
  }

  /** In UTC the whole record is needed: it is the daemon's when no store changes the smear fields. */
  lemma ClientRecord(crc: Checksum, s: State, events: seq<Event>, d: Data)
    requires d.holdoverNs >= 0.0 && LoadedAfter(crc, s, events, d)
    requires forall r :: r in After(crc, s, events).begun ==> SameSmear(r, s.mem)
    ensures Ranged(After(crc, s, events).reader.local)
    ensures Decoded(After(crc, s, events).reader.local) == Stored(d)
  {
    LoadedRanged(crc, s, events, d);
    MatchIsWholeRecord(crc, s, events);
    DecodedBack(Stored(d));
    hide Distinguishes, Ranged, Fresh, IsRun, After, Stored;
  }

  /** In UTC, then, the interval is the half width around the UTC of the daemon's leap data. */
  lemma ClientUtc(crc: Checksum, s: State, events: seq<Event>, d: Data, delay: int64, ts: int64)
    requires d.holdoverNs >= 0.0 && LoadedAfter(crc, s, events, d)
    requires forall r :: r in After(crc, s, events).begun ==> SameSmear(r, s.mem)
    requires Located(d.smear) && Leaps(d.smear) && Tame(d.smear)
    requires d.ingressNs <= ts && delay >= 0 && d.smear.preS * NS_PER_S <= ts
    ensures Ranged(After(crc, s, events).reader.local)
    ensures var r := Decoded(After(crc, s, events).reader.local);
            var t, w := Utc(d.smear, ts), HalfWidth(Stored(d), delay, ts);
            && r.ingressNs == d.ingressNs && r.smear == d.smear
            && var tt := Around(r, delay, ts, true);
            && (w <= t ==> tt.earliest == t - w) && (t + w < TWO_POW_64 ==> tt.latest == t + w)
  {
    ClientRecord(crc, s, events, d);
    UtcEnds(Stored(d), delay, ts);
    hide LoadedAfter, After, Decoded, Around, HalfWidth, Utc, SameSmear;
  }
}
