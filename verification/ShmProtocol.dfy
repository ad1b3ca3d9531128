/**
 The shared record between the daemon and its clients (fbclock/fbclock.c), as steps of two processes.

 The writer copies the fields of a record in any order and then stores the checksum; the reader
 copies the fields in any order, loads the checksum and compares. The checksum covers ingress time,
 error bound and multiplier only, and is any function of these three.
 */
module ShmProtocol {
  import opened Words

  datatype Field = Ingress | Bound | Multiplier | SmearStart | SmearEnd | OffsetPre | OffsetPost

  type Rec = m: map<Field, int> | forall f: Field :: f in m
    witness map f: Field | true :: 0

  const FIELDS: set<Field> := {Ingress, Bound, Multiplier, SmearStart, SmearEnd, OffsetPre, OffsetPost}

  datatype Triple = Triple(ingress: int, bound: int, multiplier: int)

  function Covered(r: Rec): Triple {
    Triple(r[Ingress], r[Bound], r[Multiplier])
  }

  type Checksum = Triple -> int

  datatype Writer = Idle | Copying(data: Rec, left: set<Field>)

  /** `current` is the last completed store at the moment the checksum cell was loaded. */
  datatype Reader = Resting | Loading(local: Rec, left: set<Field>) | Loaded(local: Rec, seen: int, current: Option<Rec>)

  /** `completed` and `begun` record the history of stores; the program has no such variables. */
  datatype State = State(mem: Rec, crc: int, writer: Writer, reader: Reader, completed: Option<Rec>, begun: set<Rec>)

  /** A load starts with whatever its local copy held before. */
  datatype Event =
    | BeginStore(data: Rec)
    | WriteField(field: Field)
    | StoreChecksum
    | BeginLoad(leftover: Rec)
    | ReadField(field: Field)
    | LoadChecksum

  predicate Enabled(s: State, e: Event) {
    match e
    case BeginStore(_) => s.writer.Idle?
    case WriteField(f) => s.writer.Copying? && f in s.writer.left
    case StoreChecksum => s.writer.Copying? && s.writer.left == {}
    case BeginLoad(_) => !s.reader.Loading?
    case ReadField(f) => s.reader.Loading? && f in s.reader.left
    case LoadChecksum => s.reader.Loading? && s.reader.left == {}
  }

  function Step(crc: Checksum, s: State, e: Event): State
    requires Enabled(s, e)
  {
    match e
    case BeginStore(data) => s.(writer := Copying(data, FIELDS), begun := s.begun + {data})
    case WriteField(f) =>
      s.(mem := s.mem[f := s.writer.data[f]], writer := s.writer.(left := s.writer.left - {f}))
    case StoreChecksum =>
      s.(crc := crc(Covered(s.writer.data)), completed := Some(s.writer.data), writer := Idle)
    case BeginLoad(leftover) => s.(reader := Loading(leftover, FIELDS))
    case ReadField(f) =>
      s.(reader := Loading(s.reader.local[f := s.mem[f]], s.reader.left - {f}))
    case LoadChecksum => s.(reader := Loaded(s.reader.local, s.crc, s.completed))
  }

  /** A run: every event was possible when it happened. */
  ghost predicate IsRun(crc: Checksum, s: State, events: seq<Event>)
    decreases |events|
  {
    events == [] || (Enabled(s, events[0]) && IsRun(crc, Step(crc, s, events[0]), events[1..]))
  }

  ghost function After(crc: Checksum, s: State, events: seq<Event>): State
    requires IsRun(crc, s, events)
    decreases |events|
  {
    if events == [] then s else After(crc, Step(crc, s, events[0]), events[1..])
  }

  /** A new segment: no store has begun and nobody is reading. */
  ghost predicate Fresh(s: State) {
    s.writer.Idle? && s.reader.Resting? && s.completed == None && s.begun == {}
  }

  /** The load loop exits without an error on a match. */
  predicate Matches(crc: Checksum, s: State) {
    s.reader.Loaded? && crc(Covered(s.reader.local)) == s.reader.seen
  }

  // ----- where values come from -------------------------------------------------------------

  /** A value of a field that the segment had at first or that some store carried. */
  ghost predicate Known(initial: Rec, begun: set<Rec>, f: Field, v: int) {
    v == initial[f] || exists r :: r in begun && r[f] == v
  }

  ghost predicate KnownRec(initial: Rec, begun: set<Rec>, r: Rec) {
    forall f: Field :: Known(initial, begun, f, r[f])
  }

  ghost predicate Inv(crc: Checksum, initial: Rec, s: State) {
    && KnownRec(initial, s.begun, s.mem)
    && (s.writer.Copying? ==> s.writer.data in s.begun)
    && (s.completed.Some? ==> s.completed.value in s.begun && s.crc == crc(Covered(s.completed.value)))
    && (s.reader.Loading? ==> forall f: Field :: f in s.reader.left || Known(initial, s.begun, f, s.reader.local[f]))
    && (s.reader.Loaded? ==> KnownRec(initial, s.begun, s.reader.local))
    && (s.reader.Loaded? && s.reader.current.Some? ==>
          s.reader.current.value in s.begun && s.reader.seen == crc(Covered(s.reader.current.value)))
  }

  lemma KnownGrows(initial: Rec, begun: set<Rec>, data: Rec, r: Rec)
    requires KnownRec(initial, begun, r)
    ensures KnownRec(initial, begun + {data}, r)
  {
    forall f: Field
      ensures Known(initial, begun + {data}, f, r[f])
    {
      assert Known(initial, begun, f, r[f]);
    }
  }

  lemma KnownUpdate(initial: Rec, begun: set<Rec>, r: Rec, f: Field, v: int)
    requires KnownRec(initial, begun, r) && Known(initial, begun, f, v)
    ensures KnownRec(initial, begun, r[f := v])
  {
    hide Known;
  }

  lemma StepKeeps(crc: Checksum, initial: Rec, s: State, e: Event)
    requires Inv(crc, initial, s) && Enabled(s, e)
    ensures Inv(crc, initial, Step(crc, s, e))
  {
    AllFields();
    match e
    case BeginStore(data) =>
      KnownGrows(initial, s.begun, data, s.mem);
      if s.reader.Loaded? {
        KnownGrows(initial, s.begun, data, s.reader.local);
      } else if s.reader.Loading? {
        forall f: Field | f !in s.reader.left
          ensures Known(initial, s.begun + {data}, f, s.reader.local[f])
        {
          assert Known(initial, s.begun, f, s.reader.local[f]);
        }
      }
    case WriteField(f) =>
      KnownUpdate(initial, s.begun, s.mem, f, s.writer.data[f]);
    case StoreChecksum =>
    case BeginLoad(_) =>
    case ReadField(f) =>
      assert Known(initial, s.begun, f, s.mem[f]);
    case LoadChecksum =>
  }

  lemma {:induction false} RunKeeps(crc: Checksum, initial: Rec, s: State, events: seq<Event>)
    requires IsRun(crc, s, events) && Inv(crc, initial, s)
    ensures Inv(crc, initial, After(crc, s, events))
    decreases |events|
  {
    hide Inv, Step, Enabled;
    if events != [] {
      StepKeeps(crc, initial, s, events[0]);
      RunKeeps(crc, initial, Step(crc, s, events[0]), events[1..]);
    }
  }

  lemma FreshInv(crc: Checksum, s: State)
    requires Fresh(s)
    ensures Inv(crc, s.mem, s)
  {
  }

  // ----- what a matching load returns -------------------------------------------------------

  ghost predicate InPlay(initial: Rec, begun: set<Rec>, t: Triple) {
    && Known(initial, begun, Ingress, t.ingress)
    && Known(initial, begun, Bound, t.bound)
    && Known(initial, begun, Multiplier, t.multiplier)
  }

  /** The checksum tells apart any two triples that stores could have mixed together. */
  ghost predicate Distinguishes(crc: Checksum, initial: Rec, begun: set<Rec>) {
    forall x: Triple, y: Triple ::
      InPlay(initial, begun, x) && InPlay(initial, begun, y) && crc(x) == crc(y) ==> x == y
  }

  lemma StoredInPlay(initial: Rec, begun: set<Rec>, r: Rec)
    requires r in begun || KnownRec(initial, begun, r)
    ensures InPlay(initial, begun, Covered(r))
  {
  }

  /**
   Over every interleaving: a load that exits on a match returns ingress time, error bound and
   multiplier of the last store that was complete when the checksum cell was loaded.
   */
  lemma MatchIsLastStore(crc: Checksum, s: State, events: seq<Event>)
    requires Fresh(s) && IsRun(crc, s, events)
    requires var now := After(crc, s, events);
             Distinguishes(crc, s.mem, now.begun) && Matches(crc, now) && now.reader.current.Some?
    ensures var now := After(crc, s, events);
            Covered(now.reader.local) == Covered(now.reader.current.value)
  {
    var now := After(crc, s, events);
    FreshInv(crc, s);
    RunKeeps(crc, s.mem, s, events);
    StoredInPlay(s.mem, now.begun, now.reader.local);
    StoredInPlay(s.mem, now.begun, now.reader.current.value);
    hide InPlay, Known, Covered, After;
  }

  // ----- the fields the checksum does not cover ---------------------------------------------

  predicate Uncovered(f: Field) {
    f != Ingress && f != Bound && f != Multiplier
  }

  ghost predicate SameSmear(a: Rec, b: Rec) {
    forall f: Field :: Uncovered(f) ==> a[f] == b[f]
  }

  /** If no store ever changes the smear fields, a match returns the whole record. */
  lemma MatchIsWholeRecord(crc: Checksum, s: State, events: seq<Event>)
    requires Fresh(s) && IsRun(crc, s, events)
    requires var now := After(crc, s, events);
             Distinguishes(crc, s.mem, now.begun) && Matches(crc, now) && now.reader.current.Some?
    requires forall r :: r in After(crc, s, events).begun ==> SameSmear(r, s.mem)
    ensures var now := After(crc, s, events);
            now.reader.local == now.reader.current.value
  {
    var now := After(crc, s, events);
    MatchIsLastStore(crc, s, events);
    FreshInv(crc, s);
    RunKeeps(crc, s.mem, s, events);
    var local, last := now.reader.local, now.reader.current.value;
    forall f: Field
      ensures local[f] == last[f]
    {
      if Uncovered(f) {
        assert Known(s.mem, now.begun, f, local[f]) && SameSmear(last, s.mem);
      }
    }
    assert local.Keys == last.Keys;
  }

  ghost predicate Reaches(crc: Checksum, s: State, t: State) {
    exists events :: IsRun(crc, s, events) && After(crc, s, events) == t
  }

  lemma {:induction false} RunSnoc(crc: Checksum, s: State, events: seq<Event>, e: Event)
    requires IsRun(crc, s, events) && Enabled(After(crc, s, events), e)
    ensures IsRun(crc, s, events + [e])
    ensures After(crc, s, events + [e]) == Step(crc, After(crc, s, events), e)
    decreases |events|
  {
    hide Step, Enabled;
    var more := events + [e];
    if events == [] {
      assert more[1..] == [];
      assert IsRun(crc, Step(crc, s, e), []);
    } else {
      assert more[1..] == events[1..] + [e];
      RunSnoc(crc, Step(crc, s, events[0]), events[1..], e);
    }
  }

  lemma ReachNothing(crc: Checksum, s: State)
    ensures Reaches(crc, s, s)
  {
    assert IsRun(crc, s, []) && After(crc, s, []) == s;
  }

  lemma ReachStep(crc: Checksum, s: State, t: State, e: Event)
    requires Reaches(crc, s, t) && Enabled(t, e)
    ensures Reaches(crc, s, Step(crc, t, e))
  {
    var events :| IsRun(crc, s, events) && After(crc, s, events) == t;
    RunSnoc(crc, s, events, e);
  }

  /** `base` with some of its fields taken from `over`. */
  function Overlay(base: Rec, over: Rec, fields: set<Field>): Rec {
    map f: Field | true :: if f in fields then over[f] else base[f]
  }

  lemma AllFields()
    ensures forall f: Field :: f in FIELDS
  {
    forall f: Field
      ensures f in FIELDS
    {
      match f
      case Ingress =>
      case Bound =>
      case Multiplier =>
      case SmearStart =>
      case SmearEnd =>
      case OffsetPre =>
      case OffsetPost =>
    }
  }

  lemma SameRec(a: Rec, b: Rec)
    requires forall f: Field :: a[f] == b[f]
    ensures a == b
  {
    assert a.Keys == b.Keys;
  }

  lemma OverlayEnds(a: Rec, b: Rec)
    ensures Overlay(a, b, {}) == a && Overlay(a, b, FIELDS) == b
  {
    AllFields();
    SameRec(Overlay(a, b, {}), a);
    SameRec(Overlay(a, b, FIELDS), b);
  }

  lemma OverlayStep(a: Rec, b: Rec, fields: set<Field>, f: Field)
    requires f in fields
    ensures Overlay(a[f := b[f]], b, fields - {f}) == Overlay(a, b, fields)
  {
    SameRec(Overlay(a[f := b[f]], b, fields - {f}), Overlay(a, b, fields));
  }

  /** An undisturbed writer can finish its store. */
  lemma {:induction false} StoreRest(crc: Checksum, s: State, t: State) returns (u: State)
    requires Reaches(crc, s, t) && t.writer.Copying?
    ensures Reaches(crc, s, u)
    ensures var data := t.writer.data;
            u == t.(mem := Overlay(t.mem, data, t.writer.left), crc := crc(Covered(data)), completed := Some(data), writer := Idle)
    decreases |t.writer.left|
  {
    hide Reaches, Covered, Overlay;
    if t.writer.left != {} {
      var f :| f in t.writer.left;
      ReachStep(crc, s, t, WriteField(f));
      OverlayStep(t.mem, t.writer.data, t.writer.left, f);
      u := StoreRest(crc, s, Step(crc, t, WriteField(f)));
    } else {
      ReachStep(crc, s, t, StoreChecksum);
      OverlayEnds(t.mem, t.writer.data);
      u := Step(crc, t, StoreChecksum);
    }
  }

  /** An undisturbed store is possible whenever the writer is idle. */
  lemma StoreWhole(crc: Checksum, s: State, t: State, a: Rec) returns (u: State)
    requires Reaches(crc, s, t) && t.writer.Idle?
    ensures Reaches(crc, s, u)
    ensures u == t.(mem := a, crc := crc(Covered(a)), completed := Some(a), begun := t.begun + {a})
  {
    hide Reaches, Covered, Overlay;
    ReachStep(crc, s, t, BeginStore(a));
    OverlayEnds(t.mem, a);
    u := StoreRest(crc, s, Step(crc, t, BeginStore(a)));
  }

  /** An undisturbed reader can finish its load. */
  lemma {:induction false} LoadRest(crc: Checksum, s: State, t: State) returns (u: State)
    requires Reaches(crc, s, t) && t.reader.Loading?
    ensures Reaches(crc, s, u)
    ensures u == t.(reader := Loaded(Overlay(t.reader.local, t.mem, t.reader.left), t.crc, t.completed))
    decreases |t.reader.left|
  {
    hide Reaches, Overlay;
    if t.reader.left != {} {
      var f :| f in t.reader.left;
      ReachStep(crc, s, t, ReadField(f));
      OverlayStep(t.reader.local, t.mem, t.reader.left, f);
      u := LoadRest(crc, s, Step(crc, t, ReadField(f)));
    } else {
      ReachStep(crc, s, t, LoadChecksum);
      OverlayEnds(t.reader.local, t.mem);
      u := Step(crc, t, LoadChecksum);
    }
  }

  /** An undisturbed load is possible whenever the reader is not in the middle of one. */
  lemma LoadWhole(crc: Checksum, s: State, t: State) returns (u: State)
    requires Reaches(crc, s, t) && !t.reader.Loading?
    ensures Reaches(crc, s, u)
    ensures u == t.(reader := Loaded(t.mem, t.crc, t.completed))
  {
    hide Reaches, Overlay;
    ReachStep(crc, s, t, BeginLoad(t.mem));
    OverlayEnds(t.mem, t.mem);
    u := LoadRest(crc, s, Step(crc, t, BeginLoad(t.mem)));
  }

  /**
   If stores do change a smear field, it need not: a load between the first writes of the next store
   matches the old checksum and returns the new value of that field.
   */
  lemma TornSmear(crc: Checksum, s: State, a: Rec, b: Rec, f: Field)
    requires Fresh(s) && Uncovered(f) && a[f] != b[f]
    ensures exists now :: Reaches(crc, s, now) && now.begun == {a, b} && Matches(crc, now)
              && now.reader.current == Some(a) && now.reader.local[f] == b[f] && now.reader.local[f] != a[f]
  {
    ReachNothing(crc, s);
    hide Reaches, Overlay;
    AllFields();
    var t := StoreWhole(crc, s, s, a);
    ReachStep(crc, s, t, BeginStore(b));
    var u := Step(crc, t, BeginStore(b));
    ReachStep(crc, s, u, WriteField(f));
    var v := Step(crc, u, WriteField(f));
    assert v.mem == a[f := b[f]];
    var now := LoadWhole(crc, s, v);
    assert Covered(now.reader.local) == Covered(a);
    assert now.begun == {a, b};
  }

  /** Already one store tears: the reader takes the field before it, the checksum after it. */
  lemma TornFirstStore(crc: Checksum, s: State, a: Rec, f: Field)
    requires Fresh(s) && Uncovered(f) && a[f] != s.mem[f]
    ensures exists now :: Reaches(crc, s, now) && now.begun == {a} && Matches(crc, now)
              && now.reader.current == Some(a) && now.reader.local == a[f := s.mem[f]]
  {
    ReachNothing(crc, s);
    hide Reaches, Overlay;
    AllFields();
    ReachStep(crc, s, s, BeginLoad(s.mem));
    var t := Step(crc, s, BeginLoad(s.mem));
    ReachStep(crc, s, t, ReadField(f));
    var u := StoreWhole(crc, s, Step(crc, t, ReadField(f)), a);
    var now := LoadRest(crc, s, u);
    OverlayAllBut(s.mem, a, f);
    assert now.reader.local == a[f := s.mem[f]];
    assert Covered(now.reader.local) == Covered(a);
  }

  lemma OverlayAllBut(a: Rec, b: Rec, f: Field)
    ensures Overlay(a[f := a[f]], b, FIELDS - {f}) == b[f := a[f]]
  {
    AllFields();
    SameRec(Overlay(a[f := a[f]], b, FIELDS - {f}), b[f := a[f]]);
  }

  // ----- between stores ---------------------------------------------------------------------

  /** The fields a store has written are in memory, and between stores the whole record and its checksum are. */
  ghost predicate Written(crc: Checksum, s: State) {
    && (s.writer.Copying? ==> forall f: Field :: f !in s.writer.left ==> s.mem[f] == s.writer.data[f])
    && (s.writer.Idle? && s.completed.Some? ==> s.mem == s.completed.value && s.crc == crc(Covered(s.mem)))
  }

  lemma WrittenKeeps(crc: Checksum, s: State, e: Event)
    requires Written(crc, s) && Enabled(s, e)
    ensures Written(crc, Step(crc, s, e))
  {
    AllFields();
    if e.StoreChecksum? {
      SameRec(s.mem, s.writer.data);
    }
  }

  lemma {:induction false} WrittenStays(crc: Checksum, s: State, events: seq<Event>)
    requires IsRun(crc, s, events) && Written(crc, s)
    ensures Written(crc, After(crc, s, events))
    decreases |events|
  {
    hide Written, Step, Enabled;
    if events != [] {
      WrittenKeeps(crc, s, events[0]);
      WrittenStays(crc, Step(crc, s, events[0]), events[1..]);
    }
  }

  /** A load between two stores matches and returns the whole record of the last one, for any checksum. */
  lemma QuietLoad(crc: Checksum, s: State, events: seq<Event>) returns (now: State)
    requires Fresh(s) && IsRun(crc, s, events)
    requires var t := After(crc, s, events);
             t.writer.Idle? && t.completed.Some? && !t.reader.Loading?
    ensures Reaches(crc, s, now) && Matches(crc, now)
    ensures var last := After(crc, s, events).completed;
            now.reader.current == last && now.reader.local == last.value
  {
    assert Written(crc, s);
    WrittenStays(crc, s, events);
    var t := After(crc, s, events);
    assert Reaches(crc, s, t);
    hide After, IsRun, Reaches;
    now := LoadWhole(crc, s, t);
  }

  /** Every matching load of a run that stores only records of `records` is a whole record. */
  ghost predicate NeverTorn(crc: Checksum, s: State, records: set<Rec>) {
    forall now :: Reaches(crc, s, now) && now.begun <= records && Matches(crc, now) && now.reader.current.Some? ==>
      now.reader.local == now.reader.current.value
  }

  /**
   Matching loads return whole records if and only if every record that may be stored has the smear
   fields that the segment had at first.
   */
  lemma WholeIff(crc: Checksum, s: State, records: set<Rec>)
    requires Fresh(s) && Distinguishes(crc, s.mem, records)
    ensures NeverTorn(crc, s, records) <==> forall r :: r in records ==> SameSmear(r, s.mem)
  {
    hide NeverTorn, Distinguishes;
    if forall r :: r in records ==> SameSmear(r, s.mem) {
      AllWhole(crc, s, records);
    } else {
      var a :| a in records && !SameSmear(a, s.mem);
      SomeTorn(crc, s, records, a);
    }
  }

  lemma AllWhole(crc: Checksum, s: State, records: set<Rec>)
    requires Fresh(s) && Distinguishes(crc, s.mem, records)
    requires forall r :: r in records ==> SameSmear(r, s.mem)
    ensures NeverTorn(crc, s, records)
  {
    hide Distinguishes, SameSmear, Fresh;
    forall now | Reaches(crc, s, now) && now.begun <= records && Matches(crc, now) && now.reader.current.Some?
      ensures now.reader.local == now.reader.current.value
    {
      var events :| IsRun(crc, s, events) && After(crc, s, events) == now;
      FewerInPlay(crc, s.mem, now.begun, records);
      MatchIsWholeRecord(crc, s, events);
    }
  }

  lemma SomeTorn(crc: Checksum, s: State, records: set<Rec>, a: Rec)
    requires Fresh(s) && a in records && !SameSmear(a, s.mem)
    ensures !NeverTorn(crc, s, records)
  {
    var f: Field :| Uncovered(f) && a[f] != s.mem[f];
    TornFirstStore(crc, s, a, f);
    hide Reaches, Matches, SameSmear;
    var now :| Reaches(crc, s, now) && now.begun == {a} && Matches(crc, now)
      && now.reader.current == Some(a) && now.reader.local == a[f := s.mem[f]];
    assert now.reader.local[f] != a[f];
  }

  lemma KnownMore(initial: Rec, begun: set<Rec>, records: set<Rec>, f: Field, v: int)
    requires begun <= records && Known(initial, begun, f, v)
    ensures Known(initial, records, f, v)
  {
  }

  lemma FewerInPlay(crc: Checksum, initial: Rec, begun: set<Rec>, records: set<Rec>)
    requires begun <= records && Distinguishes(crc, initial, records)
    ensures Distinguishes(crc, initial, begun)
  {
    forall x: Triple | InPlay(initial, begun, x)
      ensures InPlay(initial, records, x)
    {
      KnownMore(initial, begun, records, Ingress, x.ingress);
      KnownMore(initial, begun, records, Bound, x.bound);
      KnownMore(initial, begun, records, Multiplier, x.multiplier);
    }
    hide InPlay;
  }
}
