/**
 The TZif leap-second reader and writer (leapsectz/leapsectz.go): section 3 of RFC 8536.

 `FileBytes` lays out any file that the RFC allows, `Parse` is what the reader makes of any bytes.
 The reader is proved correct on every RFC file, and the writer to produce such files.
 */
module TZif {
  import opened Words
  import opened Smear

  datatype Error = BadData | UnsupportedVersion | UnexpectedEnd | NoLeapSeconds | WriteFailed

  type Result<+T> = Fallible<T, Error>

  const MAGIC: seq<byte> := [0x54, 0x5A, 0x69, 0x66]
  const VERSION_2: byte := 0x32
  const VERSION_3: byte := 0x33
  const HEADER_SIZE: int := 44

  /** The counts of a header, in the order of section 3.1 of RFC 8536. */
  datatype Counts = Counts(isUtc: uint32, isStd: uint32, leap: uint32, time: uint32, kinds: uint32, chars: uint32)

  /** A header's padding and the data block after it; everything but the leap seconds is uninterpreted. */
  datatype Block = Block(padding: seq<byte>, transitions: seq<byte>, types: seq<byte>, chars: seq<byte>,
                         leaps: seq<LeapSecond>, std: seq<byte>, utc: seq<byte>, timeCount: nat, typeCount: nat)

  // ----- files ------------------------------------------------------------------------------

  function CountsOf(b: Block): Counts
    requires Countable(b)
  {
    Counts(|b.utc|, |b.std|, |b.leaps|, b.timeCount, b.typeCount, |b.chars|)
  }

  predicate Countable(b: Block) {
    && |b.utc| < TWO_POW_32 && |b.std| < TWO_POW_32 && |b.leaps| < TWO_POW_32
    && b.timeCount < TWO_POW_32 && b.typeCount < TWO_POW_32 && |b.chars| < TWO_POW_32
  }

  /** Transition times take 4 bytes each in the first block and 8 in the second, plus a type byte. */
  predicate WellFormed(b: Block, wide: bool) {
    && Countable(b) && |b.padding| == 15
    && |b.transitions| == (if wide then 9 else 5) * b.timeCount && |b.types| == 6 * b.typeCount
  }

  function EncodeCounts(c: Counts): (s: seq<byte>)
    ensures |s| == 24
  {
    BigEndian(c.isUtc, 4) + BigEndian(c.isStd, 4) + BigEndian(c.leap, 4)
    + BigEndian(c.time, 4) + BigEndian(c.kinds, 4) + BigEndian(c.chars, 4)
  }

  function LeapWidth(wide: bool): nat {
    if wide then 12 else 8
  }

  function LeapBytes(l: LeapSecond, wide: bool): (s: seq<byte>)
    ensures |s| == LeapWidth(wide)
  {
    BigEndian(l.tleap, if wide then 8 else 4) + Signed32(l.nleap)
  }

  function AllLeapBytes(ls: seq<LeapSecond>, wide: bool): (s: seq<byte>)
    ensures |s| == LeapWidth(wide) * |ls|
  {
    if ls == [] then [] else AllLeapBytes(ls[..|ls| - 1], wide) + LeapBytes(ls[|ls| - 1], wide)
  }

  function HeaderBytes(version: byte, padding: seq<byte>, c: Counts): (s: seq<byte>)
    requires |padding| == 15
    ensures |s| == HEADER_SIZE
  {
    MAGIC + [version] + padding + EncodeCounts(c)
  }

  function BlockBytes(version: byte, b: Block, wide: bool): seq<byte>
    requires WellFormed(b, wide)
  {
    HeaderBytes(version, b.padding, CountsOf(b)) + (b.transitions + b.types + b.chars)
    + AllLeapBytes(b.leaps, wide) + (b.std + b.utc)
  }

  // ----- the reader on bytes ----------------------------------------------------------------

  function DecodeCounts(s: seq<byte>): Counts
    requires |s| >= HEADER_SIZE
  {
    Counts(Uint32(s, 20), Uint32(s, 24), Uint32(s, 28), Uint32(s, 32), Uint32(s, 36), Uint32(s, 40))
  }

  /** The bytes before the leap seconds, and in a first block of two also everything after them. */
  function Skipped(v: nat, version: byte, c: Counts): nat {
    (if v == 0 then 5 else 9) * c.time + 6 * c.kinds + c.chars +
    if v == 0 && version > 0 then 8 * c.leap + c.isUtc + c.isStd else 0
  }

  function DecodeLeap(s: seq<byte>, wide: bool): LeapSecond
    requires |s| >= LeapWidth(wide)
  {
    if wide then LeapSecond(Uint64(s, 0), Int32(s, 8)) else LeapSecond(Uint32(s, 0), Int32(s, 4))
  }

  function ReadLeaps(s: seq<byte>, wide: bool, n: nat): Result<seq<LeapSecond>> {
    if n == 0 then Ok([])
    else if |s| < LeapWidth(wide) then Err(UnexpectedEnd)
    else
      var rest := ReadLeaps(s[LeapWidth(wide)..], wide, n - 1);
      if rest.Err? then rest else Ok([DecodeLeap(s, wide)] + rest.value)
  }

  function NonEmpty(r: Result<seq<LeapSecond>>): Result<seq<LeapSecond>> {
    if r.Ok? && r.value == [] then Err(NoLeapSeconds) else r
  }

  /** The header of turn `v` of the loop; the versions are those of section 3.1 of RFC 8536 plus 0. */
  function CheckHeader(v: nat, s: seq<byte>): Result<()> {
    if |s| < 4 || s[..4] != MAGIC then Err(BadData)
    else if |s| < 20 then Err(BadData)
    else if s[4] != 0 && s[4] != VERSION_2 && s[4] != VERSION_3 then Err(UnsupportedVersion)
    else if v > s[4] then Err(BadData)
    else if |s| < HEADER_SIZE then Err(UnexpectedEnd)
    else Ok(())
  }

  function Parse(v: nat, s: seq<byte>): Result<seq<LeapSecond>>
    requires v <= 1
    decreases 2 - v
  {
    var ok := CheckHeader(v, s);
    if ok.Err? then Err(ok.error)
    else
      var version, c := s[4], DecodeCounts(s);
      var skip := Skipped(v, version, c);
      if |s| - HEADER_SIZE < skip then Err(BadData)
      else if v == 0 && version > 0 then Parse(1, s[HEADER_SIZE + skip..])
      else NonEmpty(ReadLeaps(s[HEADER_SIZE + skip..], version != 0, c.leap))
  }

  // ----- leap records -----------------------------------------------------------------------

  /** What a record of the given width can hold. */
  function Held(l: LeapSecond, wide: bool): LeapSecond {
    if wide then l else l.(tleap := l.tleap % TWO_POW_32)
  }

  function HeldAll(ls: seq<LeapSecond>, wide: bool): (r: seq<LeapSecond>)
    ensures |r| == |ls| && forall i :: 0 <= i < |ls| ==> r[i] == Held(ls[i], wide)
  {
    seq(|ls|, i requires 0 <= i < |ls| => Held(ls[i], wide))
  }

  lemma LeapRoundTrip(l: LeapSecond, wide: bool, rest: seq<byte>)
    ensures DecodeLeap(LeapBytes(l, wide) + rest, wide) == Held(l, wide)
  {
    var s := LeapBytes(l, wide) + rest;
    var w := if wide then 8 else 4;
    RadixValues();
    UnsignedOfBigEndian(l.tleap, w);
    hide BigEndian, Signed32, Unsigned;
    assert s[0..w] == BigEndian(l.tleap, w);
    assert s[w..w + 4] == Signed32(l.nleap);
    Signed32RoundTrip(s, w, l.nleap);
  }

  lemma AllLeapBytesSnoc(ls: seq<LeapSecond>, l: LeapSecond, wide: bool)
    ensures AllLeapBytes(ls + [l], wide) == AllLeapBytes(ls, wide) + LeapBytes(l, wide)
  {
    hide LeapBytes;
    assert (ls + [l])[..|ls|] == ls;
  }

  lemma NoLeapBytes(wide: bool)
    ensures AllLeapBytes([], wide) == [] && HeldAll([], wide) == []
  {
  }

  lemma {:induction false} AllLeapBytesCons(l: LeapSecond, ls: seq<LeapSecond>, wide: bool)
    ensures AllLeapBytes([l] + ls, wide) == LeapBytes(l, wide) + AllLeapBytes(ls, wide)
  {
    hide *;
    if ls == [] {
      NoLeapBytes(wide);
      AllLeapBytesSnoc([], l, wide);
      assert [] + [l] == [l] + ls;
    } else {
      var front, last := ls[..|ls| - 1], ls[|ls| - 1];
      AllLeapBytesCons(l, front, wide);
      AllLeapBytesSnoc([l] + front, last, wide);
      AllLeapBytesSnoc(front, last, wide);
      assert front + [last] == ls;
      assert ([l] + front) + [last] == [l] + ls;
      Associative(LeapBytes(l, wide), AllLeapBytes(front, wide), LeapBytes(last, wide));
    }
  }

  lemma ReadTurn(l: LeapSecond, wide: bool, tail: seq<byte>, n: nat)
    requires n > 0
    ensures ReadLeaps(LeapBytes(l, wide) + tail, wide, n) ==
            (var r := ReadLeaps(tail, wide, n - 1); if r.Err? then r else Ok([Held(l, wide)] + r.value))
  {
    LeapRoundTrip(l, wide, tail);
    hide LeapBytes, DecodeLeap, Held;
    assert (LeapBytes(l, wide) + tail)[LeapWidth(wide)..] == tail;
  }

  lemma {:induction false} ReadWritten(ls: seq<LeapSecond>, wide: bool, rest: seq<byte>)
    ensures ReadLeaps(AllLeapBytes(ls, wide) + rest, wide, |ls|) == Ok(HeldAll(ls, wide))
    decreases |ls|
  {
    hide *;
    if ls == [] {
      ReadNothing(wide, AllLeapBytes(ls, wide) + rest);
    } else {
      var l, others := ls[0], ls[1..];
      assert [l] + others == ls;
      AllLeapBytesCons(l, others, wide);
      Associative(LeapBytes(l, wide), AllLeapBytes(others, wide), rest);
      ReadTurn(l, wide, AllLeapBytes(others, wide) + rest, |ls|);
      ReadWritten(others, wide, rest);
      assert HeldAll(ls, wide) == [Held(l, wide)] + HeldAll(others, wide);
    }
  }

  lemma ReadNothing(wide: bool, s: seq<byte>)
    ensures ReadLeaps(s, wide, 0) == Ok(HeldAll([], wide))
  {
  }

  // ----- one block --------------------------------------------------------------------------

  lemma CountsRoundTrip(c: Counts, s: seq<byte>)
    requires |s| >= HEADER_SIZE && s[20..44] == EncodeCounts(c)
    ensures DecodeCounts(s) == c
  {
    var e := EncodeCounts(c);
    RadixValues();
    hide BigEndian, Uint;
    assert e[0..4] == BigEndian(c.isUtc, 4) && e[4..8] == BigEndian(c.isStd, 4) && e[8..12] == BigEndian(c.leap, 4);
    assert e[12..16] == BigEndian(c.time, 4) && e[16..20] == BigEndian(c.kinds, 4) && e[20..] == BigEndian(c.chars, 4);
    assert e[20..24] == e[20..];
    CountAt(s, e, 0, c.isUtc);
    CountAt(s, e, 4, c.isStd);
    CountAt(s, e, 8, c.leap);
    CountAt(s, e, 12, c.time);
    CountAt(s, e, 16, c.kinds);
    CountAt(s, e, 20, c.chars);
  }

  /** The header in absolute bytes: "TZif", the version, and six counts in the order of the RFC. */
  lemma HeaderWire(version: byte, padding: seq<byte>, c: Counts)
    requires |padding| == 15
    ensures var s := HeaderBytes(version, padding, c);
            && |s| == 44 && s[..5] == [0x54, 0x5A, 0x69, 0x66, version] && s[5..20] == padding
            && s[20..24] == BigEndian(c.isUtc, 4) && s[24..28] == BigEndian(c.isStd, 4)
            && s[28..32] == BigEndian(c.leap, 4) && s[32..36] == BigEndian(c.time, 4)
            && s[36..40] == BigEndian(c.kinds, 4) && s[40..] == BigEndian(c.chars, 4)
  {
    hide BigEndian;
    var s, e := HeaderBytes(version, padding, c), EncodeCounts(c);
    assert s[20..] == e;
    assert s[20..24] == e[..4] && s[24..28] == e[4..8] && s[28..32] == e[8..12];
    assert s[32..36] == e[12..16] && s[36..40] == e[16..20] && s[40..] == e[20..];
  }

  /** Files that are refused at their first header, and second headers without a version. */
  lemma HeaderRefused(v: nat, s: seq<byte>)
    requires v <= 1
    ensures |s| < 20 || s[..4] != [0x54, 0x5A, 0x69, 0x66] ==> Parse(v, s) == Err(BadData)
    ensures |s| >= 20 && s[..4] == [0x54, 0x5A, 0x69, 0x66] && s[4] != 0 && s[4] != 0x32 && s[4] != 0x33 ==>
              Parse(v, s) == Err(UnsupportedVersion)
    ensures |s| >= 20 && s[..4] == [0x54, 0x5A, 0x69, 0x66] && s[4] == 0 && v == 1 ==> Parse(v, s) == Err(BadData)
  {
    hide DecodeCounts, Skipped, ReadLeaps;
  }

  /** A leap record: the time, then the correction. */
  lemma LeapWire(l: LeapSecond, wide: bool)
    ensures var s := LeapBytes(l, wide);
            if wide then |s| == 12 && s[..8] == BigEndian(l.tleap, 8) && s[8..] == Signed32(l.nleap)
            else |s| == 8 && s[..4] == BigEndian(l.tleap, 4) && s[4..] == Signed32(l.nleap)
  {
    hide BigEndian, Signed32;
  }

  /** The name is written with one zero byte at its end, which its count includes; no name means UTC. */
  lemma NameWire(ls: seq<LeapSecond>, name: seq<byte>)
    requires |ls| < TWO_POW_32 && |name| < TWO_POW_32 - 1
    ensures var b := WrittenBlock(ls, name);
            && Countable(b) && CountsOf(b) == Counts(1, 1, |ls|, 0, 1, |b.chars|)
            && b.chars == (if name == [] then [0x55, 0x54, 0x43, 0] else name + [0])
  {
  }

  lemma CountAt(s: seq<byte>, e: seq<byte>, at: nat, v: uint32)
    requires |s| >= HEADER_SIZE && |e| == 24 && s[20..44] == e && at <= 20 && e[at..at + 4] == BigEndian(v, 4)
    ensures Uint(s, 20 + at, 4) == v
  {
    RadixValues();
    hide BigEndian, Uint;
    SliceOfSlice(s, 20, 44, at, at + 4);
    UintOfSlice(s, 20 + at, v, 4);
  }

  predicate Supported(version: byte) {
    version == 0 || version == VERSION_2 || version == VERSION_3
  }

  lemma HeaderParses(v: nat, version: byte, padding: seq<byte>, c: Counts, body: seq<byte>)
    requires v <= 1 && |padding| == 15 && Supported(version) && v <= version
    ensures var s := HeaderBytes(version, padding, c) + body;
            && CheckHeader(v, s) == Ok(()) && s[4] == version && DecodeCounts(s) == c && s[HEADER_SIZE..] == body
  {
    var s := HeaderBytes(version, padding, c) + body;
    hide EncodeCounts, DecodeCounts;
    assert s[..4] == MAGIC && s[4] == version && s[20..44] == EncodeCounts(c);
    CountsRoundTrip(c, s);
  }

  /** The skip count is exactly the number of bytes before the leap seconds, or of the whole block. */
  lemma SkipIsExact(v: nat, version: byte, b: Block)
    requires v <= 1 && WellFormed(b, v == 1)
    ensures Skipped(v, version, CountsOf(b)) ==
            |b.transitions + b.types + b.chars| +
            if v == 0 && version > 0 then |AllLeapBytes(b.leaps, false) + (b.std + b.utc)| else 0
    ensures |b.transitions| == (if v == 0 then 4 else 8) * b.timeCount + b.timeCount && |b.types| == 6 * b.typeCount
  {
    hide AllLeapBytes;
  }

  lemma BlockSplit(version: byte, b: Block, wide: bool, rest: seq<byte>)
    requires WellFormed(b, wide)
    ensures BlockBytes(version, b, wide) + rest ==
            HeaderBytes(version, b.padding, CountsOf(b)) +
            ((b.transitions + b.types + b.chars) + (AllLeapBytes(b.leaps, wide) + ((b.std + b.utc) + rest)))
  {
    var header, pre := HeaderBytes(version, b.padding, CountsOf(b)), b.transitions + b.types + b.chars;
    var leaps, post := AllLeapBytes(b.leaps, wide), b.std + b.utc;
    assert BlockBytes(version, b, wide) == header + pre + leaps + post;
    hide *;
    Associative(header + pre + leaps, post, rest);
    Associative(header + pre, leaps, post + rest);
    Associative(header, pre, leaps + (post + rest));
  }

  /** A block whose leap seconds are wanted: they are returned, whatever comes before and after them. */
  lemma WantedBlock(v: nat, version: byte, b: Block, rest: seq<byte>)
    requires v <= 1 && WellFormed(b, v == 1) && Supported(version) && (v == 1 <==> version > 0)
    ensures Parse(v, BlockBytes(version, b, v == 1) + rest) == NonEmpty(Ok(HeldAll(b.leaps, v == 1)))
  {
    var wide := v == 1;
    var c, pre := CountsOf(b), b.transitions + b.types + b.chars;
    var tail := (b.std + b.utc) + rest;
    var body := pre + (AllLeapBytes(b.leaps, wide) + tail);
    var s := BlockBytes(version, b, wide) + rest;
    BlockSplit(version, b, wide, rest);
    HeaderParses(v, version, b.padding, c, body);
    SkipIsExact(v, version, b);
    ReadWritten(b.leaps, wide, tail);
    ParseTurn(v, s);
    hide Parse, BlockBytes, HeaderBytes, CheckHeader, DecodeCounts, AllLeapBytes, ReadLeaps, HeldAll, NonEmpty, Skipped;
    assert s[HEADER_SIZE..][|pre|..] == AllLeapBytes(b.leaps, wide) + tail;
  }

  /** The first block of two is skipped completely. */
  lemma SkippedBlock(version: byte, b: Block, rest: seq<byte>)
    requires WellFormed(b, false) && Supported(version) && version > 0
    ensures Parse(0, BlockBytes(version, b, false) + rest) == Parse(1, rest)
  {
    var c, pre := CountsOf(b), b.transitions + b.types + b.chars;
    var mid := AllLeapBytes(b.leaps, false) + (b.std + b.utc);
    var body := pre + (AllLeapBytes(b.leaps, false) + ((b.std + b.utc) + rest));
    var s := BlockBytes(version, b, false) + rest;
    BlockSplit(version, b, false, rest);
    HeaderParses(0, version, b.padding, c, body);
    SkipIsExact(0, version, b);
    Associative(AllLeapBytes(b.leaps, false), b.std + b.utc, rest);
    hide BlockBytes, HeaderBytes, CheckHeader, DecodeCounts, AllLeapBytes, ReadLeaps, Skipped;
    Associative(pre, mid, rest);
    assert s[HEADER_SIZE..] == (pre + mid) + rest;
    assert s[HEADER_SIZE + |pre + mid|..] == s[HEADER_SIZE..][|pre + mid|..] == rest;
  }

  // ----- whole files ------------------------------------------------------------------------

  /** Files of section 3 of RFC 8536: one block, or two blocks and a footer. */
  datatype File =
    | Version1(only: Block, trailing: seq<byte>)
    | Version2(version: byte, first: Block, second: Block, footer: seq<byte>)

  predicate WellFormedFile(f: File) {
    match f
    case Version1(b, _) => WellFormed(b, false)
    case Version2(version, first, second, _) =>
      WellFormed(first, false) && WellFormed(second, true) && (version == VERSION_2 || version == VERSION_3)
  }

  function FileBytes(f: File): seq<byte>
    requires WellFormedFile(f)
  {
    match f
    case Version1(b, trailing) => BlockBytes(0, b, false) + trailing
    case Version2(version, first, second, footer) =>
      BlockBytes(version, first, false) + (BlockBytes(version, second, true) + footer)
  }

  function LeapsOf(f: File): seq<LeapSecond> {
    match f
    case Version1(b, _) => HeldAll(b.leaps, false)
    case Version2(_, _, second, _) => second.leaps
  }

  /** The reader is correct on every TZif file, with any transitions, types, names and indicators. */
  lemma ParseIsCorrect(f: File)
    requires WellFormedFile(f)
    ensures Parse(0, FileBytes(f)) == if LeapsOf(f) == [] then Err(NoLeapSeconds) else Ok(LeapsOf(f))
  {
    match f
    case Version1(b, trailing) =>
      WantedBlock(0, 0, b, trailing);
    case Version2(version, first, second, footer) =>
      SkippedBlock(version, first, BlockBytes(version, second, true) + footer);
      WantedBlock(1, version, second, footer);
      assert HeldAll(second.leaps, true) == second.leaps;
  }

  // ----- the writer -------------------------------------------------------------------------

  const UTC_NAME: seq<byte> := [0x55, 0x54, 0x43]

  function FormattedName(name: seq<byte>): seq<byte> {
    (if name == [] then UTC_NAME else name) + [0]
  }

  function WrittenBlock(ls: seq<LeapSecond>, name: seq<byte>): Block {
    Block([0, 0, 0, 0, 0, 0, 0, 0, 0, 0, 0, 0, 0, 0, 0], [], [0, 0, 0, 0, 0, 0], FormattedName(name), ls, [0], [0], 0, 1)
  }

  /** The file that `Write` produces. */
  function WrittenFile(ver: byte, ls: seq<LeapSecond>, name: seq<byte>): File {
    if ver == VERSION_2 then
      Version2(VERSION_2, WrittenBlock(ls, name), WrittenBlock(ls, name), [0x0A] + name + [0x0A])
    else Version1(WrittenBlock(ls, name), [])
  }

  /** What was written is read back: exactly for version 2, with 32-bit times for version 0. */
  lemma WriteRoundTrip(ver: byte, ls: seq<LeapSecond>, name: seq<byte>)
    requires ver == 0 || ver == VERSION_2
    requires |ls| < TWO_POW_32 && |name| < TWO_POW_32 - 1
    ensures WellFormedFile(WrittenFile(ver, ls, name))
    ensures Parse(0, FileBytes(WrittenFile(ver, ls, name))) ==
            if ls == [] then Err(NoLeapSeconds) else Ok(HeldAll(ls, ver == VERSION_2))
  {
    ParseIsCorrect(WrittenFile(ver, ls, name));
    hide Parse, FileBytes;
    assert HeldAll(ls, true) == ls;
  }

  /** An `io.Writer` that takes a limited number of bytes before its writes fail. */
  class Sink {
    var out: seq<byte>
    var room: nat

    constructor (room: nat)
      ensures out == [] && this.room == room
    {
      out, this.room := [], room;
    }

    method Put(b: seq<byte>) returns (ok: bool)
      modifies this
      ensures ok <==> |b| <= old(room)
      ensures out == old(out) + Cut(b, old(room))
      ensures room == if ok then old(room) - |b| else 0
    {
      out := out + Cut(b, room);
      ok := |b| <= room;
      room := if ok then room - |b| else 0;
    }
  }

  /** One write of a block of which `done` is written already and `rest` is still to follow. */
  method PutNext(f: Sink, b: seq<byte>, ghost start: seq<byte>, ghost room: nat, ghost done: seq<byte>, ghost rest: seq<byte>)
    returns (ok: bool)
    requires f.out == start + done && f.room + |done| == room
    modifies f
    ensures ok <==> |done + b| <= room
    ensures ok ==> f.out == start + (done + b) && f.room + |done + b| == room
    ensures !ok ==> f.out == start + Cut(done + b + rest, room) && |done + b + rest| > room
  {
    CutAppend(done, b, room);
    CutAppend(done + b, rest, room);
    Associative(start, done, Cut(b, f.room));
    Associative(start, done, b);
    ok := f.Put(b);
  }

  /** The loop over the leap seconds. */
  method WriteLeaps(f: Sink, ls: seq<LeapSecond>, wide: bool, ghost start: seq<byte>, ghost room: nat,
                    ghost lead: seq<byte>, ghost rest: seq<byte>) returns (ok: bool)
    requires f.out == start + lead && f.room + |lead| == room
    modifies f
    ensures var done := lead + AllLeapBytes(ls, wide);
            && (ok ==> f.out == start + done && f.room + |done| == room)
            && (!ok ==> f.out == start + Cut(done + rest, room) && |done + rest| > room)
  {
    NoLeapBytes(wide);
    assert ls[..0] == [] && lead + [] == lead;
    hide LeapBytes, AllLeapBytes, Cut;
    for i := 0 to |ls|
      invariant f.out == start + (lead + AllLeapBytes(ls[..i], wide)) && f.room + |lead + AllLeapBytes(ls[..i], wide)| == room
    {
      ghost var done := lead + AllLeapBytes(ls[..i], wide);
      LeapsAround(ls, i, wide, lead, rest);
      ok := PutNext(f, LeapBytes(ls[i], wide), start, room, done, AllLeapBytes(ls[i + 1..], wide) + rest);
      if !ok {
        return;
      }
    }
    assert ls[..|ls|] == ls;
    return true;
  }

  lemma {:induction false} AllLeapBytesConcat(a: seq<LeapSecond>, b: seq<LeapSecond>, wide: bool)
    ensures AllLeapBytes(a + b, wide) == AllLeapBytes(a, wide) + AllLeapBytes(b, wide)
    decreases |b|
  {
    hide LeapBytes;
    if b == [] {
      assert a + b == a;
    } else {
      var n := |b| - 1;
      assert a + b == (a + b[..n]) + [b[n]] && b == b[..n] + [b[n]];
      AllLeapBytesConcat(a, b[..n], wide);
      AllLeapBytesSnoc(a + b[..n], b[n], wide);
      AllLeapBytesSnoc(b[..n], b[n], wide);
    }
  }

  /** The record in turn, with what was written before it and what follows. */
  lemma LeapsAround(ls: seq<LeapSecond>, i: nat, wide: bool, lead: seq<byte>, rest: seq<byte>)
    requires i < |ls|
    ensures var done, b := lead + AllLeapBytes(ls[..i], wide), LeapBytes(ls[i], wide);
            && done + b == lead + AllLeapBytes(ls[..i + 1], wide)
            && done + b + (AllLeapBytes(ls[i + 1..], wide) + rest) == lead + AllLeapBytes(ls, wide) + rest
  {
    hide LeapBytes, AllLeapBytes;
    assert ls[..i + 1] == ls[..i] + [ls[i]] && ls == ls[..i + 1] + ls[i + 1..];
    AllLeapBytesSnoc(ls[..i], ls[i], wide);
    AllLeapBytesConcat(ls[..i + 1], ls[i + 1..], wide);
    assert lead + (AllLeapBytes(ls[..i + 1], wide) + AllLeapBytes(ls[i + 1..], wide)) + rest ==
           lead + AllLeapBytes(ls[..i + 1], wide) + (AllLeapBytes(ls[i + 1..], wide) + rest);
  }

  const ZEROS: seq<byte> := [0, 0, 0, 0, 0, 0]

  /** Header, one local time type, the name, the leap seconds and two indicators. */
  function BlockText(hdr: seq<byte>, ls: seq<LeapSecond>, name: seq<byte>, wide: bool): seq<byte> {
    hdr + (ZEROS + name) + AllLeapBytes(ls, wide) + [0, 0]
  }

  /** The part of `Write` from a header to the end of its block, or as much of it as the writer takes. */
  method WriteBlock(f: Sink, hdr: seq<byte>, ls: seq<LeapSecond>, name: seq<byte>, wide: bool) returns (ok: bool)
    modifies f
    ensures var block := BlockText(hdr, ls, name, wide);
            && f.out == old(f.out) + Cut(block, old(f.room))
            && (ok <==> |block| <= old(f.room))
            && (ok ==> f.room == old(f.room) - |block|)
  {
    ghost var start, room, leaps := f.out, f.room, AllLeapBytes(ls, wide);
    ghost var lead := hdr + (ZEROS + name);
    ghost var block := lead + leaps + [0, 0];
    hide AllLeapBytes;
    assert start + [] == start && [] + hdr == hdr;
    assert hdr + (ZEROS + name + leaps + [0, 0]) == block;
    assert hdr + ZEROS + (name + leaps + [0, 0]) == block;
    assert hdr + ZEROS + name == lead && lead + (leaps + [0, 0]) == block && block + [] == block;
    ok := PutNext(f, hdr, start, room, [], ZEROS + name + leaps + [0, 0]);
    if !ok {
      return;
    }
    ok := PutNext(f, ZEROS, start, room, hdr, name + leaps + [0, 0]);
    if !ok {
      return;
    }
    ok := PutNext(f, name, start, room, hdr + ZEROS, leaps + [0, 0]);
    if !ok {
      return;
    }
    ok := WriteLeaps(f, ls, wide, start, room, lead, [0, 0]);
    if !ok {
      return;
    }
    ok := PutNext(f, [0, 0], start, room, lead + leaps, []);
  }

  /** `Write` of a list that the 32-bit counts can hold: the file, cut where the writer fails. */
  method Write(f: Sink, ver: byte, ls: seq<LeapSecond>, name: seq<byte>) returns (r: Result<()>)
    requires |ls| < TWO_POW_32 && |name| < TWO_POW_32 - 1
    modifies f
    ensures ver != 0 && ver != VERSION_2 ==> r == Err(UnsupportedVersion) && f.out == old(f.out)
    ensures ver == 0 || ver == VERSION_2 ==>
              var file := WrittenFile(ver, ls, name);
              && WellFormedFile(file)
              && f.out == old(f.out) + Cut(FileBytes(file), old(f.room))
              && r == if |FileBytes(file)| <= old(f.room) then Ok(()) else Err(WriteFailed)
  {
    if ver != 0 && ver != VERSION_2 {
      return Err(UnsupportedVersion);
    }
    var formatted := FormattedName(name);
    var b := WrittenBlock(ls, name);
    var hdr := HeaderBytes(ver, b.padding, CountsOf(b));
    var posixTz := [0x0A] + name + [0x0A];
    ghost var first, second := BlockText(hdr, ls, formatted, false), BlockText(hdr, ls, formatted, true);
    FileOfWriter(ver, ls, name);
    hide *;
    CutAppend(first, second + posixTz, f.room);
    var ok := WriteBlock(f, hdr, ls, formatted, false);
    if !ok {
      return Err(WriteFailed);
    }
    if ver != VERSION_2 {
      return Ok(());
    }
    CutAppend(second, posixTz, f.room);
    Associative(old(f.out), first, Cut(second + posixTz, f.room));
    ok := WriteBlock(f, hdr, ls, formatted, true);
    if !ok {
      return Err(WriteFailed);
    }
    Associative(old(f.out) + first, second, Cut(posixTz, f.room));
    ok := f.Put(posixTz);
    if !ok {
      return Err(WriteFailed);
    }
    return Ok(());
  }

  /** What `Write` puts together is the file. */
  lemma FileOfWriter(ver: byte, ls: seq<LeapSecond>, name: seq<byte>)
    requires ver == 0 || ver == VERSION_2
    requires |ls| < TWO_POW_32 && |name| < TWO_POW_32 - 1
    ensures WellFormedFile(WrittenFile(ver, ls, name))
    ensures var b := WrittenBlock(ls, name);
            var hdr, text := HeaderBytes(ver, b.padding, CountsOf(b)), FormattedName(name);
            FileBytes(WrittenFile(ver, ls, name)) ==
            BlockText(hdr, ls, text, false) +
            if ver == VERSION_2 then BlockText(hdr, ls, text, true) + ([0x0A] + name + [0x0A]) else []
  {
    BlockOfWriter(ver, ls, name, false);
    BlockOfWriter(ver, ls, name, true);
    hide BlockText, BlockBytes, HeaderBytes, FormattedName;
  }

  lemma BlockOfWriter(ver: byte, ls: seq<LeapSecond>, name: seq<byte>, wide: bool)
    requires |ls| < TWO_POW_32 && |name| < TWO_POW_32 - 1
    ensures var b := WrittenBlock(ls, name);
            && WellFormed(b, wide)
            && BlockBytes(ver, b, wide) == BlockText(HeaderBytes(ver, b.padding, CountsOf(b)), ls, FormattedName(name), wide)
  {
    var b := WrittenBlock(ls, name);
    hide AllLeapBytes, HeaderBytes;
    assert b.transitions + b.types + b.chars == ZEROS + FormattedName(name);
    assert b.std + b.utc == [0, 0];
  }

  // ----- the reader -------------------------------------------------------------------------

  /** An `io.Reader` over fixed bytes: a read returns what is left when that is less than asked. */
  class Source {
    const data: seq<byte>
    var pos: nat

    ghost predicate Valid()
      reads this
    {
      pos <= |data|
    }

    ghost function Left(): seq<byte>
      requires Valid()
      reads this
    {
      data[pos..]
    }

    constructor (data: seq<byte>)
      ensures Valid() && Left() == data
    {
      this.data := data;
      pos := 0;
    }

    method Read(n: nat) returns (b: seq<byte>)
      requires Valid()
      modifies this
      ensures Valid()
      ensures if n <= |old(Left())| then b == old(Left())[..n] && Left() == old(Left())[n..]
              else b == old(Left()) && Left() == []
    {
      var end := if n <= |data| - pos then pos + n else |data|;
      b := data[pos..end];
      DropTwice(data, pos, end - pos);
      pos := end;
    }
  }

  /** The loop over the leap records. */
  method ReadRecords(r: Source, wide: bool, n: nat) returns (res: Result<seq<LeapSecond>>)
    requires r.Valid()
    modifies r
    ensures r.Valid() && res == ReadLeaps(old(r.Left()), wide, n)
  {
    var ret: seq<LeapSecond> := [];
    ghost var all := ReadLeaps(r.Left(), wide, n);
    assert all.Ok? ==> [] + all.value == all.value;
    hide DecodeLeap;
    for i := 0 to n
      invariant r.Valid()
      invariant all == Prepend(ret, ReadLeaps(r.Left(), wide, n - i))
    {
      ghost var s := r.Left();
      var b := r.Read(LeapWidth(wide));
      if |b| < LeapWidth(wide) {
        return Err(UnexpectedEnd);
      }
      LeapOfPrefix(s, wide);
      var l := DecodeLeap(b, wide);
      PrependOne(ret, l, ReadLeaps(r.Left(), wide, n - i - 1));
      ret := ret + [l];
    }
    assert ret + [] == ret;
    return Ok(ret);
  }

  lemma LeapOfPrefix(s: seq<byte>, wide: bool)
    requires |s| >= LeapWidth(wide)
    ensures DecodeLeap(s[..LeapWidth(wide)], wide) == DecodeLeap(s, wide)
  {
    var p := s[..LeapWidth(wide)];
    hide Unsigned;
    if wide {
      SliceOfPrefix(s, 12, 0, 8);
      SliceOfPrefix(s, 12, 8, 12);
    } else {
      SliceOfPrefix(s, 8, 0, 4);
      SliceOfPrefix(s, 8, 4, 8);
    }
  }

  /** One header: the reads and checks at the top of the loop, up to the data to skip. */
  method ReadHeader(r: Source, v: nat) returns (res: Result<(byte, Counts)>)
    requires r.Valid() && v <= 1
    modifies r
    ensures r.Valid()
    ensures var s := old(r.Left());
            match CheckHeader(v, s)
            case Err(e) => res == Err(e)
            case Ok(_) => res == Ok((s[4], DecodeCounts(s))) && r.Left() == s[HEADER_SIZE..]
  {
    ghost var s := r.Left();
    var magic := r.Read(4);
    if magic != MAGIC {
      return Err(BadData);
    }
    var p := r.Read(16);
    if |p| != 16 {
      return Err(BadData);
    }
    var version := p[0];
    if version != 0 && version != VERSION_2 && version != VERSION_3 {
      return Err(UnsupportedVersion);
    }
    if v > version {
      return Err(BadData);
    }
    var hdr := r.Read(24);
    if |hdr| < 24 {
      return Err(UnexpectedEnd);
    }
    DropTwice(s, 4, 16);
    DropTwice(s, 20, 24);
    assert hdr == s[20..44];
    CountsOfSlice(s);
    var c := Counts(Uint32(hdr, 0), Uint32(hdr, 4), Uint32(hdr, 8), Uint32(hdr, 12), Uint32(hdr, 16), Uint32(hdr, 20));
    return Ok((version, c));
  }

  lemma CountsOfSlice(s: seq<byte>)
    requires |s| >= HEADER_SIZE
    ensures var h := s[20..44];
            DecodeCounts(s) == Counts(Uint32(h, 0), Uint32(h, 4), Uint32(h, 8), Uint32(h, 12), Uint32(h, 16), Uint32(h, 20))
  {
    hide Unsigned;
    SliceOfSlice(s, 20, 44, 0, 4);
    SliceOfSlice(s, 20, 44, 4, 8);
    SliceOfSlice(s, 20, 44, 8, 12);
    SliceOfSlice(s, 20, 44, 12, 16);
    SliceOfSlice(s, 20, 44, 16, 20);
    SliceOfSlice(s, 20, 44, 20, 24);
  }

  lemma ParseTurn(v: nat, s: seq<byte>)
    requires v <= 1
    ensures match CheckHeader(v, s)
            case Err(e) => Parse(v, s) == Err(e)
            case Ok(_) =>
              var version, c := s[4], DecodeCounts(s);
              var skip := Skipped(v, version, c);
              Parse(v, s) ==
              if |s| - HEADER_SIZE < skip then Err(BadData)
              else if v == 0 && version > 0 then Parse(1, s[HEADER_SIZE..][skip..])
              else NonEmpty(ReadLeaps(s[HEADER_SIZE..][skip..], version != 0, c.leap))
  {
    hide Skipped, ReadLeaps, NonEmpty, DecodeCounts;
    if CheckHeader(v, s).Ok? {
      var skip := Skipped(v, s[4], DecodeCounts(s));
      if skip <= |s| - HEADER_SIZE {
        DropTwice(s, HEADER_SIZE, skip);
      }
    }
  }

  /** `parseVx` on any bytes. */
  method ParseVx(r: Source) returns (res: Result<seq<LeapSecond>>)
    requires r.Valid()
    modifies r
    ensures r.Valid() && res == Parse(0, old(r.Left()))
  {
    hide Parse, DecodeCounts, ReadLeaps;
    var ret: seq<LeapSecond> := [];
    var v := 0;
    ghost var all := Parse(0, r.Left());
    while v < 2
      invariant r.Valid() && v <= 1
      invariant all == Parse(v, r.Left())
      decreases 2 - v
    {
      ParseTurn(v, r.Left());
      var h := ReadHeader(r, v);
      if h.Err? {
        return Err(h.error);
      }
      var (version, c) := h.value;
      var skip := if v == 0 then c.time * 5 + c.kinds * 6 + c.chars else c.time * 9 + c.kinds * 6 + c.chars;
      if v == 0 && version > 0 {
        skip := skip + c.leap * 8 + c.isUtc + c.isStd;
      }
      var discarded := r.Read(skip);
      if |discarded| != skip {
        return Err(BadData);
      }
      if v == 0 && version > 0 {
        v := v + 1;
        continue;
      }
      var records := ReadRecords(r, version != 0, c.leap);
      if records.Err? {
        return records;
      }
      ret := records.value;
      var tail := r.Read(c.isUtc + c.isStd);
      if |ret| == 0 {
        return Err(NoLeapSeconds);
      }
      return Ok(ret);
    }
  }
}
