/**
 TLVs of PTP messages (ptp/protocol/tlvs.go): sections 16.1 to 16.3 of IEEE 1588-2019.

 `Encode` and `Decode` give the bytes and their meaning; the methods write into a byte buffer and
 read from one, as the program does. A TLV carries its own type and length fields, which the
 program neither derives nor repairs when it writes.
 */
module PtpTlv {
  import opened Words

  datatype Error = ShortHeader | WrongLength | Truncated | BadText | Unsupported | TextTooLong
                 | ShortPacket | BadMessageLength | WrongMessageType | NoTLVs | ShortBuffer

  type Result<+T> = Fallible<T, Error>

  const HEAD_SIZE: int := 4

  datatype Head = Head(tlvType: uint16, lengthField: uint16)

  /** A 48-bit number of seconds, as the six bytes the program stores. */
  type seconds48 = b: seq<byte> | |b| == 6 witness [0, 0, 0, 0, 0, 0]

  datatype TLV =
    | Request(head: Head, msgType: byte, logPeriod: int8, duration: uint32)
    | Grant(head: Head, msgType: byte, logPeriod: int8, duration: uint32, reserved: byte, renewal: byte)
    | Cancel(head: Head, flags: byte, reserved: byte)
    | AckCancel(head: Head, flags: byte, reserved: byte)
    | PathTrace(head: Head, path: seq<uint64>)
    | AltTimeOffset(head: Head, key: byte, currentOffset: int32, jumpSeconds: int32,
                    nextJump: seconds48, name: seq<byte>)
    | AltResponsePort(head: Head, offset: uint16)

  const REQUEST: uint16 := 0x0004
  const GRANT: uint16 := 0x0005
  const CANCEL: uint16 := 0x0006
  const ACK_CANCEL: uint16 := 0x0007
  const PATH_TRACE: uint16 := 0x0008
  const ALT_TIME_OFFSET: uint16 := 0x0009
  const ALT_RESPONSE_PORT: uint16 := 0x2007

  function TypeOf(t: TLV): uint16 {
    match t
    case Request(_, _, _, _) => REQUEST
    case Grant(_, _, _, _, _, _) => GRANT
    case Cancel(_, _, _) => CANCEL
    case AckCancel(_, _, _) => ACK_CANCEL
    case PathTrace(_, _) => PATH_TRACE
    case AltTimeOffset(_, _, _, _, _, _) => ALT_TIME_OFFSET
    case AltResponsePort(_, _) => ALT_RESPONSE_PORT
  }

  // ----- bytes ------------------------------------------------------------------------------

  function EncodeHead(h: Head): (b: seq<byte>)
    ensures |b| == 4
  {
    BigEndian(h.tlvType, 2) + BigEndian(h.lengthField, 2)
  }

  function EncodePath(path: seq<uint64>): (b: seq<byte>)
    ensures |b| == 8 * |path|
  {
    if path == [] then [] else EncodePath(path[..|path| - 1]) + BigEndian(path[|path| - 1], 8)
  }

  /** A length byte, the text, and padding that makes the total odd. */
  function EncodeText(name: seq<byte>): (b: seq<byte>)
    ensures |b| % 2 == 1 && |name| < |b| <= |name| + 2
  {
    [|name| % 0x100] + name + if |name| % 2 != 0 then [0] else []
  }

  function Signed8(v: int8): byte {
    RadixValues();
    ToUnsigned(v, 1)
  }

  /** The only TLV that cannot be written is one with a text of more than 255 bytes. */
  predicate Encodable(t: TLV) {
    t.AltTimeOffset? ==> |t.name| <= 255
  }

  function EncodeBody(t: TLV): seq<byte>
  {
    match t
    case Request(_, m, l, d) => [m, Signed8(l)] + BigEndian(d, 4)
    case Grant(_, m, l, d, res, ren) => [m, Signed8(l)] + BigEndian(d, 4) + [res, ren]
    case Cancel(_, f, r) => [f, r]
    case AckCancel(_, f, r) => [f, r]
    case PathTrace(_, path) => EncodePath(path)
    case AltTimeOffset(_, key, cur, jump, next, name) =>
      [key] + Signed32(cur) + Signed32(jump) + next + if name == [] then [] else EncodeText(name)
    case AltResponsePort(_, offset) => BigEndian(offset, 2)
  }

  function Encode(t: TLV): (b: seq<byte>)
    ensures |b| == 4 + |EncodeBody(t)|
  {
    EncodeHead(t.head) + EncodeBody(t)
  }

  predicate AllEncodable(tlvs: seq<TLV>) {
    forall i :: 0 <= i < |tlvs| ==> Encodable(tlvs[i])
  }

  function EncodeAll(tlvs: seq<TLV>): seq<byte>
  {
    if tlvs == [] then [] else EncodeAll(tlvs[..|tlvs| - 1]) + Encode(tlvs[|tlvs| - 1])
  }

  // ----- what a buffer of limited size makes of it ------------------------------------------

  /** How many bytes were written, or why not. */
  type Marshalled = Fallible<nat, Failure<Error>>

  /**
   The bytes a buffer must have for a TLV to be written without a panic. Single bytes and integers are
   stored by index, while the last jump and the name of an alternate time offset are copied as far as
   there is room.
   */
  function Need(t: TLV): (n: nat)
    ensures n <= |Encode(t)|
  {
    if t.AltTimeOffset? then if t.name == [] || |t.name| > 255 then 13 else 19 else |Encode(t)|
  }

  function Store(t: TLV, room: nat): (r: Marshalled)
    ensures r.Ok? ==> r.value == |Encode(t)| && Encodable(t)
  {
    if room < Need(t) then Err(Panicked)
    else if !Encodable(t) then Err(Refused(TextTooLong))
    else Ok(|Encode(t)|)
  }

  /** All TLVs in turn; a TLV that would start behind the buffer panics too. */
  function StoreAll(tlvs: seq<TLV>, room: nat): Marshalled {
    if tlvs == [] then Ok(0)
    else
      var n := |tlvs| - 1;
      var front := StoreAll(tlvs[..n], room);
      if front.Err? then front
      else if front.value > room then Err(Panicked)
      else
        var last := Store(tlvs[n], room - front.value);
        if last.Err? then last else Ok(front.value + last.value)
  }

  /** How far into the buffer the TLVs reach: to the end, or to the check that refuses a name. */
  function Reach(tlvs: seq<TLV>): nat {
    if tlvs == [] then 0
    else
      var n := |tlvs| - 1;
      if !AllEncodable(tlvs[..n]) then Reach(tlvs[..n])
      else if !Encodable(tlvs[n]) then |EncodeAll(tlvs[..n])| + 13
      else |EncodeAll(tlvs)|
  }

  /** Exactly when a list is written, refused, cut short or fatal. */
  lemma {:induction false} StoreAllIff(tlvs: seq<TLV>, room: nat)
    ensures Reach(tlvs) <= room ==>
              StoreAll(tlvs, room) == if AllEncodable(tlvs) then Ok(|EncodeAll(tlvs)|) else Err(Refused(TextTooLong))
    ensures Reach(tlvs) > room ==>
              || StoreAll(tlvs, room) == Err(Panicked)
              || (AllEncodable(tlvs) && StoreAll(tlvs, room) == Ok(|EncodeAll(tlvs)|))
    ensures AllEncodable(tlvs) ==> Reach(tlvs) == |EncodeAll(tlvs)|
  {
    if tlvs != [] {
      hide Encode, Encodable, AllEncodable, EncodeAll;
      StoreAllIff(tlvs[..|tlvs| - 1], room);
      EncodableFront(tlvs);
      EncodeAllLast(tlvs);
    }
  }

  lemma EncodeAllLast(tlvs: seq<TLV>)
    requires tlvs != []
    ensures EncodeAll(tlvs) == EncodeAll(tlvs[..|tlvs| - 1]) + Encode(tlvs[|tlvs| - 1])
  {
  }

  lemma EncodableFront(tlvs: seq<TLV>)
    requires tlvs != []
    ensures AllEncodable(tlvs) <==> AllEncodable(tlvs[..|tlvs| - 1]) && Encodable(tlvs[|tlvs| - 1])
  {
    hide Encodable;
  }

  // ----- decoding ---------------------------------------------------------------------------

  function Int8(x: byte): int8 {
    RadixValues();
    ToSigned(x, 1)
  }

  function DecodeHead(b: seq<byte>): Head
    requires |b| >= HEAD_SIZE
  {
    Head(Uint16(b, 0), Uint16(b, 2))
  }

  /** The length checks every TLV passes before its fields are read. */
  function CheckLength(h: Head, available: nat, want: nat, strict: bool): Result<()> {
    if strict && h.lengthField != want then Err(WrongLength)
    else if h.lengthField < want then Err(WrongLength)
    else if HEAD_SIZE + h.lengthField > available then Err(Truncated)
    else Ok(())
  }

  /** How many identities the loop of PATH_TRACE reads, starting with number `i`. */
  function PathCount(length: nat, available: nat, i: nat): nat
    decreases length - 8 * i
  {
    if 8 * i <= length && HEAD_SIZE + 8 * i + 8 < available then 1 + PathCount(length, available, i + 1) else 0
  }

  function DecodePath(b: seq<byte>, n: nat): (path: seq<uint64>)
    requires HEAD_SIZE + 8 * n <= |b|
    ensures |path| == n
  {
    if n == 0 then [] else DecodePath(b, n - 1) + [Uint64(b, HEAD_SIZE + 8 * (n - 1))]
  }

  /** `int(length+1)` is computed on eight bits, so a length of 255 passes the first test. */
  function DecodeText(b: seq<byte>): Result<seq<byte>> {
    if |b| == 0 then Err(BadText)
    else if b[0] == 0 then Ok([])
    else if |b| < (b[0] as int + 1) % 0x100 then Err(BadText)
    else if |b| - 1 < b[0] then Err(BadText)
    else Ok(b[1..1 + b[0]])
  }

  lemma {:induction false} PathCountFits(length: nat, available: nat, i: nat)
    requires HEAD_SIZE + 8 * i <= available
    ensures HEAD_SIZE + 8 * (i + PathCount(length, available, i)) <= available
    decreases length - 8 * i
  {
    if 8 * i <= length && HEAD_SIZE + 8 * i + 8 < available {
      PathCountFits(length, available, i + 1);
    }
  }

  /** One TLV at the start of the remaining bytes: the switch of the reader and the seven decoders. */
  function Decode(b: seq<byte>): (r: Result<TLV>)
    requires |b| >= HEAD_SIZE
    ensures r.Ok? ==> r.value.head == DecodeHead(b) && HEAD_SIZE + r.value.head.lengthField <= |b|
  {
    var h := DecodeHead(b);
    if h.tlvType == REQUEST then
      var ok := CheckLength(h, |b|, 6, true);
      if ok.Err? then Err(ok.error) else Ok(Request(h, b[4], Int8(b[5]), Uint32(b, 6)))
    else if h.tlvType == GRANT then
      var ok := CheckLength(h, |b|, 8, true);
      if ok.Err? then Err(ok.error) else Ok(Grant(h, b[4], Int8(b[5]), Uint32(b, 6), b[10], b[11]))
    else if h.tlvType == CANCEL then
      var ok := CheckLength(h, |b|, 2, true);
      if ok.Err? then Err(ok.error) else Ok(Cancel(h, b[4], b[5]))
    else if h.tlvType == ACK_CANCEL then
      var ok := CheckLength(h, |b|, 2, true);
      if ok.Err? then Err(ok.error) else Ok(AckCancel(h, b[4], b[5]))
    else if h.tlvType == PATH_TRACE then
      var ok := CheckLength(h, |b|, 8, false);
      if ok.Err? then Err(ok.error)
      else
        PathCountFits(h.lengthField, |b|, 0);
        Ok(PathTrace(h, DecodePath(b, PathCount(h.lengthField, |b|, 0))))
    else if h.tlvType == ALT_TIME_OFFSET then
      var ok := CheckLength(h, |b|, 20, false);
      if ok.Err? then Err(ok.error)
      else
        var name := DecodeText(b[19..]);
        if name.Err? then Err(name.error)
        else Ok(AltTimeOffset(h, b[4], Int32(b, 5), Int32(b, 9), b[13..19], name.value))
    else if h.tlvType == ALT_RESPONSE_PORT then
      var ok := CheckLength(h, |b|, 2, true);
      if ok.Err? then Err(ok.error) else Ok(AltResponsePort(h, Uint16(b, 4)))
    else Err(Unsupported)
  }

  /** The TLVs from `pos` on, as long as a head fits below `maxLength`. */
  function ReadFrom(b: seq<byte>, maxLength: int, pos: nat): Result<seq<TLV>>
    requires pos <= |b| && maxLength <= |b|
    decreases |b| - pos
  {
    if pos + HEAD_SIZE > maxLength then Ok([])
    else
      var first := Decode(b[pos..]);
      if first.Err? then Err(first.error)
      else
        var rest := ReadFrom(b, maxLength, pos + HEAD_SIZE + first.value.head.lengthField);
        if rest.Err? then rest else Ok([first.value] + rest.value)
  }

  // ----- one TLV ----------------------------------------------------------------------------

  /** Type and length fields say what follows them. */
  predicate Consistent(t: TLV) {
    && t.head.tlvType == TypeOf(t)
    && Encodable(t)
    && t.head.lengthField == |EncodeBody(t)|
  }

  /** When a TLV that was written is read back as it was, given how many bytes follow it. */
  predicate Recoverable(t: TLV, trailing: nat) {
    match t
    case PathTrace(_, path) => path != [] && 1 <= trailing <= 8
    case AltTimeOffset(_, _, _, _, _, name) => |name| >= 3
    case _ => true
  }

  lemma HeadRoundTrip(h: Head, b: seq<byte>)
    requires |b| >= HEAD_SIZE && b[..4] == EncodeHead(h)
    ensures DecodeHead(b) == h
  {
    RadixValues();
    assert b[0..2] == b[..4][..2] == BigEndian(h.tlvType, 2);
    assert b[2..4] == b[..4][2..] == BigEndian(h.lengthField, 2);
    UintOfSlice(b, 0, h.tlvType, 2);
    UintOfSlice(b, 2, h.lengthField, 2);
  }

  /** Bytes `at..at + w` of a written TLV are the ones its body has there. */
  lemma BodySlice(t: TLV, rest: seq<byte>, at: nat, w: nat)
    requires at + w <= |EncodeBody(t)|
    ensures (Encode(t) + rest)[4 + at..4 + at + w] == EncodeBody(t)[at..at + w]
  {
    hide EncodeBody, EncodeHead;
  }

  lemma BodyTail(t: TLV, rest: seq<byte>, at: nat)
    requires at <= |EncodeBody(t)|
    ensures (Encode(t) + rest)[4 + at..] == EncodeBody(t)[at..] + rest
  {
    hide EncodeBody, EncodeHead;
    var head, body := EncodeHead(t.head), EncodeBody(t);
    assert Encode(t) == head + body;
    assert (head + body + rest)[4 + at..] == body[at..] + rest;
  }

  lemma WrittenHead(t: TLV, rest: seq<byte>)
    ensures |Encode(t) + rest| >= 4 && DecodeHead(Encode(t) + rest) == t.head
  {
    hide EncodeBody, EncodeHead;
    var b := Encode(t) + rest;
    assert b[..4] == EncodeHead(t.head);
    HeadRoundTrip(t.head, b);
  }

  lemma Signed8RoundTrip(v: int8)
    ensures Int8(Signed8(v)) == v
  {
    RadixValues();
  }

  lemma UnicastRoundTrip(t: TLV, rest: seq<byte>)
    requires (t.Request? || t.Grant?) && Consistent(t)
    ensures Decode(Encode(t) + rest) == Ok(t)
  {
    var b := Encode(t) + rest;
    var body := EncodeBody(t);
    WrittenHead(t, rest);
    RadixValues();
    assert body[2..6] == BigEndian(t.duration, 4);
    BodySlice(t, rest, 2, 4);
    UintOfSlice(b, 6, t.duration, 4);
    Signed8RoundTrip(t.logPeriod);
    assert b[4] == body[0] && b[5] == body[1];
    if t.Grant? {
      assert b[10] == body[6] && b[11] == body[7];
    }
  }

  lemma ShortRoundTrip(t: TLV, rest: seq<byte>)
    requires (t.Cancel? || t.AckCancel? || t.AltResponsePort?) && Consistent(t)
    ensures Decode(Encode(t) + rest) == Ok(t)
  {
    var b := Encode(t) + rest;
    var body := EncodeBody(t);
    WrittenHead(t, rest);
    BodySlice(t, rest, 0, 2);
    if t.AltResponsePort? {
      RadixValues();
      assert body[0..2] == BigEndian(t.offset, 2);
      UintOfSlice(b, 4, t.offset, 2);
    } else {
      assert b[4] == body[0] && b[5] == body[1];
    }
  }

  // ----- PATH_TRACE -------------------------------------------------------------------------

  lemma {:induction false} EncodePathAt(path: seq<uint64>, k: nat)
    requires k < |path|
    ensures EncodePath(path)[8 * k..8 * k + 8] == BigEndian(path[k], 8)
  {
    var n := |path| - 1;
    var front := EncodePath(path[..n]);
    assert EncodePath(path) == front + BigEndian(path[n], 8);
    if k < n {
      EncodePathAt(path[..n], k);
      assert (front + BigEndian(path[n], 8))[8 * k..8 * k + 8] == front[8 * k..8 * k + 8];
    }
  }

  lemma WrittenIdentity(t: TLV, rest: seq<byte>, k: nat)
    requires t.PathTrace? && k < |t.path|
    ensures HEAD_SIZE + 8 * k + 8 <= |Encode(t) + rest|
    ensures Uint64(Encode(t) + rest, HEAD_SIZE + 8 * k) == t.path[k]
  {
    EncodePathAt(t.path, k);
    BodySlice(t, rest, 8 * k, 8);
    RadixValues();
    hide BigEndian, EncodePath;
    UintOfSlice(Encode(t) + rest, HEAD_SIZE + 8 * k, t.path[k], 8);
  }

  lemma {:induction false} DecodeWrittenPath(t: TLV, rest: seq<byte>, k: nat)
    requires t.PathTrace? && k <= |t.path|
    ensures DecodePath(Encode(t) + rest, k) == t.path[..k]
  {
    hide Uint64, EncodePath;
    if k > 0 {
      DecodeWrittenPath(t, rest, k - 1);
      WrittenIdentity(t, rest, k - 1);
      assert t.path[..k] == t.path[..k - 1] + [t.path[k - 1]];
    }
  }

  /** The loop reads one identity too few when nothing follows, and one too many when more than 8 bytes do. */
  lemma {:induction false} PathCountWritten(n: nat, trailing: nat, i: nat)
    requires n > 0 && i <= n + 1
    requires trailing == 0 ==> i < n
    requires 1 <= trailing <= 8 ==> i <= n
    ensures PathCount(8 * n, HEAD_SIZE + 8 * n + trailing, i) ==
            if trailing == 0 then n - 1 - i else if trailing <= 8 then n - i else n + 1 - i
    decreases n + 1 - i
  {
    if 8 * i <= 8 * n && HEAD_SIZE + 8 * i + 8 < HEAD_SIZE + 8 * n + trailing {
      PathCountWritten(n, trailing, i + 1);
    }
  }

  lemma PathTraceRoundTrip(t: TLV, rest: seq<byte>)
    requires t.PathTrace? && Consistent(t)
    ensures Decode(Encode(t) + rest) == Ok(t) <==> Recoverable(t, |rest|)
    ensures Decode(Encode(t) + rest).Ok? <==> t.path != []
  {
    var b := Encode(t) + rest;
    var n := |t.path|;
    WrittenHead(t, rest);
    if n > 0 {
      PathCountWritten(n, |rest|, 0);
      var count := PathCount(8 * n, |b|, 0);
      PathCountFits(8 * n, |b|, 0);
      assert Decode(b) == Ok(PathTrace(t.head, DecodePath(b, count)));
      if 1 <= |rest| <= 8 {
        DecodeWrittenPath(t, rest, n);
        assert t.path[..n] == t.path;
      }
    }
  }

  // ----- ALTERNATE_TIME_OFFSET_INDICATOR ----------------------------------------------------

  lemma TextRoundTrip(name: seq<byte>, rest: seq<byte>)
    requires 0 < |name| <= 255
    ensures DecodeText(EncodeText(name) + rest) == Ok(name)
  {
    var b := EncodeText(name) + rest;
    assert b[0] == |name| && b[1..1 + |name|] == name;
  }

  lemma AltTimeOffsetBody(t: TLV)
    requires t.AltTimeOffset? && Encodable(t) && t.name != []
    ensures var body := EncodeBody(t);
            && |body| == 15 + |EncodeText(t.name)|
            && body[0] == t.key && body[1..5] == Signed32(t.currentOffset) && body[5..9] == Signed32(t.jumpSeconds)
            && body[9..15] == t.nextJump && body[15..] == EncodeText(t.name)
  {
    hide EncodeText, Signed32;
    var cur, jump, text := Signed32(t.currentOffset), Signed32(t.jumpSeconds), EncodeText(t.name);
    var body := EncodeBody(t);
    assert body == [t.key] + cur + jump + t.nextJump + text;
  }

  lemma AltTimeOffsetRoundTrip(t: TLV, rest: seq<byte>)
    requires t.AltTimeOffset? && Consistent(t)
    ensures Decode(Encode(t) + rest) == Ok(t) <==> Recoverable(t, |rest|)
    ensures Decode(Encode(t) + rest).Ok? <==> Recoverable(t, |rest|)
  {
    var b := Encode(t) + rest;
    WrittenHead(t, rest);
    if |t.name| >= 3 {
      var body := EncodeBody(t);
      AltTimeOffsetBody(t);
      BodySlice(t, rest, 0, 1);
      BodySlice(t, rest, 1, 4);
      BodySlice(t, rest, 5, 4);
      BodySlice(t, rest, 9, 6);
      BodyTail(t, rest, 15);
      Signed32RoundTrip(b, 5, t.currentOffset);
      Signed32RoundTrip(b, 9, t.jumpSeconds);
      TextRoundTrip(t.name, rest);
      hide EncodeBody, EncodeText, DecodeText, Signed32, Int32;
      assert b[4] == b[4..5][0] == body[0];
    }
  }

  // ----- lists ------------------------------------------------------------------------------

  /** A consistent TLV is read back unchanged exactly when it is recoverable; else its head still is. */
  lemma TlvRoundTrip(t: TLV, rest: seq<byte>)
    requires Consistent(t)
    ensures |Encode(t) + rest| >= 4
    ensures Decode(Encode(t) + rest) == Ok(t) <==> Recoverable(t, |rest|)
  {
    match t
    case Request(_, _, _, _) => UnicastRoundTrip(t, rest);
    case Grant(_, _, _, _, _, _) => UnicastRoundTrip(t, rest);
    case PathTrace(_, _) => PathTraceRoundTrip(t, rest);
    case AltTimeOffset(_, _, _, _, _, _) => AltTimeOffsetRoundTrip(t, rest);
    case _ => ShortRoundTrip(t, rest);
  }

  // ----- the wire form in absolute bytes ----------------------------------------------------

  /** Type, length and the place of every field, as sections 16.1 to 16.3 of IEEE 1588-2019 lay them out. */
  lemma WireForm(t: TLV)
    requires Consistent(t)
    ensures var b := Encode(t);
            match t
            case Request(_, msgType, logPeriod, duration) =>
              |b| == 10 && b[..4] == [0, 4, 0, 6] && b[4] == msgType && b[5] == Signed8(logPeriod)
              && b[6..10] == BigEndian(duration, 4)
            case Grant(_, msgType, logPeriod, duration, reserved, renewal) =>
              |b| == 12 && b[..4] == [0, 5, 0, 8] && b[4] == msgType && b[5] == Signed8(logPeriod)
              && b[6..10] == BigEndian(duration, 4) && b[10] == reserved && b[11] == renewal
            case Cancel(_, flags, reserved) =>
              b == [0, 6, 0, 2, flags, reserved]
            case AckCancel(_, flags, reserved) =>
              b == [0, 7, 0, 2, flags, reserved]
            case PathTrace(_, path) =>
              |b| == 4 + 8 * |path| && b[..2] == [0, 8] && b[2..4] == BigEndian(8 * |path|, 2)
            case AltTimeOffset(_, key, _, _, _, _) =>
              |b| >= 19 && b[..2] == [0, 9] && b[2..4] == BigEndian(|b| - 4, 2) && b[4] == key
            case AltResponsePort(_, offset) =>
              |b| == 6 && b[..4] == [0x20, 7, 0, 2] && b[4..] == BigEndian(offset, 2)
  {
    hide BigEndian, Signed8, Signed32, EncodeText, EncodePath, EncodeHead;
    HeadBytes(t.head);
  }

  lemma HeadBytes(h: Head)
    ensures EncodeHead(h) == [h.tlvType / 0x100, h.tlvType % 0x100, h.lengthField / 0x100, h.lengthField % 0x100]
    ensures EncodeHead(h)[2..4] == BigEndian(h.lengthField, 2)
  {
    PairBytes(h.tlvType);
    PairBytes(h.lengthField);
    hide BigEndian;
  }

  lemma PairBytes(v: uint16)
    ensures BigEndian(v, 2) == [v / 0x100, v % 0x100]
  {
    assert BigEndian(v / 0x100, 1) == BigEndian(v / 0x10000, 0) + [v / 0x100 % 0x100] == [v / 0x100];
  }

  /** A text on the wire: its length, its bytes, and a zero byte when the length is odd. */
  lemma TextWire(name: seq<byte>)
    requires |name| <= 255
    ensures var b, n := EncodeText(name), |name|;
            && |b| == (if n % 2 == 1 then n + 2 else n + 1) && b[0] == n && b[1..1 + n] == name
            && (n % 2 == 1 ==> b[n + 1] == 0)
  {
  }

  /** The one TLV that is cut short without an error: an alternate time offset whose integers still fit. */
  lemma CutShortIff(t: TLV, room: nat)
    ensures Store(t, room).Ok? && |Encode(t)| > room <==>
              && t.AltTimeOffset? && |t.name| <= 255 && |Encode(t)| > room
              && room >= if t.name == [] then 13 else 19
  {
    hide Encode;
  }

  /** A text that is complete: empty, or as long as its first byte says. */
  predicate TextFits(b: seq<byte>) {
    |b| > 0 && |b| > b[0]
  }

  /** The bytes a decoder accepts, exactly; `length` is the value of the second pair of bytes. */
  predicate Acceptable(b: seq<byte>)
    requires |b| >= 4
  {
    var length := 0x100 * (b[2] as int) + b[3] as int;
    && |b| >= 4 + length
    && (|| (b[0] == 0 && b[1] == 4 && length == 6)
        || (b[0] == 0 && b[1] == 5 && length == 8)
        || (b[0] == 0 && (b[1] == 6 || b[1] == 7) && length == 2)
        || (b[0] == 0 && b[1] == 8 && length >= 8)
        || (b[0] == 0 && b[1] == 9 && length >= 20 && TextFits(b[19..]))
        || (b[0] == 0x20 && b[1] == 7 && length == 2))
  }

  lemma AcceptedIff(b: seq<byte>)
    requires |b| >= 4
    ensures Decode(b).Ok? <==> Acceptable(b)
  {
    TwoBytes(b, 0);
    TwoBytes(b, 2);
    hide Uint16, Uint32, Int8, Int32, DecodePath, PathCount;
    if |b| >= 20 {
      TextAccepted(b[19..]);
    }
    hide DecodeText, TextFits;
  }

  lemma TextAccepted(b: seq<byte>)
    ensures DecodeText(b).Ok? <==> TextFits(b)
  {
  }

  /** A decoder of fixed size loses nothing: what it read, written again, is what was there. */
  lemma DecodedAgain(b: seq<byte>)
    requires |b| >= 4 && Decode(b).Ok?
    requires !Decode(b).value.PathTrace? && !Decode(b).value.AltTimeOffset?
    ensures var t := Decode(b).value;
            Consistent(t) && |Encode(t)| <= |b| && Encode(t) == b[..|Encode(t)|]
  {
    var t := Decode(b).value;
    DecodedHead(b);
    hide DecodeHead;
    if t.Request? || t.Grant? {
      UintAgain(b, 6, 4);
      Signed8Again(b[5]);
    } else if t.AltResponsePort? {
      UintAgain(b, 4, 2);
    }
    hide BigEndian, Uint, Signed8, Int8, EncodeHead;
    DecodedBody(b, t);
  }

  lemma DecodedBody(b: seq<byte>, t: TLV)
    requires |b| >= 4 && Decode(b) == Ok(t) && !t.PathTrace? && !t.AltTimeOffset?
    requires t.Request? || t.Grant? ==> BigEndian(t.duration, 4) == b[6..10] && Signed8(t.logPeriod) == b[5]
    requires t.AltResponsePort? ==> BigEndian(t.offset, 2) == b[4..6]
    requires EncodeHead(DecodeHead(b)) == b[..4]
    ensures Consistent(t) && |Encode(t)| <= |b| && Encode(t) == b[..|Encode(t)|]
  {
    hide BigEndian, Uint, Signed8, Int8, EncodeHead, DecodeHead;
  }

  lemma DecodedHead(b: seq<byte>)
    requires |b| >= 4
    ensures EncodeHead(DecodeHead(b)) == b[..4]
  {
    UintAgain(b, 0, 2);
    UintAgain(b, 2, 2);
    hide BigEndian, Uint;
  }

  lemma UintAgain(b: seq<byte>, at: nat, width: nat)
    requires at + width <= |b|
    ensures BigEndian(Uint(b, at, width), width) == b[at..at + width]
  {
    BigEndianOfUnsigned(b[at..at + width]);
  }

  lemma Signed8Again(x: byte)
    ensures Signed8(Int8(x)) == x
  {
    RadixValues();
  }

  predicate AllConsistent(tlvs: seq<TLV>) {
    forall i :: 0 <= i < |tlvs| ==> Consistent(tlvs[i])
  }

  lemma EncodeAllSnoc(tlvs: seq<TLV>, t: TLV)
    ensures EncodeAll(tlvs + [t]) == EncodeAll(tlvs) + Encode(t)
  {
    hide Encode;
    assert (tlvs + [t])[..|tlvs|] == tlvs;
  }

  lemma {:induction false} EncodeAllCons(t: TLV, tlvs: seq<TLV>)
    ensures EncodeAll([t] + tlvs) == Encode(t) + EncodeAll(tlvs)
  {
    hide *;
    if tlvs == [] {
      EncodeAllSnoc([], t);
      EncodeAllNil();
      assert [] + [t] == [t] + tlvs;
    } else {
      var front, last := tlvs[..|tlvs| - 1], tlvs[|tlvs| - 1];
      EncodeAllCons(t, front);
      EncodeAllSnoc([t] + front, last);
      EncodeAllSnoc(front, last);
      assert front + [last] == tlvs;
      assert ([t] + front) + [last] == [t] + tlvs;
      Associative(Encode(t), EncodeAll(front), Encode(last));
    }
  }

  lemma EncodeAllNil()
    ensures EncodeAll([]) == []
  {
  }

  /** Every TLV of the list is recoverable, given the bytes of its successors and `trailing` more. */
  predicate AllRecoverable(tlvs: seq<TLV>, trailing: nat) {
    tlvs == [] ||
    (Recoverable(tlvs[0], |EncodeAll(tlvs[1..])| + trailing) && AllRecoverable(tlvs[1..], trailing))
  }

  /** One turn of the reader on a written TLV. */
  lemma ReadStep(b: seq<byte>, maxLength: int, pos: nat, t: TLV, tail: seq<byte>)
    requires Consistent(t) && maxLength <= |b| && pos <= |b| && b[pos..] == Encode(t) + tail
    requires pos + |Encode(t)| <= maxLength
    ensures var now, rest := ReadFrom(b, maxLength, pos), ReadFrom(b, maxLength, pos + |Encode(t)|);
            if Recoverable(t, |tail|) then now == if rest.Err? then rest else Ok([t] + rest.value)
            else now.Ok? ==> now.value != [] && now.value[0] != t
  {
    hide *;
    TlvRoundTrip(t, tail);
    EncodedLength(t);
    ReadTurn(b, maxLength, pos);
    var first := Decode(b[pos..]);
    if first.Ok? {
      PrependFirst(first.value, ReadFrom(b, maxLength, pos + HEAD_SIZE + first.value.head.lengthField));
    }
  }

  /** One turn of the reader. */
  lemma ReadTurn(b: seq<byte>, maxLength: int, pos: nat)
    requires pos + HEAD_SIZE <= maxLength <= |b|
    ensures var first := Decode(b[pos..]);
            first.Ok? ==> 0 <= pos + HEAD_SIZE + first.value.head.lengthField <= |b|
    ensures var first := Decode(b[pos..]);
            ReadFrom(b, maxLength, pos) ==
            if first.Err? then Err(first.error)
            else Prepend([first.value], ReadFrom(b, maxLength, pos + HEAD_SIZE + first.value.head.lengthField))
  {
    hide Decode;
  }

  /** Reading back a written suffix of TLVs gives the same list exactly when each of them is recoverable. */
  lemma {:induction false} ReadWritten(b: seq<byte>, pos: nat, tlvs: seq<TLV>, rest: seq<byte>)
    requires AllConsistent(tlvs)
    requires pos <= |b| && b[pos..] == EncodeAll(tlvs) + rest
    ensures ReadFrom(b, |b| - |rest|, pos) == Ok(tlvs) <==> AllRecoverable(tlvs, |rest|)
    decreases |tlvs|
  {
    hide *;
    if tlvs == [] {
      NothingLeft(b, pos, rest);
    } else {
      var t, others := tlvs[0], tlvs[1..];
      assert [t] + others == tlvs;
      SuffixStep(b, pos, t, others, rest);
      ConsistentTail(tlvs);
      RecoverableCons(t, others, |rest|);
      ReadStep(b, |b| - |rest|, pos, t, EncodeAll(others) + rest);
      ReadWritten(b, pos + |Encode(t)|, others, rest);
    }
  }

  lemma NothingLeft(b: seq<byte>, pos: nat, rest: seq<byte>)
    requires pos <= |b| && b[pos..] == EncodeAll([]) + rest
    ensures ReadFrom(b, |b| - |rest|, pos) == Ok([])
    ensures AllRecoverable([], |rest|)
  {
    hide Decode;
    assert EncodeAll([]) == [];
  }

  lemma RecoverableCons(t: TLV, others: seq<TLV>, trailing: nat)
    ensures AllRecoverable([t] + others, trailing) <==>
            Recoverable(t, |EncodeAll(others)| + trailing) && AllRecoverable(others, trailing)
  {
    hide Recoverable, EncodeAll;
    assert ([t] + others)[1..] == others;
  }

  lemma ConsistentTail(tlvs: seq<TLV>)
    requires AllConsistent(tlvs) && tlvs != []
    ensures Consistent(tlvs[0]) && AllConsistent(tlvs[1..])
  {
    hide Consistent;
  }

  lemma SuffixStep(b: seq<byte>, pos: nat, t: TLV, others: seq<TLV>, rest: seq<byte>)
    requires pos <= |b| && b[pos..] == EncodeAll([t] + others) + rest
    ensures b[pos..] == Encode(t) + (EncodeAll(others) + rest)
    ensures pos + |Encode(t)| <= |b| && b[pos + |Encode(t)|..] == EncodeAll(others) + rest
  {
    EncodeAllCons(t, others);
    hide Encode, EncodeAll;
    Associative(Encode(t), EncodeAll(others), rest);
    assert b[pos + |Encode(t)|..] == b[pos..][|Encode(t)|..];
  }

  lemma EncodedLength(t: TLV)
    requires Consistent(t)
    ensures |Encode(t)| == HEAD_SIZE + t.head.lengthField
  {
  }
}
