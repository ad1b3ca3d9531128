/**
 PTP messages with a TLV suffix: Signaling, Announce, Sync and Delay_Req (ptp/protocol/protocol.go,
 ptp/protocol/unicast.go). The common header is section 13.3 of IEEE 1588-2019.
 */
module PtpPacket {
  import opened Words
  import opened PtpTlv
  import opened PtpBuffer

  const HEADER_SIZE: int := 34
  const MESSAGE_SIGNALING: int := 0xC

  datatype Header = Header(
    sdoIdAndMsgType: byte, version: byte, messageLength: uint16, domain: byte, minorSdoId: byte,
    flags: uint16, correction: int64, typeSpecific: uint32, clock: uint64, port: uint16,
    sequence: uint16, control: byte, logInterval: int8)

  datatype Body =
    | Signaling(targetClock: uint64, targetPort: uint16)
    | Announce(seconds: seconds48, nanoseconds: uint32, utcOffset: int16, reserved: byte,
               priority1: byte, clockClass: byte, clockAccuracy: byte, variance: uint16,
               priority2: byte, grandmaster: uint64, stepsRemoved: uint16, timeSource: byte)
    | SyncDelayReq(seconds: seconds48, nanoseconds: uint32)

  datatype Packet = Packet(header: Header, body: Body, tlvs: seq<TLV>)

  datatype Kind = KindSignaling | KindAnnounce | KindSync

  function KindOf(p: Packet): Kind {
    match p.body
    case Signaling(_, _) => KindSignaling
    case Announce(_, _, _, _, _, _, _, _, _, _, _, _) => KindAnnounce
    case SyncDelayReq(_, _) => KindSync
  }

  /** Header and body, the part before the TLVs. */
  function FixedSize(k: Kind): nat {
    if k == KindAnnounce then HEADER_SIZE + 30 else HEADER_SIZE + 10
  }

  // ----- bytes ------------------------------------------------------------------------------

  function Signed64(v: int64): (b: seq<byte>)
    ensures |b| == 8
  {
    RadixValues();
    BigEndian(ToUnsigned(v, 8), 8)
  }

  function Signed16(v: int16): (b: seq<byte>)
    ensures |b| == 2
  {
    RadixValues();
    BigEndian(ToUnsigned(v, 2), 2)
  }

  function EncodeHeader(h: Header): (b: seq<byte>)
    ensures |b| == HEADER_SIZE
  {
    [h.sdoIdAndMsgType, h.version] + BigEndian(h.messageLength, 2) + [h.domain, h.minorSdoId]
    + BigEndian(h.flags, 2) + Signed64(h.correction) + BigEndian(h.typeSpecific, 4)
    + BigEndian(h.clock, 8) + BigEndian(h.port, 2) + BigEndian(h.sequence, 2)
    + [h.control, Signed8(h.logInterval)]
  }

  function EncodeFixedBody(d: Body): seq<byte> {
    match d
    case Signaling(clock, port) => BigEndian(clock, 8) + BigEndian(port, 2)
    case Announce(s, ns, utc, res, p1, cls, acc, v, p2, gm, steps, src) =>
      s + BigEndian(ns, 4) + Signed16(utc) + [res, p1, cls, acc] + BigEndian(v, 2) + [p2]
      + BigEndian(gm, 8) + BigEndian(steps, 2) + [src]
    case SyncDelayReq(s, ns) => s + BigEndian(ns, 4)
  }

  function EncodeFixed(p: Packet): (b: seq<byte>)
    ensures |b| == FixedSize(KindOf(p))
  {
    EncodeHeader(p.header) + EncodeFixedBody(p.body)
  }

  function EncodePacket(p: Packet): seq<byte> {
    EncodeFixed(p) + EncodeAll(p.tlvs)
  }

  /** What goes on the wire: the message and the two bytes reserved for UDP checksum repair. */
  function WireBytes(p: Packet): seq<byte> {
    EncodePacket(p) + [0, 0]
  }

  // ----- decoding ---------------------------------------------------------------------------

  function Int64(b: seq<byte>, at: nat): int64
    requires at + 8 <= |b|
  {
    RadixValues();
    ToSigned(Uint64(b, at), 8)
  }

  function Int16(b: seq<byte>, at: nat): int16
    requires at + 2 <= |b|
  {
    RadixValues();
    ToSigned(Uint16(b, at), 2)
  }

  function DecodeHeader(b: seq<byte>): Header
    requires |b| >= HEADER_SIZE
  {
    Header(b[0], b[1], Uint16(b, 2), b[4], b[5], Uint16(b, 6), Int64(b, 8), Uint32(b, 16),
           Uint64(b, 20), Uint16(b, 28), Uint16(b, 30), b[32], Int8(b[33]))
  }

  function DecodeBody(k: Kind, b: seq<byte>): Body
    requires |b| >= FixedSize(k)
  {
    match k
    case KindSignaling => Signaling(Uint64(b, 34), Uint16(b, 42))
    case KindAnnounce =>
      Announce(b[34..40], Uint32(b, 40), Int16(b, 44), b[46], b[47], b[48], b[49], Uint16(b, 50),
               b[52], Uint64(b, 53), Uint16(b, 61), b[63])
    case KindSync => SyncDelayReq(b[34..40], Uint32(b, 40))
  }

  /** The least number of bytes a decoder accepts. */
  function MinSize(k: Kind): nat {
    if k == KindSignaling then HEADER_SIZE + 10 + HEAD_SIZE else FixedSize(k)
  }

  /** `UnmarshalBinary` of the three kinds of packet. */
  function DecodePacket(k: Kind, b: seq<byte>): Result<Packet> {
    if |b| < MinSize(k) then Err(ShortPacket)
    else
      var h := DecodeHeader(b);
      if h.messageLength > |b| then Err(BadMessageLength)
      else if k == KindSignaling && h.sdoIdAndMsgType % 16 != MESSAGE_SIGNALING then Err(WrongMessageType)
      else
        var pos := FixedSize(k);
        var tlvs := ReadFrom(b[pos..], h.messageLength - pos, 0);
        if tlvs.Err? then Err(tlvs.error)
        else if k == KindSignaling && tlvs.value == [] then Err(NoTLVs)
        else Ok(Packet(h, DecodeBody(k, b), tlvs.value))
  }

  // ----- round trip -------------------------------------------------------------------------

  lemma HeaderSlices(h: Header)
    ensures var e := EncodeHeader(h);
            && e[0] == h.sdoIdAndMsgType && e[1] == h.version && e[2..4] == BigEndian(h.messageLength, 2)
            && e[4] == h.domain && e[5] == h.minorSdoId && e[6..8] == BigEndian(h.flags, 2)
            && e[8..16] == Signed64(h.correction)
  {
    hide BigEndian, Signed64, Signed8;
  }

  lemma HeaderSlicesEnd(h: Header)
    ensures var e := EncodeHeader(h);
            && e[16..20] == BigEndian(h.typeSpecific, 4) && e[20..28] == BigEndian(h.clock, 8)
            && e[28..30] == BigEndian(h.port, 2) && e[30..32] == BigEndian(h.sequence, 2)
            && e[32] == h.control && e[33] == Signed8(h.logInterval)
  {
    hide BigEndian, Signed64, Signed8;
  }

  lemma Signed64RoundTrip(b: seq<byte>, e: seq<byte>, at: nat, v: int64)
    requires |e| <= |b| && b[..|e|] == e && at + 8 <= |e| && e[at..at + 8] == Signed64(v)
    ensures Int64(b, at) == v
  {
    RadixValues();
    SignedRoundTrip(v, 8);
    PrefixUint(b, e, at, ToUnsigned(v, 8), 8);
  }

  lemma Signed16RoundTrip(b: seq<byte>, e: seq<byte>, at: nat, v: int16)
    requires |e| <= |b| && b[..|e|] == e && at + 2 <= |e| && e[at..at + 2] == Signed16(v)
    ensures Int16(b, at) == v
  {
    RadixValues();
    SignedRoundTrip(v, 2);
    PrefixUint(b, e, at, ToUnsigned(v, 2), 2);
  }

  lemma HeaderRoundTrip(h: Header, b: seq<byte>)
    requires |b| >= HEADER_SIZE && b[..HEADER_SIZE] == EncodeHeader(h)
    ensures DecodeHeader(b) == h
  {
    var e := EncodeHeader(h);
    RadixValues();
    HeaderSlices(h);
    HeaderSlicesEnd(h);
    hide EncodeHeader, BigEndian, Signed64, Signed8, Int8;
    PrefixUint(b, e, 2, h.messageLength, 2);
    PrefixUint(b, e, 6, h.flags, 2);
    Signed64RoundTrip(b, e, 8, h.correction);
    PrefixUint(b, e, 16, h.typeSpecific, 4);
    PrefixUint(b, e, 20, h.clock, 8);
    PrefixUint(b, e, 28, h.port, 2);
    PrefixUint(b, e, 30, h.sequence, 2);
    Signed8RoundTrip(h.logInterval);
    hide Int64, Uint;
    assert forall i :: 0 <= i < HEADER_SIZE ==> b[i] == e[i] by {
      assert forall i :: 0 <= i < HEADER_SIZE ==> b[i] == b[..HEADER_SIZE][i];
    }
  }

  lemma AnnounceSlices(d: Body)
    requires d.Announce?
    ensures var e := EncodeFixedBody(d);
            && |e| == 30 && e[..6] == d.seconds && e[6..10] == BigEndian(d.nanoseconds, 4)
            && e[10..12] == Signed16(d.utcOffset) && e[12] == d.reserved && e[13] == d.priority1
            && e[14] == d.clockClass && e[15] == d.clockAccuracy && e[16..18] == BigEndian(d.variance, 2)
            && e[18] == d.priority2
  {
    hide BigEndian, Signed16;
  }

  lemma AnnounceSlicesEnd(d: Body)
    requires d.Announce?
    ensures var e := EncodeFixedBody(d);
            && |e| == 30 && e[19..27] == BigEndian(d.grandmaster, 8)
            && e[27..29] == BigEndian(d.stepsRemoved, 2) && e[29] == d.timeSource
  {
    hide BigEndian, Signed16;
  }

  /** The bodies of Signaling, Sync and Delay_Req follow the header at once. */
  lemma ShortBodySlices(p: Packet)
    requires !p.body.Announce?
    ensures var e := EncodeFixed(p);
            && |e| == 44 && e[..34] == EncodeHeader(p.header)
            && match p.body
               case Signaling(clock, port) => e[34..42] == BigEndian(clock, 8) && e[42..44] == BigEndian(port, 2)
               case SyncDelayReq(seconds, nanoseconds) => e[34..40] == seconds && e[40..44] == BigEndian(nanoseconds, 4)
               case _ => true
  {
    hide BigEndian, EncodeHeader;
    var e, h, d := EncodeFixed(p), EncodeHeader(p.header), EncodeFixedBody(p.body);
    assert e[34..] == d;
    if p.body.Signaling? {
      assert e[42..44] == e[42..] == d[8..];
    } else {
      assert e[40..44] == e[40..] == d[6..];
    }
  }

  /** What the first bytes must say for a packet to be read. */
  lemma ReadableOnly(k: Kind, b: seq<byte>)
    requires DecodePacket(k, b).Ok?
    ensures |b| >= (if k == KindSignaling then 48 else if k == KindAnnounce then 64 else 44)
    ensures 0x100 * (b[2] as int) + b[3] as int <= |b|
    ensures k == KindSignaling ==> b[0] % 16 == 12 && DecodePacket(k, b).value.tlvs != []
    ensures DecodePacket(k, b).value.header == DecodeHeader(b)
  {
    hide DecodeBody, ReadFrom, Int64, Uint32, Uint64, Int8;
    TwoBytes(b, 2);
  }

  lemma FixedSlice(p: Packet, at: nat, w: nat)
    requires at + w <= |EncodeFixedBody(p.body)|
    ensures EncodeFixed(p)[34 + at..34 + at + w] == EncodeFixedBody(p.body)[at..at + w]
  {
    hide EncodeHeader, EncodeFixedBody;
  }

  lemma FixedByte(p: Packet, at: nat)
    requires at < |EncodeFixedBody(p.body)|
    ensures EncodeFixed(p)[34 + at] == EncodeFixedBody(p.body)[at]
  {
    hide EncodeHeader, EncodeFixedBody;
  }

  lemma AnnounceBytes(p: Packet, b: seq<byte>)
    requires p.body.Announce? && |b| >= 64 && b[..64] == EncodeFixed(p)
    ensures var d := p.body;
            && b[46] == d.reserved && b[47] == d.priority1 && b[48] == d.clockClass
            && b[49] == d.clockAccuracy && b[52] == d.priority2 && b[63] == d.timeSource
  {
    AnnounceSlices(p.body);
    AnnounceSlicesEnd(p.body);
    FixedByte(p, 12);
    FixedByte(p, 13);
    FixedByte(p, 14);
    FixedByte(p, 15);
    FixedByte(p, 18);
    FixedByte(p, 29);
    hide EncodeFixed, EncodeFixedBody, BigEndian, Signed16;
    assert forall i :: 0 <= i < 64 ==> b[i] == b[..64][i];
  }

  lemma AnnounceWords(p: Packet, b: seq<byte>)
    requires p.body.Announce? && |b| >= 64 && b[..64] == EncodeFixed(p)
    ensures var d := p.body;
            && b[34..40] == d.seconds && Uint32(b, 40) == d.nanoseconds && Int16(b, 44) == d.utcOffset
            && Uint16(b, 50) == d.variance && Uint64(b, 53) == d.grandmaster && Uint16(b, 61) == d.stepsRemoved
  {
    var d, e := p.body, EncodeFixed(p);
    RadixValues();
    AnnounceSlices(d);
    AnnounceSlicesEnd(d);
    FixedSlice(p, 0, 6);
    FixedSlice(p, 6, 4);
    FixedSlice(p, 10, 2);
    FixedSlice(p, 16, 2);
    FixedSlice(p, 19, 8);
    FixedSlice(p, 27, 2);
    hide EncodeFixed, EncodeFixedBody, BigEndian, Signed16, Uint, Int16;
    PrefixUint(b, e, 40, d.nanoseconds, 4);
    Signed16RoundTrip(b, e, 44, d.utcOffset);
    PrefixUint(b, e, 50, d.variance, 2);
    PrefixUint(b, e, 53, d.grandmaster, 8);
    PrefixUint(b, e, 61, d.stepsRemoved, 2);
    SliceOfPrefix(b, 64, 34, 40);
  }

  lemma AnnounceRoundTrip(p: Packet, b: seq<byte>)
    requires p.body.Announce? && |b| >= 64 && b[..64] == EncodeFixed(p)
    ensures DecodeBody(KindAnnounce, b) == p.body
  {
    AnnounceBytes(p, b);
    AnnounceWords(p, b);
    hide EncodeFixed, Uint, Uint16, Uint32, Uint64, Int16;
  }

  lemma ShortBodyRoundTrip(p: Packet, b: seq<byte>)
    requires !p.body.Announce? && |b| >= 44 && b[..44] == EncodeFixed(p)
    ensures DecodeBody(KindOf(p), b) == p.body
  {
    var d, e := p.body, EncodeFixed(p);
    RadixValues();
    hide EncodeHeader, BigEndian, Uint;
    if d.Signaling? {
      assert e[34..42] == BigEndian(d.targetClock, 8) && e[42..44] == BigEndian(d.targetPort, 2);
      PrefixUint(b, e, 34, d.targetClock, 8);
      PrefixUint(b, e, 42, d.targetPort, 2);
    } else {
      assert e[34..40] == d.seconds && e[40..44] == BigEndian(d.nanoseconds, 4);
      PrefixUint(b, e, 40, d.nanoseconds, 4);
      SliceOfPrefix(b, 44, 34, 40);
    }
  }

  lemma FixedRoundTrip(p: Packet, b: seq<byte>)
    requires |b| >= FixedSize(KindOf(p)) && b[..FixedSize(KindOf(p))] == EncodeFixed(p)
    ensures DecodeHeader(b) == p.header && DecodeBody(KindOf(p), b) == p.body
  {
    var n := FixedSize(KindOf(p));
    assert b[..HEADER_SIZE] == b[..n][..HEADER_SIZE] == EncodeHeader(p.header) by {
      hide EncodeHeader, EncodeFixedBody;
    }
    HeaderRoundTrip(p.header, b);
    hide EncodeFixed, DecodeHeader, DecodeBody;
    if p.body.Announce? {
      AnnounceRoundTrip(p, b);
    } else {
      ShortBodyRoundTrip(p, b);
    }
  }

  /** The packets that survive a round trip, as a sender can tell before sending. */
  predicate SurvivesWire(p: Packet) {
    && AllRecoverable(p.tlvs, 2)
    && (p.body.Signaling? ==> p.tlvs != [] && p.header.sdoIdAndMsgType % 16 == MESSAGE_SIGNALING)
  }

  lemma WireSplit(p: Packet)
    ensures var b, n := WireBytes(p), FixedSize(KindOf(p));
            && |b| == n + |EncodeAll(p.tlvs)| + 2
            && b[..n] == EncodeFixed(p) && b[n..] == EncodeAll(p.tlvs) + [0, 0]
  {
    hide EncodeFixed, EncodeAll;
  }

  /** Decoding what was sent gives the packet back exactly when it survives the wire. */
  lemma PacketRoundTrip(p: Packet)
    requires AllConsistent(p.tlvs) && p.header.messageLength == |EncodePacket(p)|
    ensures DecodePacket(KindOf(p), WireBytes(p)) == Ok(p) <==> SurvivesWire(p)
  {
    var b, n := WireBytes(p), FixedSize(KindOf(p));
    WireSplit(p);
    FixedRoundTrip(p, b);
    ReadWritten(b[n..], 0, p.tlvs, [0, 0]);
    EmptyEncoding(p.tlvs);
    hide WireBytes, EncodeFixed, EncodeAll, ReadFrom, DecodeHeader, DecodeBody, AllRecoverable, AllConsistent;
    assert b[n..][0..] == b[n..];
  }

  /** A nonempty list takes at least a head; so a Signaling packet that is long enough has TLVs. */
  lemma {:induction false} EmptyEncoding(tlvs: seq<TLV>)
    ensures tlvs != [] ==> |EncodeAll(tlvs)| >= HEAD_SIZE
    ensures tlvs == [] ==> EncodeAll(tlvs) == []
  {
    hide Encode;
  }

  /** Path traces only at the end and display names of at least three bytes are enough. */
  lemma {:induction false} UsualSuffixSurvives(tlvs: seq<TLV>)
    requires forall i :: 0 <= i < |tlvs| && tlvs[i].PathTrace? ==> i == |tlvs| - 1 && tlvs[i].path != []
    requires forall i :: 0 <= i < |tlvs| && tlvs[i].AltTimeOffset? ==> |tlvs[i].name| >= 3
    ensures AllRecoverable(tlvs, 2)
  {
    if tlvs != [] {
      var others := tlvs[1..];
      assert forall i :: 0 <= i < |others| ==> others[i] == tlvs[i + 1];
      UsualSuffixSurvives(others);
      hide Encode;
      if tlvs[0].PathTrace? {
        assert others == [] && EncodeAll(others) == [];
      }
    }
  }

  // ----- the program ------------------------------------------------------------------------

  method MarshalHeader(h: Header, b: array<byte>) returns (n: nat)
    requires b.Length >= HEADER_SIZE
    modifies b
    ensures n == HEADER_SIZE && b[..] == Splice(old(b[..]), 0, EncodeHeader(h))
  {
    ghost var before := b[..];
    SpliceNothing(before, 0);
    hide Splice, BigEndian, Signed64, Signed8;
    ghost var s0: seq<byte> := [];
    ghost var s1 := s0 + [h.sdoIdAndMsgType, h.version];
    ghost var s2 := s1 + BigEndian(h.messageLength, 2);
    ghost var s3 := s2 + [h.domain, h.minorSdoId];
    ghost var s4 := s3 + BigEndian(h.flags, 2);
    ghost var s5 := s4 + Signed64(h.correction);
    ghost var s6 := s5 + BigEndian(h.typeSpecific, 4);
    ghost var s7 := s6 + BigEndian(h.clock, 8);
    ghost var s8 := s7 + BigEndian(h.port, 2);
    ghost var s9 := s8 + BigEndian(h.sequence, 2);
    ghost var s10 := s9 + [h.control, Signed8(h.logInterval)];
    assert s10 == EncodeHeader(h);
    n := Append(b, [h.sdoIdAndMsgType, h.version], before, 0, s0, 0);
    n := Append(b, BigEndian(h.messageLength, 2), before, 0, s1, n);
    n := Append(b, [h.domain, h.minorSdoId], before, 0, s2, n);
    n := Append(b, BigEndian(h.flags, 2), before, 0, s3, n);
    n := Append(b, Signed64(h.correction), before, 0, s4, n);
    n := Append(b, BigEndian(h.typeSpecific, 4), before, 0, s5, n);
    n := Append(b, BigEndian(h.clock, 8), before, 0, s6, n);
    n := Append(b, BigEndian(h.port, 2), before, 0, s7, n);
    n := Append(b, BigEndian(h.sequence, 2), before, 0, s8, n);
    n := Append(b, [h.control, Signed8(h.logInterval)], before, 0, s9, n);
  }

  /** What `MarshalBinaryTo` answers for a buffer of `size` bytes. */
  function MarshalOutcome(p: Packet, size: nat): Marshalled {
    var fixed := FixedSize(KindOf(p));
    if p.body.Signaling? && p.tlvs == [] then Err(Refused(NoTLVs))
    else if size < fixed then Err(if p.body.Signaling? then Panicked else Refused(ShortBuffer))
    else
      var r := StoreAll(p.tlvs, size - fixed);
      if r.Err? then r else Ok(fixed + r.value)
  }

  /** `MarshalBinaryTo` of the three packets, into a buffer of any size. */
  method MarshalPacketTo(p: Packet, b: array<byte>) returns (r: Marshalled)
    modifies b
    ensures r == MarshalOutcome(p, b.Length)
    ensures r.Ok? ==> r.value == |EncodePacket(p)| && b[..] == Splice(old(b[..]), 0, Cut(EncodePacket(p), b.Length))
  {
    hide EncodeHeader, EncodeFixedBody, EncodeAll, Splice, StoreAll, Cut;
    if p.body.Signaling? && |p.tlvs| == 0 {
      return Err(Refused(NoTLVs));
    }
    if b.Length < FixedSize(KindOf(p)) {
      return Err(if p.body.Signaling? then Panicked else Refused(ShortBuffer));
    }
    ghost var before := b[..];
    PacketLength(p);
    var n := MarshalHeader(p.header, b);
    var pos := Append(b, EncodeFixedBody(p.body), before, 0, EncodeHeader(p.header), n);
    var tlvLen := WriteTLVs(p.tlvs, b, pos);
    if tlvLen.Err? {
      return tlvLen;
    }
    ghost var tail := Cut(EncodeAll(p.tlvs), b.Length - pos);
    CutLength(EncodeAll(p.tlvs), b.Length - pos);
    SpliceAppend(before, 0, EncodeFixed(p), tail);
    CutAppend(EncodeFixed(p), EncodeAll(p.tlvs), b.Length);
    return Ok(pos + tlvLen.value);
  }

  /** `BytesTo`: the wire form in the caller's buffer, or a panic when the two extra bytes do not fit either. */
  method BytesTo(p: Packet, buf: array<byte>) returns (r: Marshalled)
    modifies buf
    ensures var m := MarshalOutcome(p, buf.Length);
            r == if m.Err? then m else if |WireBytes(p)| > buf.Length then Err(Panicked) else Ok(|WireBytes(p)|)
    ensures r.Ok? ==> buf[..] == Splice(old(buf[..]), 0, WireBytes(p))
  {
    hide EncodePacket, MarshalOutcome, Splice;
    ghost var before := buf[..];
    var n := MarshalPacketTo(p, buf);
    if n.Err? {
      return n;
    }
    if n.value + 2 > buf.Length {
      return Err(Panicked);
    }
    var end := Append(buf, [0, 0], before, 0, EncodePacket(p), n.value);
    return Ok(end);
  }

  /** The size of the buffer that `MarshalBinary` allocates. */
  function BufferSize(k: Kind): nat {
    if k == KindSync then 50 else 508
  }

  /** The part of the buffer that a packet needs. */
  function Extent(p: Packet): nat {
    FixedSize(KindOf(p)) + Reach(p.tlvs)
  }

  /**
   `Bytes` of any packet: its wire form, a refusal of Signaling without TLVs or of a name that is too
   long, or a panic, exactly when the packet needs more than the buffer has.
   */
  method Bytes(p: Packet) returns (r: Fallible<seq<byte>, Failure<Error>>)
    ensures p.body.Signaling? && p.tlvs == [] ==> r == Err(Refused(NoTLVs))
    ensures !(p.body.Signaling? && p.tlvs == []) ==>
              && (r == Err(Panicked) <==> Extent(p) > BufferSize(KindOf(p)))
              && (Extent(p) <= BufferSize(KindOf(p)) ==>
                    r == if AllEncodable(p.tlvs) then Ok(WireBytes(p)) else Err(Refused(TextTooLong)))
  {
    hide EncodePacket, AllEncodable, Reach, StoreAll, EncodeAll;
    var size := BufferSize(KindOf(p));
    var buf := new byte[size](_ => 0);
    StoreAllIff(p.tlvs, size - FixedSize(KindOf(p)));
    PacketLength(p);
    var n := MarshalPacketTo(p, buf);
    if n.Err? {
      return Err(n.error);
    }
    if n.value > size {
      return Err(Panicked);
    }
    assert buf[..n.value] == EncodePacket(p) by {
      hide MarshalOutcome;
      assert buf[..n.value] == buf[..][..n.value];
    }
    return Ok(buf[..n.value] + [0, 0]);
  }

  lemma PacketLength(p: Packet)
    ensures |EncodePacket(p)| == FixedSize(KindOf(p)) + |EncodeAll(p.tlvs)|
    ensures |EncodeHeader(p.header) + EncodeFixedBody(p.body)| == FixedSize(KindOf(p))
  {
  }

  /** How many bytes of TLVs there is room for: 6, 444 and 464. */
  lemma RoomForTLVs(p: Packet)
    requires AllEncodable(p.tlvs)
    ensures Extent(p) > BufferSize(KindOf(p)) <==>
            |EncodeAll(p.tlvs)| > (if p.body.SyncDelayReq? then 6 else if p.body.Announce? then 444 else 464)
  {
    StoreAllIff(p.tlvs, 0);
    hide Reach, EncodeAll, AllEncodable;
  }

  /** `UnmarshalBinary`, total on every buffer. */
  method UnmarshalPacket(k: Kind, b: array<byte>) returns (r: Result<Packet>)
    ensures r == DecodePacket(k, b[..])
  {
    hide DecodeHeader, DecodeBody, ReadFrom;
    if b.Length < MinSize(k) {
      return Err(ShortPacket);
    }
    var h := DecodeHeader(b[..]);
    if h.messageLength > b.Length {
      return Err(BadMessageLength);
    }
    if k == KindSignaling && h.sdoIdAndMsgType % 16 != MESSAGE_SIGNALING {
      return Err(WrongMessageType);
    }
    var d := DecodeBody(k, b[..]);
    var pos := FixedSize(k);
    assert b[..][pos..] == b[pos..];
    var tlvs := ReadTLVs(h.messageLength - pos, b[pos..]);
    if tlvs.Err? {
      return Err(tlvs.error);
    }
    if k == KindSignaling && |tlvs.value| == 0 {
      return Err(NoTLVs);
    }
    return Ok(Packet(h, d, tlvs.value));
  }
}
