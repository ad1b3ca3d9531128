/**
 The byte-buffer side of the TLV codec (ptp/protocol/tlvs.go): `MarshalBinaryTo`, `writeTLVs` and
 `readTLVs`. Every index is proved to be inside its buffer, or the write is a panic.
 */
module PtpBuffer {
  import opened Words
  import opened PtpTlv

  /** Copies `x` into the buffer at `pos`. */
  method Put(b: array<byte>, pos: nat, x: seq<byte>)
    requires pos + |x| <= b.Length
    modifies b
    ensures b[..] == Splice(old(b[..]), pos, x)
  {
    for i := 0 to |x|
      invariant forall k :: 0 <= k < b.Length && !(pos <= k < pos + i) ==> b[k] == old(b[k])
      invariant forall k :: 0 <= k < i ==> b[pos + k] == x[k]
    {
      b[pos + i] := x[i];
    }
    assert b[pos..pos + |x|] == x;
  }

  /** One write of a run of writes that started at `base` and has produced `done` so far. */
  method Append(b: array<byte>, x: seq<byte>, ghost before: seq<byte>, base: nat, ghost done: seq<byte>, pos: nat)
    returns (next: nat)
    requires |before| == b.Length && pos == base + |done| && pos + |x| <= b.Length
    requires b[..] == Splice(before, base, done)
    modifies b
    ensures next == base + |done + x|
    ensures b[..] == Splice(before, base, done + x)
  {
    Put(b, pos, x);
    SpliceAppend(before, base, done, x);
    next := pos + |x|;
  }

  /** `MarshalBinaryTo` of any TLV: its bytes, as far as there is room, and nothing else changes. */
  method MarshalTo(t: TLV, b: array<byte>, base: nat) returns (r: Marshalled)
    requires base <= b.Length
    modifies b
    ensures r == Store(t, b.Length - base)
    ensures r.Ok? ==> b[..] == Splice(old(b[..]), base, Cut(Encode(t), b.Length - base))
  {
    if b.Length - base < Need(t) {
      return Err(Panicked);
    }
    ghost var before := b[..];
    SpliceNothing(before, base);
    hide Splice, BigEndian;
    var n := Append(b, BigEndian(t.head.tlvType, 2), before, base, [], base);
    assert [] + BigEndian(t.head.tlvType, 2) == BigEndian(t.head.tlvType, 2);
    n := Append(b, BigEndian(t.head.lengthField, 2), before, base, BigEndian(t.head.tlvType, 2), n);
    if t.PathTrace? {
      n := MarshalPath(t.path, b, before, base, EncodeHead(t.head), n);
    } else if t.AltTimeOffset? {
      r := MarshalAltTimeOffset(t, b, before, base);
      return;
    } else {
      n := Append(b, EncodeBody(t), before, base, EncodeHead(t.head), n);
    }
    r := Ok(n - base);
  }

  method MarshalPath(path: seq<uint64>, b: array<byte>, ghost before: seq<byte>, base: nat,
                     ghost done: seq<byte>, pos: nat) returns (n: nat)
    requires |before| == b.Length && pos == base + |done| && pos + 8 * |path| <= b.Length
    requires b[..] == Splice(before, base, done)
    modifies b
    ensures n == base + |done + EncodePath(path)|
    ensures b[..] == Splice(before, base, done + EncodePath(path))
  {
    n := pos;
    assert done + EncodePath(path[..0]) == done;
    hide Splice, BigEndian;
    for i := 0 to |path|
      invariant n == pos + 8 * i
      invariant b[..] == Splice(before, base, done + EncodePath(path[..i]))
    {
      assert path[..i + 1][..i] == path[..i];
      Associative(done, EncodePath(path[..i]), BigEndian(path[i], 8));
      n := Append(b, BigEndian(path[i], 8), before, base, done + EncodePath(path[..i]), n);
    }
    assert path[..|path|] == path;
  }

  /** Two integers are stored, the last jump and the name are copied as far as there is room. */
  method MarshalAltTimeOffset(t: TLV, b: array<byte>, ghost before: seq<byte>, base: nat) returns (r: Marshalled)
    requires t.AltTimeOffset? && |before| == b.Length && base + Need(t) <= b.Length
    requires b[..] == Splice(before, base, EncodeHead(t.head))
    modifies b
    ensures r == Store(t, b.Length - base)
    ensures r.Ok? ==> b[..] == Splice(before, base, Cut(Encode(t), b.Length - base))
  {
    hide Splice, BigEndian, Signed32, EncodeText, EncodeHead, Cut, Encode, EncodeBody;
    ghost var head, room := EncodeHead(t.head), b.Length - base;
    ghost var s1 := head + [t.key];
    ghost var s2 := s1 + Signed32(t.currentOffset);
    ghost var s3 := s2 + Signed32(t.jumpSeconds);
    ghost var s4 := s3 + t.nextJump;
    AltTimeOffsetParts(t);
    var n := Append(b, [t.key], before, base, head, base + HEAD_SIZE);
    n := Append(b, Signed32(t.currentOffset), before, base, s1, n);
    n := Append(b, Signed32(t.jumpSeconds), before, base, s2, n);
    if |t.name| > 255 {
      return Err(Refused(TextTooLong));
    }
    CutAppend(s3, t.nextJump, room);
    n := AppendCut(b, t.nextJump, before, base, s3, n);
    if t.name != [] {
      CutAppend(s4, EncodeText(t.name), room);
      n := AppendCut(b, EncodeText(t.name), before, base, s4, n);
    }
    r := Ok(n - base);
  }

  lemma AltTimeOffsetParts(t: TLV)
    requires t.AltTimeOffset?
    ensures var s := EncodeHead(t.head) + [t.key] + Signed32(t.currentOffset) + Signed32(t.jumpSeconds) + t.nextJump;
            Encode(t) == if t.name == [] then s else s + EncodeText(t.name)
  {
    hide BigEndian, Signed32, EncodeText, EncodeHead;
  }

  /** `copy` into the rest of the buffer; the position moves on by the whole length. */
  method AppendCut(b: array<byte>, x: seq<byte>, ghost before: seq<byte>, base: nat, ghost done: seq<byte>, pos: nat)
    returns (next: nat)
    requires |before| == b.Length && pos == base + |done| <= b.Length
    requires b[..] == Splice(before, base, done)
    modifies b
    ensures next == base + |done + x|
    ensures b[..] == Splice(before, base, done + Cut(x, b.Length - pos))
    ensures pos + |x| <= b.Length ==> Cut(x, b.Length - pos) == x
  {
    next := Append(b, Cut(x, b.Length - pos), before, base, done, pos);
    next := pos + |x|;
  }

  /** `writeTLVs`: the whole list one after the other, or the first TLV that is refused or panics. */
  method WriteTLVs(tlvs: seq<TLV>, b: array<byte>, base: nat) returns (r: Marshalled)
    requires base <= b.Length
    modifies b
    ensures r == StoreAll(tlvs, b.Length - base)
    ensures r.Ok? ==> r.value == |EncodeAll(tlvs)|
    ensures r.Ok? ==> b[..] == Splice(old(b[..]), base, Cut(EncodeAll(tlvs), b.Length - base))
  {
    hide *;
    var pos := 0;
    ghost var before, room := b[..], b.Length - base;
    ghost var done: seq<byte> := [];
    NothingStored(room);
    SpliceNothing(before, base);
    assert tlvs[..0] == [];
    var i := 0;
    while i < |tlvs|
      invariant 0 <= i <= |tlvs| && StoreAll(tlvs[..i], room) == Ok(pos)
      invariant done == EncodeAll(tlvs[..i]) && pos == |done| && |Cut(done, room)| <= room
      invariant b[..] == Splice(before, base, Cut(done, room))
    {
      StoreNext(tlvs, i, room);
      if base + pos > b.Length {
        return Err(Panicked);
      }
      ghost var more := Encode(tlvs[i]);
      CutWhole(done, room);
      CutAppend(done, more, room);
      CutLength(more, room - pos);
      CutLength(done + more, room);
      var nn := MarshalTo(tlvs[i], b, base + pos);
      if nn.Err? {
        return nn;
      }
      SpliceAppend(before, base, done, Cut(more, room - pos));
      done := done + more;
      pos := pos + nn.value;
      i := i + 1;
    }
    assert tlvs[..|tlvs|] == tlvs;
    return Ok(pos);
  }

  lemma NothingStored(room: nat)
    ensures StoreAll([], room) == Ok(0) && EncodeAll([]) == [] && Cut<byte>([], room) == []
  {
  }

  lemma CutWhole<T>(s: seq<T>, n: nat)
    ensures |s| <= n ==> Cut(s, n) == s
  {
  }

  lemma CutLength<T>(s: seq<T>, n: nat)
    ensures |Cut(s, n)| <= n
  {
  }

  /** One turn of the writer, and that a failure is final. */
  lemma StoreNext(tlvs: seq<TLV>, i: nat, room: nat)
    requires i < |tlvs| && StoreAll(tlvs[..i], room).Ok?
    ensures var pos := StoreAll(tlvs[..i], room).value;
            && EncodeAll(tlvs[..i + 1]) == EncodeAll(tlvs[..i]) + Encode(tlvs[i])
            && (pos > room ==> StoreAll(tlvs, room) == Err(Panicked))
            && (pos <= room ==>
                  var one := Store(tlvs[i], room - pos);
                  if one.Err? then StoreAll(tlvs, room) == one
                  else one.value == |Encode(tlvs[i])| && StoreAll(tlvs[..i + 1], room) == Ok(pos + one.value))
  {
    hide Store, Encode, StoreAll, EncodeAll;
    var longer := tlvs[..i + 1];
    assert longer[..i] == tlvs[..i] && longer[i] == tlvs[i];
    StoreLast(longer, room);
    EncodeAllLast(longer);
    if StoreAll(longer, room).Err? {
      FailureStays(tlvs, i + 1, room);
    }
  }

  lemma StoreLast(tlvs: seq<TLV>, room: nat)
    requires tlvs != []
    ensures var front, t := StoreAll(tlvs[..|tlvs| - 1], room), tlvs[|tlvs| - 1];
            StoreAll(tlvs, room) ==
            if front.Err? then front
            else if front.value > room then Err(Panicked)
            else (var one := Store(t, room - front.value); if one.Err? then one else Ok(front.value + one.value))
    ensures forall k: nat, t: TLV :: Store(t, k).Ok? ==> Store(t, k).value == |Encode(t)|
  {
    hide Encode, Need, Encodable;
  }

  lemma {:induction false} FailureStays(tlvs: seq<TLV>, i: nat, room: nat)
    requires i <= |tlvs| && StoreAll(tlvs[..i], room).Err?
    ensures StoreAll(tlvs, room) == StoreAll(tlvs[..i], room)
    decreases |tlvs|
  {
    hide Store;
    if i == |tlvs| {
      assert tlvs[..i] == tlvs;
    } else {
      var front := tlvs[..|tlvs| - 1];
      assert front[..i] == tlvs[..i];
      FailureStays(front, i, room);
    }
  }

  lemma SpliceNothing<T>(s: seq<T>, pos: nat)
    requires pos <= |s|
    ensures Splice(s, pos, []) == s
  {
  }

  // ----- reading ----------------------------------------------------------------------------

  /** The loop of `PathTraceTLV.UnmarshalBinary`. */
  method UnmarshalPath(length: uint16, b: seq<byte>) returns (path: seq<uint64>)
    requires HEAD_SIZE + length <= |b|
    ensures HEAD_SIZE + 8 * PathCount(length, |b|, 0) <= |b|
    ensures path == DecodePath(b, PathCount(length, |b|, 0))
  {
    path := [];
    PathCountFits(length, |b|, 0);
    var i := 0;
    while 8 * i <= length
      invariant HEAD_SIZE + 8 * i <= |b|
      invariant path == DecodePath(b, i)
      invariant PathCount(length, |b|, 0) == i + PathCount(length, |b|, i)
      decreases length - 8 * i
    {
      var pos := HEAD_SIZE + 8 * i;
      if pos + 8 >= |b| {
        break;
      }
      path := path + [Uint64(b, pos)];
      i := i + 1;
    }
  }

  method Unmarshal(b: seq<byte>) returns (r: Result<TLV>)
    requires |b| >= HEAD_SIZE
    ensures r == Decode(b)
  {
    var h := DecodeHead(b);
    if h.tlvType == PATH_TRACE {
      var ok := CheckLength(h, |b|, 8, false);
      if ok.Err? {
        return Err(ok.error);
      }
      var path := UnmarshalPath(h.lengthField, b);
      return Ok(PathTrace(h, path));
    }
    return Decode(b);
  }

  lemma ReadEnd(s: seq<byte>, maxLength: int, pos: nat)
    requires pos <= |s| && maxLength <= |s| && maxLength < pos + HEAD_SIZE
    ensures ReadFrom(s, maxLength, pos) == Ok([])
  {
    hide Decode;
  }

  /** `readTLVs` is total on every buffer: it never reads past it and always advances. */
  method ReadTLVs(maxLength: int, b: seq<byte>) returns (r: Result<seq<TLV>>)
    requires maxLength <= |b|
    ensures r == ReadFrom(b, maxLength, 0)
  {
    var tlvs: seq<TLV> := [];
    var pos := 0;
    hide Decode, ReadFrom, Prepend;
    PrependNothing(ReadFrom(b, maxLength, 0));
    while pos + HEAD_SIZE <= maxLength
      invariant pos <= |b|
      invariant ReadFrom(b, maxLength, 0) == Prepend(tlvs, ReadFrom(b, maxLength, pos))
      decreases |b| - pos
    {
      ReadTurn(b, maxLength, pos);
      var tlv := Unmarshal(b[pos..]);
      if tlv.Err? {
        PrependDone(tlvs, tlv.error);
        return Err(tlv.error);
      }
      PrependOne(tlvs, tlv.value, ReadFrom(b, maxLength, pos + HEAD_SIZE + tlv.value.head.lengthField));
      tlvs := tlvs + [tlv.value];
      pos := pos + HEAD_SIZE + tlv.value.head.lengthField;
    }
    ReadEnd(b, maxLength, pos);
    PrependDone(tlvs, Unsupported);
    return Ok(tlvs);
  }
}
