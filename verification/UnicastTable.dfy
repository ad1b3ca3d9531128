/**
 The unicast master table that ptp4l exports (ptp/protocol/ptp4l.go, ptp/protocol/management_tlvs.go,
 ptp/protocol/types.go): entries of different sizes, since an address has 4 or 16 bytes.
 */
module UnicastTable {
  import opened Words

  datatype Error = ShortTable | ShortEntry | ShortAddress | BadSelected | BadProtocol | BadAddressLength

  type Result<+T> = Fallible<T, Failure<Error>>

  datatype Entry = Entry(
    clock: uint64, port: uint16, clockClass: byte, clockAccuracy: byte, variance: uint16,
    selected: bool, portState: byte, priority1: byte, priority2: byte, address: seq<byte>)

  datatype ManagementHead = ManagementHead(tlvType: uint16, lengthField: uint16, managementId: uint16)

  datatype Table = Table(head: ManagementHead, actualSize: uint16, masters: seq<Entry>)

  const UDP_IPV4: uint16 := 1
  const UDP_IPV6: uint16 := 2

  predicate IsMapped(a: seq<byte>) {
    |a| == 16 && (forall i :: 0 <= i < 10 ==> a[i] == 0) && a[10] == 0xFF && a[11] == 0xFF
  }

  /** `net.IP.To4`: the four-byte form of an IPv4 address, also of one written as IPv4-mapped IPv6. */
  function To4(a: seq<byte>): Option<seq<byte>> {
    if |a| == 4 then Some(a) else if IsMapped(a) then Some(a[12..]) else None
  }

  predicate IsIP(a: seq<byte>) {
    |a| == 4 || |a| == 16
  }

  function EncodeAddress(a: seq<byte>): (b: seq<byte>)
    ensures |b| >= 4
  {
    var v4 := To4(a);
    if v4.Some? then BigEndian(UDP_IPV4, 2) + BigEndian(4, 2) + v4.value
    else BigEndian(UDP_IPV6, 2) + BigEndian(16, 2) + a
  }

  function EncodeFields(e: Entry): (b: seq<byte>)
    ensures |b| == 18
  {
    BigEndian(e.clock, 8) + BigEndian(e.port, 2) + [e.clockClass, e.clockAccuracy] + BigEndian(e.variance, 2)
    + [if e.selected then 1 else 0, e.portState, e.priority1, e.priority2]
  }

  function EncodeEntry(e: Entry): seq<byte> {
    EncodeFields(e) + EncodeAddress(e.address)
  }

  function EncodeEntries(es: seq<Entry>): seq<byte> {
    if es == [] then [] else EncodeEntries(es[..|es| - 1]) + EncodeEntry(es[|es| - 1])
  }

  function EncodeHead(t: Table): (b: seq<byte>)
    ensures |b| == 8
  {
    BigEndian(t.head.tlvType, 2) + BigEndian(t.head.lengthField, 2) + BigEndian(t.head.managementId, 2)
    + BigEndian(t.actualSize, 2)
  }

  function Encode(t: Table): seq<byte> {
    EncodeHead(t) + EncodeEntries(t.masters)
  }

  // ----- decoding ---------------------------------------------------------------------------

  /** Protocol, length and bytes; `4+p.AddressLength` is computed on sixteen bits and may end up below 4. */
  function DecodeAddress(b: seq<byte>): (r: Result<seq<byte>>)
    ensures r.Ok? ==> IsIP(r.value) && 4 + |r.value| <= |b|
  {
    if |b| < 8 then Err(Refused(ShortAddress))
    else
      var protocol, length := Uint16(b, 0), Uint16(b, 2);
      if |b| < 4 + length then Err(Refused(ShortAddress))
      else if (4 + length as int) % 0x1_0000 < 4 then Err(Panicked)
      else if protocol != UDP_IPV4 && protocol != UDP_IPV6 then Err(Refused(BadProtocol))
      else if protocol == UDP_IPV4 && length != 4 then Err(Refused(BadAddressLength))
      else if protocol == UDP_IPV6 && length != 16 then Err(Refused(BadAddressLength))
      else Ok(b[4..4 + length])
  }

  function DecodeEntry(b: seq<byte>): (r: Result<Entry>)
    ensures r.Ok? ==> IsIP(r.value.address) && 22 + |r.value.address| <= |b|
  {
    if |b| < 26 then Err(Refused(ShortEntry))
    else if b[14] > 1 then Err(Refused(BadSelected))
    else
      var a := DecodeAddress(b[18..]);
      if a.Err? then Err(a.error)
      else Ok(Entry(Uint64(b, 0), Uint16(b, 8), b[10], b[11], Uint16(b, 12),
                    b[14] == 1, b[15], b[16], b[17], a.value))
  }

  /** `k` entries, one after the other, from offset `n` on. */
  function DecodeEntries(data: seq<byte>, n: nat, k: nat): Result<seq<Entry>>
    requires n <= |data|
    decreases k
  {
    if k == 0 then Ok([])
    else
      var first := DecodeEntry(data[n..]);
      if first.Err? then Err(first.error)
      else
        var rest := DecodeEntries(data, n + 22 + |first.value.address|, k - 1);
        if rest.Err? then rest else Ok([first.value] + rest.value)
  }

  function Decode(data: seq<byte>): Result<Table> {
    if |data| < 8 then Err(Refused(ShortTable))
    else
      var head := ManagementHead(Uint16(data, 0), Uint16(data, 2), Uint16(data, 4));
      var size := Uint16(data, 6);
      var es := DecodeEntries(data, 8, size);
      if es.Err? then Err(es.error) else Ok(Table(head, size, es.value))
  }

  /** The decoder of UNICAST_MASTER_TABLE_NP: an offset that moves by the size of each entry. */
  method DecodeTable(data: seq<byte>) returns (r: Result<Table>)
    ensures r == Decode(data)
  {
    hide DecodeEntry;
    if |data| < 8 {
      return Err(Refused(ShortTable));
    }
    var head := ManagementHead(Uint16(data, 0), Uint16(data, 2), Uint16(data, 4));
    var size := Uint16(data, 6);
    var masters: seq<Entry> := [];
    var n := 8;
    PrependNothing(DecodeEntries(data, 8, size));
    for i := 0 to size
      invariant 0 <= n <= |data|
      invariant DecodeEntries(data, 8, size) == Prepend(masters, DecodeEntries(data, n, size - i))
    {
      var entry := DecodeEntry(data[n..]);
      if entry.Err? {
        return Err(entry.error);
      }
      PrependOne(masters, entry.value, DecodeEntries(data, n + 22 + |entry.value.address|, size - i - 1));
      masters := masters + [entry.value];
      n := n + 22 + |entry.value.address|;
    }
    assert masters + [] == masters;
    return Ok(Table(head, size, masters));
  }

  // ----- when the decoder panics ------------------------------------------------------------

  const PANIC_SIZE: int := 65562

  lemma EntryPanics(b: seq<byte>)
    requires DecodeEntry(b) == Err(Panicked)
    ensures |b| >= PANIC_SIZE - 8
  {
    hide Uint;
  }

  lemma {:induction false} EntriesPanic(data: seq<byte>, n: nat, k: nat)
    requires n <= |data| && DecodeEntries(data, n, k) == Err(Panicked)
    ensures |data| >= n + PANIC_SIZE - 8
    decreases k
  {
    hide DecodeEntry;
    var first := DecodeEntry(data[n..]);
    if first.Err? {
      EntryPanics(data[n..]);
    } else {
      EntriesPanic(data, n + 22 + |first.value.address|, k - 1);
    }
  }

  /** One entry whose address claims 65532 bytes, in a buffer of `size` bytes. */
  function Oversized(size: nat): seq<byte> {
    seq(size, i => if i == 7 then 1 else if i == 28 then 0xFF else if i == 29 then 0xFC else 0)
  }

  lemma OversizedPanics(size: nat)
    requires size >= PANIC_SIZE
    ensures Decode(Oversized(size)) == Err(Panicked)
  {
    var data := Oversized(size);
    var entry := data[8..];
    TwoBytes(data, 6);
    TwoBytes(entry[18..], 2);
    assert entry[14] == data[22];
    assert entry[18..][2] == data[28] && entry[18..][3] == data[29];
    hide Uint16;
    assert DecodeEntry(entry) == Err(Panicked);
    hide DecodeEntry;
    assert DecodeEntries(data, 8, 1) == Err(Panicked);
  }

  /** Some input of a given length makes the decoder panic if and only if the length is at least 65562. */
  lemma PanicIff(size: nat)
    ensures (exists data: seq<byte> :: |data| == size && Decode(data) == Err(Panicked)) <==> size >= PANIC_SIZE
  {
    if size >= PANIC_SIZE {
      OversizedPanics(size);
      hide Decode;
      assert |Oversized(size)| == size && Decode(Oversized(size)) == Err(Panicked);
    } else {
      forall data: seq<byte> | |data| == size
        ensures Decode(data) != Err(Panicked)
      {
        NoPanic(data);
      }
    }
  }

  lemma NoPanic(data: seq<byte>)
    requires |data| < PANIC_SIZE
    ensures Decode(data) != Err(Panicked)
  {
    hide DecodeEntries, Uint16;
    if |data| >= 8 && DecodeEntries(data, 8, Uint16(data, 6)) == Err(Panicked) {
      EntriesPanic(data, 8, Uint16(data, 6));
    }
  }

  // ----- encoding ---------------------------------------------------------------------------

  /** The encoder's loop: each entry's bytes appended to the buffer. */
  method EncodeTable(t: Table) returns (b: seq<byte>)
    ensures b == Encode(t)
  {
    b := EncodeHead(t);
    hide EncodeEntry, EncodeHead;
    for i := 0 to |t.masters|
      invariant b == EncodeHead(t) + EncodeEntries(t.masters[..i])
    {
      assert t.masters[..i + 1][..i] == t.masters[..i];
      Associative(EncodeHead(t), EncodeEntries(t.masters[..i]), EncodeEntry(t.masters[i]));
      b := b + EncodeEntry(t.masters[i]);
    }
    assert t.masters[..|t.masters|] == t.masters;
  }

  // ----- round trip -------------------------------------------------------------------------

  /** What comes back: an IPv4-mapped address in its short form, everything else unchanged. */
  function Normalized(e: Entry): Entry {
    var v4 := To4(e.address);
    if v4.Some? then e.(address := v4.value) else e
  }

  function NormalizedAll(es: seq<Entry>): (r: seq<Entry>)
    ensures |r| == |es| && forall i :: 0 <= i < |es| ==> r[i] == Normalized(es[i])
  {
    seq(|es|, i requires 0 <= i < |es| => Normalized(es[i]))
  }

  predicate AllIP(es: seq<Entry>) {
    forall i :: 0 <= i < |es| ==> IsIP(es[i].address)
  }

  /** The address in absolute bytes: network protocol 1 or 2, length 4 or 16, and the address. */
  lemma AddressWire(a: seq<byte>)
    requires IsIP(a)
    ensures |a| == 4 ==> EncodeAddress(a) == [0, 1, 0, 4] + a
    ensures |a| == 16 && IsMapped(a) ==> EncodeAddress(a) == [0, 1, 0, 4] + a[12..]
    ensures |a| == 16 && !IsMapped(a) ==> EncodeAddress(a) == [0, 2, 0, 16] + a
  {
    SmallPair(UDP_IPV4);
    SmallPair(UDP_IPV6);
    SmallPair(4);
    SmallPair(16);
    hide BigEndian, IsMapped;
  }

  lemma SmallPair(v: byte)
    ensures BigEndian(v, 2) == [0, v]
  {
    assert BigEndian(v / 0x100, 1) == BigEndian(v / 0x100 / 0x100, 0) + [v / 0x100 % 0x100] == [0];
  }

  /** The addresses that are shortened: ten zero bytes, two bytes 0xFF, and the IPv4 address. */
  lemma MappedIs(a: seq<byte>)
    requires |a| == 16
    ensures IsMapped(a) <==> a[..12] == [0, 0, 0, 0, 0, 0, 0, 0, 0, 0, 0xFF, 0xFF]
  {
    var m, head := [0, 0, 0, 0, 0, 0, 0, 0, 0, 0, 0xFF, 0xFF], a[..12];
    assert forall i :: 0 <= i < 12 ==> head[i] == a[i];
    assert forall i :: 0 <= i < 10 ==> m[i] == 0;
    assert IsMapped(a) ==> forall i :: 0 <= i < 12 ==> head[i] == m[i];
    assert head == m ==> forall i :: 0 <= i < 10 ==> a[i] == head[i] == 0;
  }

  /** The bytes that are accepted as an entry, exactly. */
  lemma EntryAcceptedIff(b: seq<byte>)
    ensures DecodeEntry(b).Ok? <==>
              && |b| >= 26 && b[14] <= 1
              && (b[18..22] == [0, 1, 0, 4] || (|b| >= 38 && b[18..22] == [0, 2, 0, 16]))
  {
    if |b| >= 26 {
      TwoBytes(b[18..], 0);
      TwoBytes(b[18..], 2);
      hide Uint16, Uint64;
      var a := b[18..];
      assert b[18..22] == [a[0], a[1], a[2], a[3]];
    }
  }

  lemma AddressRoundTrip(a: seq<byte>, rest: seq<byte>)
    requires IsIP(a)
    ensures DecodeAddress(EncodeAddress(a) + rest) == Ok(if To4(a).Some? then To4(a).value else a)
    ensures |EncodeAddress(a)| == 4 + if To4(a).Some? then 4 else 16
  {
    var payload := if To4(a).Some? then To4(a).value else a;
    var protocol, length := if To4(a).Some? then UDP_IPV4 else UDP_IPV6, |payload|;
    var b := EncodeAddress(a) + rest;
    RadixValues();
    hide BigEndian, To4;
    assert b[0..2] == BigEndian(protocol, 2) && b[2..4] == BigEndian(length, 2);
    assert b[4..4 + length] == payload;
    UintOfSlice(b, 0, protocol, 2);
    UintOfSlice(b, 2, length, 2);
  }

  lemma FieldSlices(e: Entry)
    ensures var f := EncodeFields(e);
            && f[0..8] == BigEndian(e.clock, 8) && f[8..10] == BigEndian(e.port, 2) && f[10] == e.clockClass
            && f[11] == e.clockAccuracy && f[12..14] == BigEndian(e.variance, 2)
            && f[14] == (if e.selected then 1 else 0) && f[15] == e.portState && f[16] == e.priority1 && f[17] == e.priority2
  {
    hide BigEndian;
  }

  lemma EntrySplit(e: Entry, rest: seq<byte>)
    ensures var b := EncodeEntry(e) + rest;
            && |b| >= 18 && b[..18] == EncodeFields(e) && b[18..] == EncodeAddress(e.address) + rest
  {
    hide EncodeFields, EncodeAddress;
    Associative(EncodeFields(e), EncodeAddress(e.address), rest);
  }

  lemma EntryRoundTrip(e: Entry, rest: seq<byte>)
    requires IsIP(e.address)
    ensures DecodeEntry(EncodeEntry(e) + rest) == Ok(Normalized(e))
    ensures |EncodeEntry(e)| == 22 + |Normalized(e).address|
  {
    var b, f := EncodeEntry(e) + rest, EncodeFields(e);
    EntrySplit(e, rest);
    AddressRoundTrip(e.address, rest);
    FieldSlices(e);
    RadixValues();
    hide EncodeFields, EncodeAddress, DecodeAddress, BigEndian, Uint;
    PrefixUint(b, f, 0, e.clock, 8);
    PrefixUint(b, f, 8, e.port, 2);
    PrefixUint(b, f, 12, e.variance, 2);
    assert forall i :: 0 <= i < 18 ==> b[i] == b[..18][i];
  }

  lemma EncodeEntriesSnoc(es: seq<Entry>, e: Entry)
    ensures EncodeEntries(es + [e]) == EncodeEntries(es) + EncodeEntry(e)
  {
    hide EncodeEntry;
    assert (es + [e])[..|es|] == es;
  }

  lemma NoEntries()
    ensures EncodeEntries([]) == [] && NormalizedAll([]) == []
  {
  }

  lemma {:induction false} EncodeEntriesCons(e: Entry, es: seq<Entry>)
    ensures EncodeEntries([e] + es) == EncodeEntry(e) + EncodeEntries(es)
  {
    hide *;
    if es == [] {
      NoEntries();
      EncodeEntriesSnoc([], e);
      assert [] + [e] == [e] + es;
    } else {
      var front, last := es[..|es| - 1], es[|es| - 1];
      EncodeEntriesCons(e, front);
      EncodeEntriesSnoc([e] + front, last);
      EncodeEntriesSnoc(front, last);
      assert front + [last] == es;
      assert ([e] + front) + [last] == [e] + es;
      Associative(EncodeEntry(e), EncodeEntries(front), EncodeEntry(last));
    }
  }

  /** One turn of the decoder on a written entry. */
  lemma DecodeTurn(data: seq<byte>, n: nat, k: nat, e: Entry, tail: seq<byte>)
    requires k > 0 && n <= |data| && IsIP(e.address) && data[n..] == EncodeEntry(e) + tail
    ensures n + |EncodeEntry(e)| <= |data| && data[n + |EncodeEntry(e)|..] == tail
    ensures DecodeEntries(data, n, k) == Prepend([Normalized(e)], DecodeEntries(data, n + |EncodeEntry(e)|, k - 1))
  {
    EntryRoundTrip(e, tail);
    hide EncodeEntry, DecodeEntry, Normalized, IsIP;
    AfterPrefix(data, n, EncodeEntry(e), tail);
  }

  /** The walk finds every entry in order, and fails when it is asked for more than there are. */
  lemma {:induction false} WalkEntries(data: seq<byte>, n: nat, k: nat, es: seq<Entry>, rest: seq<byte>)
    requires AllIP(es) && n <= |data| && data[n..] == EncodeEntries(es) + rest
    ensures k <= |es| ==> DecodeEntries(data, n, k) == Ok(NormalizedAll(es[..k]))
    ensures k > |es| && |rest| < 26 ==> DecodeEntries(data, n, k).Err?
    decreases k
  {
    hide *;
    if k == 0 || es == [] {
      WalkEnd(data, n, k, es, rest);
    } else {
      var e, others := es[0], es[1..];
      assert [e] + others == es;
      IPTail(es);
      EncodeEntriesCons(e, others);
      Associative(EncodeEntry(e), EncodeEntries(others), rest);
      DecodeTurn(data, n, k, e, EncodeEntries(others) + rest);
      WalkEntries(data, n + |EncodeEntry(e)|, k - 1, others, rest);
      NormalizedCons(es, k);
    }
  }

  lemma WalkEnd(data: seq<byte>, n: nat, k: nat, es: seq<Entry>, rest: seq<byte>)
    requires n <= |data| && data[n..] == EncodeEntries(es) + rest && (k == 0 || es == [])
    ensures k == 0 ==> DecodeEntries(data, n, k) == Ok(NormalizedAll(es[..0]))
    ensures k > 0 && |rest| < 26 ==> DecodeEntries(data, n, k).Err?
  {
    hide EncodeEntry, DecodeAddress;
    assert es[..0] == [];
    NoEntries();
  }

  lemma IPTail(es: seq<Entry>)
    requires AllIP(es) && es != []
    ensures IsIP(es[0].address) && AllIP(es[1..])
  {
  }

  lemma NormalizedCons(es: seq<Entry>, k: nat)
    requires es != [] && k > 0
    ensures k <= |es| ==>
              Prepend<Entry, Failure<Error>>([Normalized(es[0])], Ok(NormalizedAll(es[1..][..k - 1]))) == Ok(NormalizedAll(es[..k]))
    ensures forall r: Result<seq<Entry>> :: r.Err? ==> Prepend([Normalized(es[0])], r).Err?
  {
    hide Normalized;
    if k <= |es| {
      assert [Normalized(es[0])] + NormalizedAll(es[1..][..k - 1]) == NormalizedAll(es[..k]);
    }
  }

  lemma HeadRoundTrip(t: Table, data: seq<byte>)
    requires |data| >= 8 && data[..8] == EncodeHead(t)
    ensures t.head == ManagementHead(Uint16(data, 0), Uint16(data, 2), Uint16(data, 4))
    ensures Uint16(data, 6) == t.actualSize
  {
    var h := EncodeHead(t);
    RadixValues();
    hide BigEndian, Uint;
    assert h[0..2] == BigEndian(t.head.tlvType, 2) && h[2..4] == BigEndian(t.head.lengthField, 2);
    assert h[4..6] == BigEndian(t.head.managementId, 2) && h[6..] == BigEndian(t.actualSize, 2);
    assert h[6..8] == h[6..];
    PrefixUint(data, h, 0, t.head.tlvType, 2);
    PrefixUint(data, h, 2, t.head.lengthField, 2);
    PrefixUint(data, h, 4, t.head.managementId, 2);
    PrefixUint(data, h, 6, t.actualSize, 2);
  }

  /**
   Decoding a written table, with anything after it: the first `actualSize` entries in order, in
   normal form; an error when the table claims more entries than it has.
   */
  lemma TableRoundTrip(t: Table, rest: seq<byte>)
    requires AllIP(t.masters)
    ensures t.actualSize <= |t.masters| ==>
              Decode(Encode(t) + rest) == Ok(t.(masters := NormalizedAll(t.masters[..t.actualSize])))
    ensures t.actualSize > |t.masters| && |rest| < 26 ==> Decode(Encode(t) + rest).Err?
  {
    var data := Encode(t) + rest;
    Associative(EncodeHead(t), EncodeEntries(t.masters), rest);
    hide EncodeHead, EncodeEntries, DecodeEntries;
    assert data[..8] == EncodeHead(t) && data[8..] == EncodeEntries(t.masters) + rest;
    HeadRoundTrip(t, data);
    WalkEntries(data, 8, t.actualSize, t.masters, rest);
  }

  /** A table comes back exactly as it was when its size is right and no address is IPv4-mapped. */
  lemma ExactRoundTrip(t: Table, rest: seq<byte>)
    requires AllIP(t.masters) && t.actualSize == |t.masters|
    ensures Decode(Encode(t) + rest) == Ok(t) <==> forall i :: 0 <= i < |t.masters| ==> !IsMapped(t.masters[i].address)
  {
    TableRoundTrip(t, rest);
    var es := t.masters;
    assert es[..|es|] == es;
    hide Decode, Encode;
    if forall i :: 0 <= i < |es| ==> !IsMapped(es[i].address) {
      assert NormalizedAll(es) == es;
    } else {
      var i :| 0 <= i < |es| && IsMapped(es[i].address);
      assert NormalizedAll(es)[i] != es[i];
    }
  }
}
