/** Sending one 1K block over XMODEM (sa53fw/xmodem/xmodem.go). */
module Xmodem {
  import opened Words
  import Crc16

  const STX: byte := 0x02
  const ACK: byte := 0x06
  const CPMEOF: byte := 0x1A
  const BLOCK_SIZE: int := 1024
  const TRIES: nat := 10

  datatype Outcome = Sent | WrongSize | Nacked | LinkDown

  /** What one read may put into a buffer of two bytes; a reader is allowed to deliver nothing. */
  type Chunk = c: seq<byte> | |c| <= 2

  /**
   A serial line: what was written to it, how many more bytes it takes before a write fails, and what
   each read will deliver before reads fail.
   */
  class Port {
    var written: seq<byte>
    var room: nat
    var replies: seq<Chunk>

    constructor (room: nat, replies: seq<Chunk>)
      ensures written == [] && this.room == room && this.replies == replies
    {
      written, this.room, this.replies := [], room, replies;
    }

    method Write(b: seq<byte>) returns (ok: bool)
      modifies this`written, this`room
      ensures ok <==> |b| <= old(room)
      ensures written == old(written) + Cut(b, old(room))
      ensures room == if ok then old(room) - |b| else 0
    {
      written := written + Cut(b, room);
      ok := |b| <= room;
      room := if ok then room - |b| else 0;
    }

    method Read(b: array<byte>) returns (ok: bool)
      requires b.Length == 2
      modifies this`replies, b
      ensures ok <==> old(replies) != []
      ensures ok ==> replies == old(replies)[1..] && b[..] == Splice(old(b[..]), 0, old(replies)[0])
    {
      ok := replies != [];
      if ok {
        var chunk := replies[0];
        if |chunk| > 0 {
          b[0] := chunk[0];
        }
        if |chunk| > 1 {
          b[1] := chunk[1];
        }
        replies := replies[1..];
      }
    }
  }

  function Padded(data: seq<byte>, size: nat): (r: seq<byte>)
    ensures |r| == |data|
    ensures forall i :: 0 <= i < |data| ==> r[i] == if i < size then data[i] else 0x1A
  {
    seq(|data|, i requires 0 <= i < |data| => if i < size then data[i] else CPMEOF)
  }

  /** A frame is well formed when its payload and checksum sum to zero at the receiver. */
  ghost predicate IsFrame(frame: seq<byte>, block: byte, payload: seq<byte>) {
    && |frame| == 3 + |payload| + 2
    && frame[..3] == [0x02, block, 255 - block]
    && frame[3..3 + |payload|] == payload
    && Crc16.Checksum(Crc16.XMODEM, frame[3..]) == Crc16.Zeros(16)
  }

  function Repeat(frame: seq<byte>, n: nat): seq<byte> {
    if n == 0 then [] else Repeat(frame, n - 1) + frame
  }

  lemma {:induction false} RepeatPrefix(frame: seq<byte>, k: nat, n: nat)
    requires k <= n
    ensures |Repeat(frame, k)| <= |Repeat(frame, n)| && Repeat(frame, n)[..|Repeat(frame, k)|] == Repeat(frame, k)
  {
    if k < n {
      RepeatPrefix(frame, k, n - 1);
      SliceOfPrefix(Repeat(frame, n), |Repeat(frame, n - 1)|, 0, |Repeat(frame, k)|);
    }
  }

  /** The first of the two checksum bytes that follow the payload. */
  ghost function ChecksumHigh(payload: seq<byte>): byte {
    var m := Crc16.Checksum(Crc16.XMODEM, payload);
    Crc16.ValueOfBits(m);
    Crc16.Powers();
    Crc16.Value(m) / 0x100
  }

  /** The byte that is compared with ACK: the buffer still holds the checksum when a read delivers nothing. */
  function Answer(chunk: Chunk, checksumHigh: byte): byte {
    if chunk == [] then checksumHigh else chunk[0]
  }

  function Answers(replies: seq<Chunk>, checksumHigh: byte): (a: seq<byte>)
    ensures |a| == |replies|
    ensures forall i :: 0 <= i < |a| ==> a[i] == Answer(replies[i], checksumHigh)
  {
    seq(|replies|, i requires 0 <= i < |replies| => Answer(replies[i], checksumHigh))
  }

  /** How many frames are sent: up to and including the first one acknowledged or left without an answer. */
  function Attempts(answers: seq<byte>, limit: nat): nat
    decreases limit
  {
    if limit == 0 then 0
    else if answers == [] || answers[0] == ACK then 1
    else 1 + Attempts(answers[1..], limit - 1)
  }

  predicate Acknowledged(answers: seq<byte>, limit: nat) {
    exists i :: 0 <= i < |answers| && i < limit && answers[i] == ACK
  }

  /** One frame per answer up to the first ACK, one more when answers run out, and ten at most. */
  lemma {:induction false} AttemptsAre(answers: seq<byte>, limit: nat, i: nat)
    requires i <= |answers| && i <= limit && forall j :: 0 <= j < i ==> answers[j] != 0x06
    ensures i == limit ==> Attempts(answers, limit) == limit
    ensures i < limit && (i == |answers| || answers[i] == 0x06) ==> Attempts(answers, limit) == i + 1
    decreases limit
  {
    if i > 0 {
      AttemptsAre(answers[1..], limit - 1, i - 1);
    }
  }

  lemma TenFrames(answers: seq<byte>)
    requires |answers| >= 10 && forall j :: 0 <= j < 10 ==> answers[j] != 0x06
    ensures Attempts(answers, TRIES) == 10
  {
    AttemptsAre(answers, 10, 10);
  }

  /** All that should be written, which the line takes or cuts short. */
  function Traffic(frame: seq<byte>, answers: seq<byte>): seq<byte> {
    Repeat(frame, Attempts(answers, TRIES))
  }

  /** Acknowledged, never acknowledged, or the line failed; each exactly when the answers and the room say so. */
  predicate Settled(r: Outcome, frame: seq<byte>, answers: seq<byte>, room: nat) {
    var acknowledged, fits := Acknowledged(answers, TRIES), |Traffic(frame, answers)| <= room;
    && (r == Sent <==> acknowledged && fits)
    && (r == Nacked <==> !acknowledged && |answers| >= TRIES && fits)
  }

  /** The same frame again and again until it is acknowledged, ten times at most. */
  method SendBlock1K(p: Port, block: byte, data: array<byte>, size: uint16) returns (r: Outcome, ghost frame: seq<byte>)
    modifies p, data
    ensures r == WrongSize <==> data.Length != BLOCK_SIZE
    ensures r == WrongSize ==> p.written == old(p.written) && data[..] == old(data[..])
    ensures r != WrongSize ==> data[..] == Padded(old(data[..]), size) && IsFrame(frame, block, data[..])
    ensures r != WrongSize ==>
              var answers := Answers(old(p.replies), ChecksumHigh(data[..]));
              Settled(r, frame, answers, old(p.room)) && p.written == old(p.written) + Cut(Traffic(frame, answers), old(p.room))
    ensures r == Sent && ChecksumHigh(data[..]) != ACK ==> Delivered(old(p.replies))
  {
    frame := [];
    if data.Length != BLOCK_SIZE {
      return WrongSize, frame;
    }
    Pad(data, size);
    frame := FrameOf(block, data[..]);
    hide Traffic, Cut, Answers, Acknowledged, Delivered, Padded, ChecksumHigh;
    TrueSuccessIff(data[..]);
    r := Transmit(p, block, data[..]);
  }

  /** The loop of retries. */
  method Transmit(p: Port, block: byte, payload: seq<byte>) returns (r: Outcome)
    requires |payload| == BLOCK_SIZE
    modifies p
    ensures r != WrongSize
    ensures var frame := FrameOf(block, payload);
            var answers := Answers(old(p.replies), ChecksumHigh(payload));
            Settled(r, frame, answers, old(p.room)) && p.written == old(p.written) + Cut(Traffic(frame, answers), old(p.room))
  {
    hide FrameOf, IsFrame, ChecksumHigh, Cut, Repeat, Attempts, Acknowledged, Pending, Answers, Answer;
    ghost var frame := FrameOf(block, payload);
    ghost var replies, room, start := p.replies, p.room, p.written;
    ghost var answers := Answers(replies, ChecksumHigh(payload));
    ghost var n := Attempts(answers, TRIES);
    var try := TRIES;
    ghost var sent := 0;
    PendingStart(answers);
    NothingSent(frame, start);
    while try > 0
      invariant 0 <= try <= TRIES && sent == TRIES - try && Pending(answers, sent, try, n)
      invariant p.written == start + Repeat(frame, sent) && p.room + |Repeat(frame, sent)| == room
      invariant sent <= |replies| && p.replies == replies[sent..]
    {
      PendingStep(answers, sent, try, n);
      OneMore(frame, start, sent, n, p.room, room);
      WholeTraffic(frame, n, room);
      var reply := OneTry(p, block, payload);
      if !reply.Replied? {
        return LinkDown;
      }
      if reply.first == ACK {
        return Sent;
      }
      DropTwice(replies, sent, 1);
      sent := sent + 1;
      try := try - 1;
    }
    PendingEnd(answers, sent, n);
    WholeTraffic(frame, n, room);
    return Nacked;
  }

  /** After `sent` frames and as many answers that were not ACK, `n - sent` more frames follow. */
  ghost predicate Pending(answers: seq<byte>, sent: nat, try: nat, n: nat) {
    && sent + try == TRIES && sent <= |answers|
    && (forall i :: 0 <= i < sent ==> answers[i] != ACK)
    && n == sent + Attempts(answers[sent..], try)
  }

  lemma PendingStart(answers: seq<byte>)
    ensures Pending(answers, 0, TRIES, Attempts(answers, TRIES))
  {
    hide Attempts;
    assert answers[0..] == answers;
  }

  lemma PendingStep(answers: seq<byte>, sent: nat, try: nat, n: nat)
    requires Pending(answers, sent, try, n) && try > 0
    ensures sent < n
    ensures sent == |answers| ==> n == sent + 1 && !Acknowledged(answers, TRIES) && |answers| < TRIES
    ensures sent < |answers| && answers[sent] == ACK ==> n == sent + 1 && Acknowledged(answers, TRIES)
    ensures sent < |answers| && answers[sent] != ACK ==> Pending(answers, sent + 1, try - 1, n)
  {
    if sent < |answers| {
      DropTwice(answers, sent, 1);
    }
  }

  lemma PendingEnd(answers: seq<byte>, sent: nat, n: nat)
    requires Pending(answers, sent, 0, n)
    ensures n == sent && !Acknowledged(answers, TRIES) && |answers| >= TRIES
  {
  }

  lemma NothingSent(frame: seq<byte>, start: seq<byte>)
    ensures Repeat(frame, 0) == [] && start + Repeat(frame, 0) == start
  {
  }

  lemma WholeTraffic(frame: seq<byte>, n: nat, room: nat)
    ensures |Repeat(frame, n)| <= room ==> Cut(Repeat(frame, n), room) == Repeat(frame, n)
  {
  }

  /** What one more frame adds to the traffic, and where the line cuts it when there is no room for it. */
  lemma OneMore(frame: seq<byte>, start: seq<byte>, sent: nat, n: nat, left: nat, room: nat)
    requires sent < n && left + |Repeat(frame, sent)| == room
    ensures start + Repeat(frame, sent) + frame == start + Repeat(frame, sent + 1)
    ensures |Repeat(frame, sent + 1)| == |Repeat(frame, sent)| + |frame|
    ensures |frame| <= left ==> Cut(frame, left) == frame
    ensures |frame| > left ==>
              && |Repeat(frame, n)| > room
              && start + Repeat(frame, sent) + Cut(frame, left) == start + Cut(Repeat(frame, n), room)
  {
    Associative(start, Repeat(frame, sent), frame);
    if |frame| > left {
      RepeatPrefix(frame, sent + 1, n);
      CutPrefix(Repeat(frame, n), |Repeat(frame, sent + 1)|, room);
      CutAppend(Repeat(frame, sent), frame, room);
      Associative(start, Repeat(frame, sent), Cut(frame, left));
    }
  }

  datatype Reply = Broken | Silent | Replied(first: byte)

  /** One turn of the loop: the frame, and the first byte of the buffer after the read. */
  method OneTry(p: Port, block: byte, payload: seq<byte>) returns (reply: Reply)
    requires |payload| == BLOCK_SIZE
    modifies p
    ensures var frame := FrameOf(block, payload);
            && p.written == old(p.written) + Cut(frame, old(p.room))
            && (reply == Broken <==> |frame| > old(p.room))
            && (reply != Broken ==> p.room == old(p.room) - |frame|)
            && (reply == Silent ==> old(p.replies) == [])
            && (reply.Replied? ==> old(p.replies) != [] && p.replies == old(p.replies)[1..]
                                   && reply.first == Answer(old(p.replies)[0], ChecksumHigh(payload)))
  {
    var crc := Crc16.Crc16(payload);
    hide FrameOf, BigEndian;
    var ok := WriteFrame(p, block, payload, crc);
    if !ok {
      return Broken;
    }
    var b := new byte[2];
    b[0], b[1] := BigEndian(crc, 2)[0], BigEndian(crc, 2)[1];
    ok := p.Read(b);
    if !ok {
      return Silent;
    }
    return Replied(b[0]);
  }

  /** The five writes, up to the first one that fails. */
  method WriteFrame(p: Port, block: byte, payload: seq<byte>, crc: uint16) returns (ok: bool)
    requires Crc16.Bits(crc, 16) == Crc16.Checksum(Crc16.XMODEM, payload)
    modifies p`written, p`room
    ensures var frame := FrameOf(block, payload);
            && p.written == old(p.written) + Cut(frame, old(p.room))
            && (ok <==> |frame| <= old(p.room))
            && (ok ==> p.room == old(p.room) - |frame|)
            && BigEndian(crc, 2)[0] == ChecksumHigh(payload)
  {
    ghost var frame, start, room := FrameOf(block, payload), p.written, p.room;
    FrameWritten(block, payload, crc);
    hide *;
    ok := WriteHead(p, block, frame, start, room);
    if !ok {
      return;
    }
    ok := Put(p, payload, frame, 3, start, room);
    if !ok {
      return;
    }
    ok := Put(p, BigEndian(crc, 2), frame, 3 + |payload|, start, room);
    assert frame[..|frame|] == frame;
  }

  /** The start byte, the block number and its complement. */
  method WriteHead(p: Port, block: byte, ghost frame: seq<byte>, ghost start: seq<byte>, ghost room: nat) returns (ok: bool)
    requires |frame| >= 3 && frame[0..1] == [STX] && frame[1..2] == [block] && frame[2..3] == [255 - block]
    requires p.written == start && p.room == room
    modifies p`written, p`room
    ensures ok <==> 3 <= room
    ensures ok ==> p.written == start + frame[..3] && p.room + 3 == room
    ensures !ok ==> p.written == start + Cut(frame, room) && |frame| > room
  {
    hide Cut;
    assert start + frame[..0] == start;
    ok := Put(p, [STX], frame, 0, start, room);
    if !ok {
      return;
    }
    ok := Put(p, [block], frame, 1, start, room);
    if !ok {
      return;
    }
    ok := Put(p, [255 - block], frame, 2, start, room);
  }

  /** One write of a frame of which `k` bytes are written already. */
  method Put(p: Port, b: seq<byte>, ghost frame: seq<byte>, ghost k: nat, ghost start: seq<byte>, ghost room: nat) returns (ok: bool)
    requires k + |b| <= |frame| && frame[k..k + |b|] == b
    requires p.written == start + frame[..k] && p.room + k == room
    modifies p`written, p`room
    ensures ok <==> k + |b| <= room
    ensures ok ==> p.written == start + frame[..k + |b|] && p.room + k + |b| == room
    ensures !ok ==> p.written == start + Cut(frame, room) && |frame| > room
  {
    assert frame[..k + |b|] == frame[..k] + b;
    CutAppend(frame[..k], b, room);
    Associative(start, frame[..k], Cut(b, p.room));
    if k + |b| > room {
      CutPrefix(frame, k + |b|, room);
    }
    ok := p.Write(b);
  }

  // ----- reads that deliver nothing ---------------------------------------------------------

  /** One of the reads that are made delivers an acknowledgement. */
  predicate Delivered(replies: seq<Chunk>) {
    exists i :: 0 <= i < |replies| && i < TRIES && replies[i] != [] && replies[i][0] == ACK
  }

  /** Success always rests on an acknowledgement from the line. */
  ghost predicate TrueSuccess(high: byte) {
    forall replies: seq<Chunk> :: Acknowledged(Answers(replies, high), TRIES) ==> Delivered(replies)
  }

  /** That is decided by the payload alone: it does if and only if the high byte of its checksum is not ACK. */
  lemma TrueSuccessIff(payload: seq<byte>)
    ensures TrueSuccess(ChecksumHigh(payload)) <==> ChecksumHigh(payload) != ACK
  {
    hide ChecksumHigh;
    TrueSuccessOf(ChecksumHigh(payload));
  }

  lemma TrueSuccessOf(high: byte)
    ensures TrueSuccess(high) <==> high != ACK
  {
    if high == ACK {
      EmptyReply(high);
      assert !(Acknowledged(Answers([[]], high), TRIES) ==> Delivered([[]]));
    } else {
      forall replies: seq<Chunk> | Acknowledged(Answers(replies, high), TRIES)
        ensures Delivered(replies)
      {
        var i :| 0 <= i < |replies| && i < TRIES && Answers(replies, high)[i] == ACK;
        assert Answer(replies[i], high) == ACK;
        assert replies[i] != [] && replies[i][0] == ACK;
      }
    }
  }

  lemma EmptyReply(high: byte)
    ensures Acknowledged(Answers([[]], high), TRIES) <==> high == ACK
    ensures !Delivered([[]]) && |Answers([[]], high)| == 1
  {
    assert Answers([[]], high)[0] == Answer([], high);
  }

  /** 1023 zero bytes and 0x33. */
  function SilentBlock(): (w: seq<byte>)
    ensures |w| == BLOCK_SIZE
  {
    seq(BLOCK_SIZE - 1, i => 0) + [0x33]
  }

  /** Such a payload exists: one read that delivers nothing makes this block sent. */
  lemma SilentSuccess(block: byte, room: nat)
    requires room >= BLOCK_SIZE + 5
    ensures Crc16.Checksum(Crc16.XMODEM, SilentBlock()) == Crc16.Bits(0x0630, 16) && ChecksumHigh(SilentBlock()) == ACK
    ensures !Delivered([[]])
    ensures forall r: Outcome :: Settled(r, FrameOf(block, SilentBlock()), Answers([[]], ACK), room) <==> r == Sent
  {
    hide Crc16.Checksum, FrameOf, SilentBlock;
    SilentChecksum();
    Crc16.BitsDetermine(0x0630);
    EmptyReply(ACK);
    var frame, answers := FrameOf(block, SilentBlock()), Answers([[]], ACK);
    hide IsFrame, Answers, Acknowledged, Delivered;
    SilentTraffic(frame, answers);
  }

  lemma SilentTraffic(frame: seq<byte>, answers: seq<byte>)
    requires |answers| == 1 && Acknowledged(answers, TRIES)
    ensures Traffic(frame, answers) == frame
  {
    assert answers[0] == ACK;
    assert Attempts(answers, TRIES) == 1;
    assert Repeat(frame, 1) == Repeat(frame, 0) + frame == frame;
  }

  lemma SilentChecksum()
    ensures Crc16.Checksum(Crc16.XMODEM, SilentBlock()) == Crc16.Bits(0x0630, 16)
  {
    var zeros := seq(BLOCK_SIZE - 1, i => 0);
    hide Crc16.BitsOf, Crc16.FeedBits, Crc16.Bits;
    Crc16.BitsOfConcat(zeros, [0x33]);
    Crc16.OneByte(0x33);
    Crc16.FeedBitsConcat(Crc16.XMODEM, Crc16.Zeros(16), Crc16.BitsOf(zeros), Crc16.Bits(0x33, 8));
    Crc16.ZeroBytes(BLOCK_SIZE - 1);
    Crc16.Feed33();
  }

  method Pad(data: array<byte>, size: uint16)
    modifies data
    ensures data[..] == Padded(old(data[..]), size)
  {
    var k: nat := size;
    while k < data.Length
      invariant forall i :: 0 <= i < data.Length ==> data[i] == if size <= i < k then CPMEOF else old(data[i])
    {
      data[k] := CPMEOF;
      k := k + 1;
    }
  }

  ghost function FrameOf(block: byte, payload: seq<byte>): (f: seq<byte>)
    ensures IsFrame(f, block, payload)
  {
    var m := Crc16.Checksum(Crc16.XMODEM, payload);
    Crc16.ValueOfBits(m);
    Crc16.Powers();
    var crc := Crc16.Value(m);
    Crc16.SelfCheck(Crc16.XMODEM, payload, crc);
    var f := [STX, block, 255 - block] + (payload + BigEndian(crc, 2));
    assert f[3..] == payload + BigEndian(crc, 2);
    assert f[3..3 + |payload|] == payload;
    f
  }

  /** The five pieces that are written make up the frame. */
  lemma FrameWritten(block: byte, payload: seq<byte>, crc: uint16)
    requires Crc16.Bits(crc, 16) == Crc16.Checksum(Crc16.XMODEM, payload)
    ensures var f, n := FrameOf(block, payload), |payload|;
            && |f| == n + 5 && f[0..1] == [STX] && f[1..2] == [block] && f[2..3] == [255 - block]
            && f[3..3 + n] == payload && f[3 + n..3 + n + 2] == BigEndian(crc, 2)
            && BigEndian(crc, 2)[0] == ChecksumHigh(payload)
  {
    hide Crc16.Checksum, Crc16.Bits, Crc16.Value, BigEndian, IsFrame;
    Crc16.BitsDetermine(crc);
    Crc16.ChecksumBytes(crc);
    assert Crc16.Value(Crc16.Checksum(Crc16.XMODEM, payload)) == crc;
    var f := FrameOf(block, payload);
    assert f == [STX, block, 255 - block] + (payload + BigEndian(crc, 2));
  }
}
