/**
 The XMODEM checksum (sa53fw/xmodem/xmodem.go).

 `Crc16` is the program: a 16-bit register updated in place by two nested loops. The rest of the
 module says what the register holds. Polynomials over GF(2) are bit strings, leading coefficient
 first, and the checksum is proved to be the one remainder of the message times x^16 divided by
 x^16 + x^12 + x^5 + 1.
 */
module Crc16 {
  import opened Words

  type bits = seq<bool>

  /** A 16-bit register, leading bit first. */
  type register = r: bits | |r| == 16 witness Zeros(16)

  function Zeros(n: nat): (r: bits)
    ensures |r| == n && forall i :: 0 <= i < n ==> !r[i]
  {
    seq(n, _ => false)
  }

  function Xor(a: bits, b: bits): (r: bits)
    requires |a| == |b|
    ensures |r| == |a|
    ensures forall i :: 0 <= i < |a| ==> r[i] == (a[i] != b[i])
  {
    seq(|a|, i requires 0 <= i < |a| => a[i] != b[i])
  }

  /** A polynomial of degree 16 whose leading and constant coefficients are one. */
  type generator = g: bits | |g| == 17 && g[0] && g[16] witness [true] + Zeros(15) + [true]

  /** x^16 + x^12 + x^5 + 1, the generator of CRC-16/XMODEM. */
  const XMODEM: generator := [true] + UPPER + LOWER
  const UPPER: bits := [false, false, false, true, false, false, false, false]
  const LOWER: bits := [false, false, true, false, false, false, false, true]

  /** The generator times one coefficient. */
  function Scaled(g: generator, t: bool): (r: bits)
    ensures |r| == 17
    ensures forall i :: 0 <= i < 17 ==> r[i] == (t && g[i])
  {
    if t then g else Zeros(17)
  }

  /** The register moved up by one place and reduced by the generator. */
  function Shift(g: generator, r: register): register {
    Xor(r[1..] + [false], Scaled(g, r[0])[1..])
  }

  function Shifts(g: generator, r: register, n: nat): register
    decreases n
  {
    if n == 0 then r else Shifts(g, Shift(g, r), n - 1)
  }

  /** One message bit enters at the top of the register. */
  function FeedBit(g: generator, r: register, b: bool): register {
    Shift(g, Xor(r, [b] + Zeros(15)))
  }

  function FeedBits(g: generator, r: register, m: bits): register
    decreases m
  {
    if m == [] then r else FeedBits(g, FeedBit(g, r, m[0]), m[1..])
  }

  /** The `n` low bits of a number, leading bit first. */
  function Bits(v: nat, n: nat): (m: bits)
    ensures |m| == n
  {
    if n == 0 then [] else Bits(v / 2, n - 1) + [v % 2 == 1]
  }

  function Value(m: bits): nat {
    if m == [] then 0 else 2 * Value(m[..|m| - 1]) + (if m[|m| - 1] then 1 else 0)
  }

  function BitsOf(data: seq<byte>): (m: bits)
    ensures |m| == 8 * |data|
  {
    if data == [] then [] else BitsOf(data[..|data| - 1]) + Bits(data[|data| - 1], 8)
  }

  /** The message bits pushed through the register one at a time. */
  function Checksum(g: generator, data: seq<byte>): register {
    FeedBits(g, Zeros(16), BitsOf(data))
  }

  // ----- the program ------------------------------------------------------------------------

  function PowerOfTwo(n: nat): (p: nat)
    ensures p > 0
  {
    if n == 0 then 1 else 2 * PowerOfTwo(n - 1)
  }

  lemma {:induction false} ValueOfBits(m: bits)
    ensures Bits(Value(m), |m|) == m && Value(m) < PowerOfTwo(|m|)
  {
    if m != [] {
      var n := |m| - 1;
      ValueOfBits(m[..n]);
      assert m == m[..n] + [m[n]];
    }
  }

  lemma {:induction false} ValueBack(v: nat, n: nat)
    requires v < PowerOfTwo(n)
    ensures Value(Bits(v, n)) == v
  {
    if n != 0 {
      ValueBack(v / 2, n - 1);
      assert Bits(v, n)[..n - 1] == Bits(v / 2, n - 1);
    }
  }

  /** A word is determined by its bits. */
  lemma BitsDetermine(w: uint16)
    ensures Value(Bits(w, 16)) == w
  {
    Powers();
    ValueBack(w, 16);
  }

  lemma {:induction false} BitsOfSum(x: nat, y: nat, a: nat, b: nat)
    requires y < PowerOfTwo(b)
    ensures Bits(x * PowerOfTwo(b) + y, a + b) == Bits(x, a) + Bits(y, b)
    decreases b
  {
    if b != 0 {
      var t := x * PowerOfTwo(b - 1);
      var v := x * PowerOfTwo(b) + y;
      assert v == 2 * t + y;
      BitsOfSum(x, y / 2, a, b - 1);
      assert Bits(v, a + b) == Bits(v / 2, a + b - 1) + [v % 2 == 1];
      assert Bits(y, b) == Bits(y / 2, b - 1) + [y % 2 == 1];
      assert v / 2 == t + y / 2 && v % 2 == y % 2;
    } else {
      assert Bits(x, a) + Bits(y, 0) == Bits(x, a);
    }
  }

  /** The operator `^` on 16-bit words. */
  function XorWord(a: uint16, b: uint16): (w: uint16)
    ensures Bits(w, 16) == Xor(Bits(a, 16), Bits(b, 16))
  {
    var m := Xor(Bits(a, 16), Bits(b, 16));
    ValueOfBits(m);
    Powers();
    Value(m)
  }

  lemma Powers()
    ensures PowerOfTwo(8) == 0x100 && PowerOfTwo(15) == 0x8000 && PowerOfTwo(16) == 0x1_0000
  {
    assert PowerOfTwo(4) == 16;
    assert PowerOfTwo(12) == 0x1000;
  }

  lemma {:induction false} BitsOfZero(n: nat)
    ensures Bits(0, n) == Zeros(n)
  {
    if n != 0 {
      BitsOfZero(n - 1);
    }
  }

  /** A byte moved to the upper half of a word. */
  lemma ByteWord(c: byte)
    ensures Bits(c * 0x100, 16) == Bits(c, 8) + Zeros(8)
  {
    Powers();
    BitsOfSum(c, 0, 8, 8);
    BitsOfZero(8);
  }

  lemma LeadingBit(w: uint16)
    ensures Bits(w, 16) == [w >= 0x8000] + Bits(w % 0x8000, 15)
  {
    var top := w / 0x8000;
    Powers();
    BitsOfSum(top, w % 0x8000, 1, 15);
    assert w == top * 0x8000 + w % 0x8000;
    assert Bits(top, 1) == Bits(top / 2, 0) + [top % 2 == 1] == [w >= 0x8000];
  }

  lemma ShiftWord(w: uint16)
    ensures Bits(w, 16)[0] == (w >= 0x8000)
    ensures Bits(w * 2 % 0x1_0000, 16) == Bits(w, 16)[1..] + [false]
  {
    LeadingBit(w);
    DoubledWord(w);
    DoubledBits(w % 0x8000, 15);
    assert Bits(w, 16)[1..] == Bits(w % 0x8000, 15);
  }

  lemma DoubledWord(w: int)
    ensures w * 2 % 0x1_0000 == 2 * (w % 0x8000)
  {
  }

  lemma DoubledBits(y: nat, n: nat)
    ensures Bits(2 * y, n + 1) == Bits(y, n) + [false]
  {
  }

  /** 0x1021 is the generator without its leading term. */
  lemma GeneratorWord()
    ensures Bits(0x1021, 16) == XMODEM[1..]
  {
    hide Bits;
    UpperBits();
    LowerBits();
    Powers();
    BitsOfSum(0x10, 0x21, 8, 8);
    assert XMODEM[1..] == UPPER + LOWER;
  }

  lemma UpperBits()
    ensures Bits(0x10, 8) == UPPER
  {
    assert Bits(1, 4) == UPPER[..4];
    assert Bits(4, 6) == UPPER[..6];
  }

  lemma LowerBits()
    ensures Bits(0x21, 8) == LOWER
  {
    assert Bits(1, 3) == LOWER[..3];
    assert Bits(4, 5) == LOWER[..5];
    assert Bits(0x10, 7) == LOWER[..7];
  }

  /** One turn of the inner loop. */
  function Turn(w: uint16): uint16 {
    if w >= 0x8000 then XorWord(w * 2 % 0x1_0000, 0x1021) else w * 2 % 0x1_0000
  }

  lemma TurnIsShift(w: uint16)
    ensures Bits(Turn(w), 16) == Shift(XMODEM, Bits(w, 16))
  {
    var r := Bits(w, 16);
    ShiftWord(w);
    GeneratorWord();
    if w < 0x8000 {
      assert Shift(XMODEM, r) == r[1..] + [false];
    }
  }

  function Turns(w: uint16, n: nat): uint16
    decreases n
  {
    if n == 0 then w else Turn(Turns(w, n - 1))
  }

  lemma {:induction false} TurnsAreShifts(w: uint16, n: nat)
    ensures Bits(Turns(w, n), 16) == Shifts(XMODEM, Bits(w, 16), n)
    decreases n
  {
    if n != 0 {
      TurnIsShift(Turns(w, n - 1));
      TurnsAreShifts(w, n - 1);
      ShiftsSnoc(XMODEM, Bits(w, 16), n - 1);
    }
  }

  lemma {:induction false} ShiftsSnoc(g: generator, r: register, n: nat)
    ensures Shifts(g, r, n + 1) == Shift(g, Shifts(g, r, n))
    decreases n
  {
    if n != 0 {
      ShiftsSnoc(g, Shift(g, r), n - 1);
    }
  }

  /** One pass of the outer loop pushes the eight bits of one byte through the register. */
  lemma PassFeedsByte(crc: uint16, c: byte, start: uint16, n: nat)
    requires start == XorWord(crc, c * 0x100) && n == 8
    ensures Bits(Turns(start, n), 16) == FeedBits(XMODEM, Bits(crc, 16), Bits(c, n))
  {
    ByteWord(c);
    TurnsAreShifts(start, n);
    WordIsBits(XMODEM, Bits(crc, 16), Bits(c, 8));
  }

  lemma ChecksumOfPrefix(data: seq<byte>, k: nat)
    requires k < |data|
    ensures Checksum(XMODEM, data[..k + 1]) == FeedBits(XMODEM, Checksum(XMODEM, data[..k]), Bits(data[k], 8))
  {
    assert data[..k + 1][..k] == data[..k];
    FeedBitsConcat(XMODEM, Zeros(16), BitsOf(data[..k]), Bits(data[k], 8));
  }

  method Crc16(data: seq<byte>) returns (crc: uint16)
    ensures Bits(crc, 16) == Checksum(XMODEM, data)
  {
    crc := 0;
    BitsOfZero(16);
    for k := 0 to |data|
      invariant Bits(crc, 16) == Checksum(XMODEM, data[..k])
    {
      ghost var before := crc;
      var part: uint16 := data[k] as int * 0x100;
      crc := XorWord(crc, part);
      ghost var start := crc;
      var n := 8;
      for i := 0 to n
        invariant crc == Turns(start, i)
      {
        if crc >= 0x8000 {
          crc := XorWord(crc * 2 % 0x1_0000, 0x1021);
        } else {
          crc := crc * 2 % 0x1_0000;
        }
      }
      PassFeedsByte(before, data[k], start, n);
      ChecksumOfPrefix(data, k);
    }
    assert data[..|data|] == data;
  }

  lemma {:induction false} FeedBitsConcat(g: generator, r: register, a: bits, b: bits)
    ensures FeedBits(g, r, a + b) == FeedBits(g, FeedBits(g, r, a), b)
    decreases a
  {
    if a == [] {
      assert a + b == b;
    } else {
      assert (a + b)[1..] == a[1..] + b;
      FeedBitsConcat(g, FeedBit(g, r, a[0]), a[1..], b);
    }
  }

  /** Xoring up to sixteen bits into the register at once and then shifting is feeding them one by one. */
  lemma {:induction false} WordIsBits(g: generator, r: register, m: bits)
    requires |m| <= 16
    ensures Shifts(g, Xor(r, m + Zeros(16 - |m|)), |m|) == FeedBits(g, r, m)
    decreases |m|
  {
    var w := m + Zeros(16 - |m|);
    if m == [] {
      assert Xor(r, w) == r;
    } else {
      var rest := m[1..];
      var x, y := Xor(r, w), Xor(r, [m[0]] + Zeros(15));
      assert x[0] == y[0] && forall i :: 1 <= i < 16 ==> x[i] == (y[i] != w[i]);
      assert Shift(g, Xor(r, w)) == Xor(FeedBit(g, r, m[0]), rest + Zeros(16 - |rest|));
      WordIsBits(g, FeedBit(g, r, m[0]), rest);
    }
  }

  // ----- linearity -------------------------------------------------------------------------

  lemma ScaledLinear(g: generator, a: bool, b: bool)
    ensures Scaled(g, a != b) == Xor(Scaled(g, a), Scaled(g, b))
  {
  }

  lemma ShiftLinear(g: generator, u: register, v: register)
    ensures Shift(g, Xor(u, v)) == Xor(Shift(g, u), Shift(g, v))
  {
    ScaledLinear(g, u[0], v[0]);
    XorExchange(u[1..] + [false], v[1..] + [false], Scaled(g, u[0])[1..], Scaled(g, v[0])[1..]);
    assert Xor(u, v)[1..] + [false] == Xor(u[1..] + [false], v[1..] + [false]);
    assert Scaled(g, Xor(u, v)[0])[1..] == Xor(Scaled(g, u[0])[1..], Scaled(g, v[0])[1..]);
  }

  lemma FeedBitLinear(g: generator, r: register, s: register, a: bool, b: bool)
    ensures FeedBit(g, Xor(r, s), a != b) == Xor(FeedBit(g, r, a), FeedBit(g, s, b))
  {
    XorExchange(r, s, [a] + Zeros(15), [b] + Zeros(15));
    assert Xor([a] + Zeros(15), [b] + Zeros(15)) == [a != b] + Zeros(15);
    ShiftLinear(g, Xor(r, [a] + Zeros(15)), Xor(s, [b] + Zeros(15)));
  }

  lemma {:induction false} FeedBitsLinear(g: generator, r: register, s: register, a: bits, b: bits)
    requires |a| == |b|
    ensures FeedBits(g, Xor(r, s), Xor(a, b)) == Xor(FeedBits(g, r, a), FeedBits(g, s, b))
    decreases |a|
  {
    if a != [] {
      FeedBitLinear(g, r, s, a[0], b[0]);
      assert Xor(a, b)[1..] == Xor(a[1..], b[1..]);
      FeedBitsLinear(g, FeedBit(g, r, a[0]), FeedBit(g, s, b[0]), a[1..], b[1..]);
    }
  }

  function XorByte(c: byte, d: byte): (e: byte)
    ensures Bits(e, 8) == Xor(Bits(c, 8), Bits(d, 8))
  {
    var m := Xor(Bits(c, 8), Bits(d, 8));
    ValueOfBits(m);
    Powers();
    Value(m)
  }

  function XorBytes(a: seq<byte>, b: seq<byte>): (r: seq<byte>)
    requires |a| == |b|
    ensures |r| == |a|
    ensures forall i :: 0 <= i < |a| ==> r[i] == XorByte(a[i], b[i])
  {
    seq(|a|, i requires 0 <= i < |a| => XorByte(a[i], b[i]))
  }

  lemma {:induction false} XorBits(a: seq<byte>, b: seq<byte>)
    requires |a| == |b|
    ensures BitsOf(XorBytes(a, b)) == Xor(BitsOf(a), BitsOf(b))
  {
    if a != [] {
      var n := |a| - 1;
      XorBits(a[..n], b[..n]);
      assert XorBytes(a, b)[..n] == XorBytes(a[..n], b[..n]);
    }
  }

  /** The checksum of a byte-wise xor is the xor of the checksums. */
  lemma ChecksumLinear(g: generator, a: seq<byte>, b: seq<byte>)
    requires |a| == |b|
    ensures Checksum(g, XorBytes(a, b)) == Xor(Checksum(g, a), Checksum(g, b))
  {
    XorBits(a, b);
    assert Xor(Zeros(16), Zeros(16)) == Zeros(16);
    FeedBitsLinear(g, Zeros(16), Zeros(16), BitsOf(a), BitsOf(b));
  }

  // ----- a frame followed by its checksum --------------------------------------------------

  lemma {:induction false} ShiftsOfZero(g: generator, n: nat)
    ensures Shifts(g, Zeros(16), n) == Zeros(16)
  {
    if n != 0 {
      assert Shift(g, Zeros(16)) == Zeros(16);
      ShiftsOfZero(g, n - 1);
    }
  }

  lemma ChecksumBytes(crc: uint16)
    ensures BigEndian(crc, 2) == [crc / 0x100, crc % 0x100]
    ensures BitsOf(BigEndian(crc, 2)) == Bits(crc, 16)
  {
    var hi, lo := crc / 0x100, crc % 0x100;
    assert BigEndian(hi, 1) == BigEndian(hi / 0x100, 0) + [hi % 0x100] == [hi];
    assert [hi, lo][..1] == [hi];
    assert BitsOf([hi]) == BitsOf([]) + Bits(hi, 8);
    Powers();
    BitsOfSum(hi, lo, 8, 8);
  }

  lemma {:induction false} BitsOfConcat(a: seq<byte>, b: seq<byte>)
    ensures BitsOf(a + b) == BitsOf(a) + BitsOf(b)
  {
    if b == [] {
      assert a + b == a;
    } else {
      var n := |b| - 1;
      assert (a + b)[..|a + b| - 1] == a + b[..n];
      BitsOfConcat(a, b[..n]);
    }
  }

  /** Feeding a register its own bits clears it. */
  lemma SelfFeed(g: generator, r: register)
    ensures FeedBits(g, r, r) == Zeros(16)
  {
    assert r + Zeros(16 - |r|) == r;
    WordIsBits(g, r, r);
    assert Xor(r, r) == Zeros(16);
    hide FeedBits, Shifts;
    ShiftsOfZero(g, 16);
  }

  /** What the receiver checks: a frame that carries its own big-endian checksum sums to zero. */
  lemma SelfCheck(g: generator, data: seq<byte>, crc: uint16)
    requires Bits(crc, 16) == Checksum(g, data)
    ensures Checksum(g, data + BigEndian(crc, 2)) == Zeros(16)
  {
    hide Bits, BitsOf, FeedBits, BigEndian, Zeros;
    BitsOfConcat(data, BigEndian(crc, 2));
    ChecksumBytes(crc);
    FeedBitsConcat(g, Zeros(16), BitsOf(data), Bits(crc, 16));
    SelfFeed(g, Checksum(g, data));
  }

  // ----- zero bytes --------------------------------------------------------------------------

  lemma OneByte(c: byte)
    ensures BitsOf([c]) == Bits(c, 8)
  {
    hide Bits;
    assert [c][..0] == [];
  }

  lemma {:induction false} BitsOfZeros(n: nat)
    ensures BitsOf(seq(n, i => 0)) == Zeros(8 * n)
  {
    hide Bits;
    if n != 0 {
      BitsOfZeros(n - 1);
      assert seq(n, i => 0)[..n - 1] == seq(n - 1, i => 0);
      BitsOfZero(8);
    }
  }

  /** Zero bytes leave the zero register alone. */
  lemma ZeroBytes(n: nat)
    ensures FeedBits(XMODEM, Zeros(16), BitsOf(seq(n, i => 0))) == Zeros(16)
  {
    BitsOfZeros(n);
    ZerosShift(XMODEM, Zeros(16), 8 * n);
    ShiftsOfZero(XMODEM, 8 * n);
  }

  // ----- the checksum as a polynomial remainder --------------------------------------------

  /** Schoolbook multiplication by the generator, one coefficient of `q` at a time. */
  function TimesGenerator(g: generator, q: bits): (r: bits)
    ensures |r| == |q| + 16
  {
    if q == [] then Zeros(16)
    else
      var n := |q| - 1;
      Xor(TimesGenerator(g, q[..n]) + [false], Zeros(n) + Scaled(g, q[n]))
  }

  /** `r` is what is left of `m` times x^16 after taking away a multiple of the generator. */
  ghost predicate IsRemainder(g: generator, m: bits, r: bits) {
    |r| == 16 && exists q: bits :: Divides(g, m, q, r)
  }

  ghost predicate Divides(g: generator, m: bits, q: bits, r: bits)
    requires |r| == 16
  {
    |q| == |m| && m + Zeros(16) == Xor(TimesGenerator(g, q), Zeros(|m|) + r)
  }

  function Quotient(g: generator, m: bits): (q: bits)
    ensures |q| == |m|
  {
    if m == [] then []
    else
      var n := |m| - 1;
      Quotient(g, m[..n]) + [FeedBits(g, Zeros(16), m[..n])[0] != m[n]]
  }

  /** One division step on seventeen bits. */
  lemma DivisionStep(g: generator, r: register, b: bool)
    ensures Xor(r + [false], [b] + Zeros(16)) == Xor(Scaled(g, r[0] != b), [false] + FeedBit(g, r, b))
  {
    var left := Xor(r + [false], [b] + Zeros(16));
    var right := Xor(Scaled(g, r[0] != b), [false] + FeedBit(g, r, b));
    assert Xor(r, [b] + Zeros(15))[0] == (r[0] != b);
    forall i | 0 <= i < 17
      ensures left[i] == right[i]
    {
      assert i > 0 ==> ([b] + Zeros(16))[i] == false;
    }
  }

  /** Bringing down one more bit of the dividend. */
  lemma DivisionGlue(g: generator, p: bits, b: bool, product: bits, r: bits, t: bool, next: bits)
    requires |product| == |p| + 16 && |r| == 16 && |next| == 16
    requires p + Zeros(16) == Xor(product, Zeros(|p|) + r)
    requires Xor(r + [false], [b] + Zeros(16)) == Xor(Scaled(g, t), [false] + next)
    ensures p + [b] + Zeros(16) ==
            Xor(Xor(product + [false], Zeros(|p|) + Scaled(g, t)), Zeros(|p| + 1) + next)
  {
    var n := |p|;
    var left := p + [b] + Zeros(16);
    var right := Xor(Xor(product + [false], Zeros(n) + Scaled(g, t)), Zeros(n + 1) + next);
    forall i | 0 <= i < n
      ensures left[i] == right[i]
    {
      assert (p + Zeros(16))[i] == Xor(product, Zeros(n) + r)[i];
    }
    forall i | n <= i < n + 17
      ensures left[i] == right[i]
    {
      var k := i - n;
      assert Xor(r + [false], [b] + Zeros(16))[k] == Xor(Scaled(g, t), [false] + next)[k];
      if k < 16 {
        assert (p + Zeros(16))[i] == Xor(product, Zeros(n) + r)[i];
      }
    }
  }

  lemma FeedBitsSnoc(g: generator, p: bits, b: bool)
    ensures FeedBits(g, Zeros(16), p + [b]) == FeedBit(g, FeedBits(g, Zeros(16), p), b)
  {
    FeedBitsConcat(g, Zeros(16), p, [b]);
    var r := FeedBits(g, Zeros(16), p);
    assert [b][1..] == [];
    assert FeedBits(g, FeedBit(g, r, b), []) == FeedBit(g, r, b);
  }

  lemma {:induction false} RegisterIsRemainder(g: generator, m: bits)
    ensures Divides(g, m, Quotient(g, m), FeedBits(g, Zeros(16), m))
  {
    if m == [] {
    } else {
      var p, b := m[..|m| - 1], m[|m| - 1];
      RegisterIsRemainder(g, p);
      DivisionSnoc(g, p, b);
      assert p + [b] == m;
    }
  }

  lemma DivisionSnoc(g: generator, p: bits, b: bool)
    requires Divides(g, p, Quotient(g, p), FeedBits(g, Zeros(16), p))
    ensures Divides(g, p + [b], Quotient(g, p + [b]), FeedBits(g, Zeros(16), p + [b]))
  {
    var q, r := Quotient(g, p), FeedBits(g, Zeros(16), p);
    FeedBitsSnoc(g, p, b);
    DivisionStep(g, r, b);
    assert (p + [b])[..|p|] == p;
    var q' := Quotient(g, p + [b]);
    assert q' == q + [r[0] != b] && q'[..|p|] == q;
    hide FeedBits, FeedBit, Quotient;
    DivisionGlue(g, p, b, TimesGenerator(g, q), r, r[0] != b, FeedBit(g, r, b));
  }

  /** Multiplication by the generator distributes over xor. */
  lemma {:induction false} TimesGeneratorLinear(g: generator, a: bits, b: bits)
    requires |a| == |b|
    ensures TimesGenerator(g, Xor(a, b)) == Xor(TimesGenerator(g, a), TimesGenerator(g, b))
  {
    if a == [] {
    } else {
      var n := |a| - 1;
      var x := Xor(a, b);
      var p, q := TimesGenerator(g, a[..n]), TimesGenerator(g, b[..n]);
      assert x[..n] == Xor(a[..n], b[..n]);
      TimesGeneratorLinear(g, a[..n], b[..n]);
      TimesLast(g, a);
      TimesLast(g, b);
      TimesLast(g, x);
      ScaledLinear(g, a[n], b[n]);
      hide TimesGenerator, Scaled;
      XorExchange(p + [false], q + [false], Zeros(n) + Scaled(g, a[n]), Zeros(n) + Scaled(g, b[n]));
      XorConcat(p, q, [false], [false]);
      XorConcat(Zeros(n), Zeros(n), Scaled(g, a[n]), Scaled(g, b[n]));
      assert Xor([false], [false]) == [false] && Xor(Zeros(n), Zeros(n)) == Zeros(n);
    }
  }

  lemma TimesLast(g: generator, q: bits)
    requires q != []
    ensures var n := |q| - 1;
            TimesGenerator(g, q) == Xor(TimesGenerator(g, q[..n]) + [false], Zeros(n) + Scaled(g, q[n]))
  {
  }

  lemma XorConcat(a: bits, b: bits, c: bits, d: bits)
    requires |a| == |b| && |c| == |d|
    ensures Xor(a + c, b + d) == Xor(a, b) + Xor(c, d)
  {
  }

  lemma XorExchange(a: bits, b: bits, c: bits, d: bits)
    requires |a| == |b| == |c| == |d|
    ensures Xor(Xor(a, b), Xor(c, d)) == Xor(Xor(a, c), Xor(b, d))
  {
  }

  /** A multiple of the generator whose leading coefficients vanish is zero. */
  lemma {:induction false} SmallMultipleIsZero(g: generator, d: bits)
    requires forall i :: 0 <= i < |d| ==> !TimesGenerator(g, d)[i]
    ensures d == Zeros(|d|) && TimesGenerator(g, d) == Zeros(|d| + 16)
  {
    if d != [] {
      var n := |d| - 1;
      var shorter := TimesGenerator(g, d[..n]);
      assert TimesGenerator(g, d) == Xor(shorter + [false], Zeros(n) + Scaled(g, d[n]));
      forall i | 0 <= i < n
        ensures !shorter[i]
      {
        assert !TimesGenerator(g, d)[i];
      }
      SmallMultipleIsZero(g, d[..n]);
      assert !TimesGenerator(g, d)[n];
      assert (Zeros(n) + Scaled(g, d[n]))[n] == d[n];
      assert d == d[..n] + [d[n]];
    }
  }

  /** A message has at most one remainder. */
  lemma RemainderUnique(g: generator, m: bits, q: bits, r: bits, q': bits, r': bits)
    requires |r| == 16 && |r'| == 16
    requires Divides(g, m, q, r) && Divides(g, m, q', r')
    ensures r == r' && q == q'
  {
    var n := |m|;
    var d := Xor(q, q');
    TimesGeneratorLinear(g, q, q');
    forall i | 0 <= i < n + 16
      ensures TimesGenerator(g, d)[i] == ((Zeros(n) + r)[i] != (Zeros(n) + r')[i])
    {
      assert (m + Zeros(16))[i] == Xor(TimesGenerator(g, q), Zeros(n) + r)[i];
      assert (m + Zeros(16))[i] == Xor(TimesGenerator(g, q'), Zeros(n) + r')[i];
    }
    SmallMultipleIsZero(g, d);
    forall i | 0 <= i < n
      ensures q[i] == q'[i]
    {
      assert !d[i];
    }
    forall k | 0 <= k < 16
      ensures r[k] == r'[k]
    {
      assert (Zeros(n) + r)[n + k] == r[k] && (Zeros(n) + r')[n + k] == r'[k];
      assert !TimesGenerator(g, d)[n + k];
    }
  }

  /** CRC-16/XMODEM is polynomial division: the checksum is the remainder, and the only one. */
  lemma ChecksumIsRemainder(g: generator, data: seq<byte>, r: bits)
    ensures IsRemainder(g, BitsOf(data), r) <==> r == Checksum(g, data)
  {
    var m := BitsOf(data);
    RegisterIsRemainder(g, m);
    if IsRemainder(g, m, r) {
      var q :| Divides(g, m, q, r);
      RemainderUnique(g, m, q, r, Quotient(g, m), Checksum(g, data));
    }
  }

  // ----- burst errors ----------------------------------------------------------------------

  lemma ShiftNonzero(g: generator, r: register)
    requires r != Zeros(16)
    ensures Shift(g, r) != Zeros(16)
  {
    var s := Shift(g, r);
    if r[0] {
      assert s[15];
    } else {
      var i :| 0 <= i < 16 && r[i];
      assert s[i - 1];
    }
  }

  lemma {:induction false} ShiftsNonzero(g: generator, r: register, n: nat)
    requires r != Zeros(16)
    ensures Shifts(g, r, n) != Zeros(16)
    decreases n
  {
    if n != 0 {
      ShiftNonzero(g, r);
      ShiftsNonzero(g, Shift(g, r), n - 1);
    }
  }

  lemma {:induction false} ZerosShift(g: generator, r: register, n: nat)
    ensures FeedBits(g, r, Zeros(n)) == Shifts(g, r, n)
    decreases n
  {
    if n != 0 {
      assert Zeros(n)[1..] == Zeros(n - 1);
      assert Xor(r, [false] + Zeros(15)) == r;
      ZerosShift(g, Shift(g, r), n - 1);
    }
  }

  /** The generator has constant term one, so a nonzero multiple keeps a coefficient past the first sixteen. */
  lemma {:induction false} LateCoefficient(g: generator, q: bits, j: nat) returns (i: nat)
    requires j < |q| + 16 && TimesGenerator(g, q)[j]
    ensures 16 <= i < |q| + 16 && TimesGenerator(g, q)[i]
    decreases |q|
  {
    if q == [] {
      assert false;
    } else {
      var n := |q| - 1;
      var shorter := TimesGenerator(g, q[..n]);
      assert TimesGenerator(g, q) == Xor(shorter + [false], Zeros(n) + Scaled(g, q[n]));
      if q[n] {
        i := n + 16;
      } else {
        assert Zeros(n) + Scaled(g, q[n]) == Zeros(n + 17);
        i := LateCoefficient(g, q[..n], j);
      }
    }
  }

  /** A pattern of at most sixteen bits with one of them set leaves a nonzero register. */
  lemma BurstNonzero(g: generator, burst: bits, k: nat)
    requires |burst| <= 16 && k < |burst| && burst[k]
    ensures FeedBits(g, Zeros(16), burst) != Zeros(16)
  {
    var n := |burst|;
    var r := FeedBits(g, Zeros(16), burst);
    var product := TimesGenerator(g, Quotient(g, burst));
    var sum := Xor(product, Zeros(n) + r);
    RegisterIsRemainder(g, burst);
    assert sum[k] == (burst + Zeros(16))[k];
    var i := LateCoefficient(g, Quotient(g, burst), k);
    assert sum[i] == (burst + Zeros(16))[i];
    assert r[i - n];
  }

  /** Every error burst of up to sixteen bits, anywhere in the frame, changes the checksum. */
  lemma BurstDetected(g: generator, sent: seq<byte>, received: seq<byte>, before: nat, burst: bits, k: nat)
    requires |sent| == |received|
    requires |burst| <= 16 && k < |burst| && burst[k]
    requires before + |burst| <= 8 * |sent|
    requires BitsOf(received) ==
             Xor(BitsOf(sent), Zeros(before) + burst + Zeros(8 * |sent| - before - |burst|))
    ensures Checksum(g, sent) != Checksum(g, received)
  {
    var zero := Zeros(16);
    var m := BitsOf(sent);
    var after := 8 * |sent| - before - |burst|;
    var e := Zeros(before) + burst + Zeros(after);
    assert Xor(zero, zero) == zero;
    FeedBitsLinear(g, zero, zero, m, e);
    FeedBitsConcat(g, zero, Zeros(before) + burst, Zeros(after));
    FeedBitsConcat(g, zero, Zeros(before), burst);
    ZerosShift(g, zero, before);
    ShiftsOfZero(g, before);
    BurstNonzero(g, burst, k);
    ZerosShift(g, FeedBits(g, zero, burst), after);
    ShiftsNonzero(g, FeedBits(g, zero, burst), after);
    var x := FeedBits(g, zero, e);
    XorDiffers(Checksum(g, sent), x);
  }

  lemma XorDiffers(a: register, x: register)
    requires x != Zeros(16)
    ensures Xor(a, x) != a
  {
    var i :| 0 <= i < 16 && x[i];
    assert Xor(a, x)[i] != a[i];
  }

  // ----- one checksum in full ---------------------------------------------------------------

  const NIBBLE: bits := [false, false, true, true]
  const HALFWAY: register := [false, false, true, true, false, false, false, false, false, true, true, false, false, false, true, true]
  const HIGH: bits := [false, false, false, false, false, true, true, false]
  const LOW: bits := [false, false, true, true, false, false, false, false]

  /** The byte 0x33 takes the zero register to 0x0630, bit by bit. */
  lemma Feed33()
    ensures FeedBits(XMODEM, Zeros(16), Bits(0x33, 8)) == Bits(0x0630, 16)
  {
    hide *;
    Bits33();
    Bits0630();
    FirstNibble();
    SecondNibble();
    FeedBitsConcat(XMODEM, Zeros(16), NIBBLE, NIBBLE);
  }

  lemma Bits33()
    ensures Bits(0x33, 8) == NIBBLE + NIBBLE
  {
    assert Bits(0x3, 4) == NIBBLE;
    assert Bits(0xC, 6) == NIBBLE + [false, false];
  }

  lemma Bits06()
    ensures Bits(0x06, 8) == HIGH
  {
    assert Bits(0x1, 6) == HIGH[..6];
  }

  lemma Bits30()
    ensures Bits(0x30, 8) == LOW
  {
    assert Bits(0x3, 4) == LOW[..4];
    assert Bits(0xC, 6) == LOW[..6];
  }

  lemma Bits0630()
    ensures Bits(0x0630, 16) == HIGH + LOW
  {
    hide Bits;
    Bits06();
    Bits30();
    Powers();
    BitsOfSum(0x06, 0x30, 8, 8);
  }

  /** A bit that equals the leading one only shifts the register. */
  lemma PlainFeed(r: register)
    ensures FeedBit(XMODEM, r, r[0]) == r[1..] + [false]
  {
    var x := Xor(r, [r[0]] + Zeros(15));
    assert !x[0] && x[1..] == r[1..];
  }

  lemma OtherFeed(r: register)
    ensures FeedBit(XMODEM, r, !r[0]) == Xor(r[1..] + [false], XMODEM[1..])
  {
    var x := Xor(r, [!r[0]] + Zeros(15));
    assert x[0] && x[1..] == r[1..];
  }

  const TAIL: register := [false, false, false, true, false, false, false, false, false, false, true, false, false, false, false, true]
  const SHIFTED1: register := [false, true, true, false, false, false, false, false, true, true, false, false, false, true, true, false]
  const SHIFTED2: register := [true, true, false, false, false, false, false, true, true, false, false, false, true, true, false, false]
  const SHIFTED3: register := [true, false, false, false, false, false, true, true, false, false, false, true, true, false, false, false]

  lemma ZeroFeeds()
    ensures FeedBit(XMODEM, Zeros(16), false) == Zeros(16) && FeedBit(XMODEM, Zeros(16), true) == TAIL
  {
    hide FeedBit;
    var z := Zeros(16);
    PlainFeed(z);
    OtherFeed(z);
    assert z[1..] + [false] == z && XMODEM[1..] == TAIL;
    ZeroXor(TAIL);
  }

  lemma ZeroXor(r: register)
    ensures Xor(Zeros(16), r) == r
  {
  }

  const DOUBLED: register := [false, false, true, false, false, false, false, false, false, true, false, false, false, false, true, false]

  lemma TailFeeds()
    ensures FeedBit(XMODEM, TAIL, true) == HALFWAY
  {
    hide FeedBit, Xor;
    OtherFeed(TAIL);
    assert TAIL[0] == false && XMODEM[1..] == TAIL;
    assert TAIL[1..] + [false] == DOUBLED;
    DoubledTail();
  }

  lemma DoubledTail()
    ensures Xor(DOUBLED, TAIL) == HALFWAY
  {
  }

  lemma FirstNibble()
    ensures FeedBits(XMODEM, Zeros(16), NIBBLE) == HALFWAY
  {
    hide FeedBits, FeedBit, Zeros, Xor;
    FeedFour(Zeros(16), false, false, true, true);
    ZeroFeeds();
    TailFeeds();
  }

  lemma ShiftedFeeds()
    ensures FeedBit(XMODEM, HALFWAY, false) == SHIFTED1 && FeedBit(XMODEM, SHIFTED1, false) == SHIFTED2
  {
    PlainFeed(HALFWAY);
    PlainFeed(SHIFTED1);
    hide FeedBit;
    assert HALFWAY[1..] + [false] == SHIFTED1;
    assert SHIFTED1[1..] + [false] == SHIFTED2;
  }

  lemma ShiftedFeedsOn()
    ensures FeedBit(XMODEM, SHIFTED2, true) == SHIFTED3 && FeedBit(XMODEM, SHIFTED3, true) == HIGH + LOW
  {
    PlainFeed(SHIFTED2);
    PlainFeed(SHIFTED3);
    hide FeedBit;
    assert SHIFTED2[1..] + [false] == SHIFTED3;
    assert SHIFTED3[1..] + [false] == HIGH + LOW;
  }

  lemma SecondNibble()
    ensures FeedBits(XMODEM, HALFWAY, NIBBLE) == HIGH + LOW
  {
    hide FeedBits, FeedBit, Xor;
    FeedFour(HALFWAY, false, false, true, true);
    ShiftedFeeds();
    ShiftedFeedsOn();
  }

  lemma FeedFour(r: register, a: bool, b: bool, c: bool, d: bool)
    ensures FeedBits(XMODEM, r, [a, b, c, d]) ==
            FeedBit(XMODEM, FeedBit(XMODEM, FeedBit(XMODEM, FeedBit(XMODEM, r, a), b), c), d)
  {
    hide FeedBit;
    FeedOne(r, a, [b, c, d]);
    var r1 := FeedBit(XMODEM, r, a);
    FeedOne(r1, b, [c, d]);
    var r2 := FeedBit(XMODEM, r1, b);
    FeedOne(r2, c, [d]);
    var r3 := FeedBit(XMODEM, r2, c);
    FeedOne(r3, d, []);
    assert [a] + [b, c, d] == [a, b, c, d] && [b] + [c, d] == [b, c, d] && [c] + [d] == [c, d] && [d] + [] == [d];
    assert FeedBits(XMODEM, FeedBit(XMODEM, r3, d), []) == FeedBit(XMODEM, r3, d);
    hide FeedBits;
  }

  lemma FeedOne(r: register, b: bool, rest: bits)
    ensures FeedBits(XMODEM, r, [b] + rest) == FeedBits(XMODEM, FeedBit(XMODEM, r, b), rest)
  {
    hide FeedBit;
    assert ([b] + rest)[1..] == rest;
  }
}
