/**
 Machine integers and big-endian byte strings.

 Go and C fix the width of every integer. A value that can wrap is given a subset type
 and every conversion that truncates is written out with one of the functions below.
 */
module Words {

  type byte = x: int | 0 <= x < 0x100
  type uint16 = x: int | 0 <= x < 0x1_0000
  type uint32 = x: int | 0 <= x < 0x1_0000_0000
  type uint64 = x: int | 0 <= x < 0x1_0000_0000_0000_0000
  type int8 = x: int | -0x80 <= x < 0x80
  type int16 = x: int | -0x8000 <= x < 0x8000
  type int32 = x: int | -0x8000_0000 <= x < 0x8000_0000
  type int64 = x: int | -0x8000_0000_0000_0000 <= x < 0x8000_0000_0000_0000

  const MAX_UINT32: int := 0xFFFF_FFFF
  const MAX_INT64: int := 0x7FFF_FFFF_FFFF_FFFF
  const TWO_POW_32: int := 0x1_0000_0000
  const TWO_POW_64: int := 0x1_0000_0000_0000_0000

  datatype Option<+T> = None | Some(value: T)

  datatype Fallible<+T, +E> = Ok(value: T) | Err(error: E)

  /** A refusal is an error that is returned; a panic takes the program down. */
  datatype Failure<+E> = Refused(error: E) | Panicked

  /** A list read so far, in front of the rest of it or of the error that ends the reading. */
  function Prepend<T, E>(xs: seq<T>, r: Fallible<seq<T>, E>): Fallible<seq<T>, E> {
    if r.Err? then r else Ok(xs + r.value)
  }

  lemma PrependNothing<T, E>(r: Fallible<seq<T>, E>)
    ensures Prepend([], r) == r
  {
    if r.Ok? {
      assert [] + r.value == r.value;
    }
  }

  lemma PrependDone<T, E>(xs: seq<T>, e: E)
    ensures Prepend<T, E>(xs, Ok([])) == Ok(xs)
    ensures Prepend(xs, Err(e)) == Err(e)
  {
    assert xs + [] == xs;
  }

  lemma PrependFirst<T, E>(x: T, r: Fallible<seq<T>, E>)
    ensures Prepend([x], r) == if r.Err? then r else Ok([x] + r.value)
    ensures r.Ok? ==> Prepend([x], r).value[0] == x
  {
  }

  lemma PrependOne<T, E>(xs: seq<T>, x: T, rest: Fallible<seq<T>, E>)
    ensures Prepend(xs, Prepend([x], rest)) == Prepend(xs + [x], rest)
  {
    if rest.Ok? {
      Associative(xs, [x], rest.value);
    }
  }

  /** Division that truncates toward zero, the integer `/` of Go and C. */
  function TruncDiv(a: int, b: int): int
    requires b != 0
  {
    if (a >= 0) == (b > 0) then Abs(a) / Abs(b) else -(Abs(a) / Abs(b))
  }

  function Abs(a: int): nat {
    if a < 0 then -a else a
  }

  /** Reduction of an integer to the value a uint64 holds. */
  function WrapUint64(x: int): uint64 {
    x % TWO_POW_64
  }

  /** Reduction of an integer to the value an int64 holds. */
  function WrapInt64(x: int): int64 {
    var u := x % TWO_POW_64;
    if u < TWO_POW_64 / 2 then u else u - TWO_POW_64
  }

  lemma WrapInt64Once(x: int)
    ensures -MAX_INT64 - 1 <= x <= MAX_INT64 ==> WrapInt64(x) == x
  {
  }

  /** An int64 sum may wrap on the way: only the total counts. */
  lemma WrapInt64Sum(a: int, b: int)
    ensures WrapInt64(WrapInt64(a) + b) == WrapInt64(a + b)
  {
    var k := (a - WrapInt64(a)) / TWO_POW_64;
    assert a + b == WrapInt64(a) + b + TWO_POW_64 * k;
    ModUnique(a + b, TWO_POW_64, (WrapInt64(a) + b) / TWO_POW_64 + k, (WrapInt64(a) + b) % TWO_POW_64);
  }

  /** The number of values that fit in `width` bytes. */
  function Radix(width: nat): (r: nat)
    ensures r > 0
  {
    if width == 0 then 1 else 0x100 * Radix(width - 1)
  }

  lemma RadixValues()
    ensures Radix(1) == 0x100 && Radix(2) == 0x1_0000 && Radix(4) == TWO_POW_32 && Radix(8) == TWO_POW_64
  {
    assert Radix(3) == 0x100 * Radix(2);
    assert Radix(5) == 0x100 * Radix(4);
    assert Radix(7) == 0x100 * Radix(6);
  }

  /** The low `width` bytes of `v`, most significant first. */
  function BigEndian(v: nat, width: nat): (b: seq<byte>)
    ensures |b| == width
  {
    if width == 0 then [] else BigEndian(v / 0x100, width - 1) + [v % 0x100]
  }

  /** The unsigned value of a byte string, most significant byte first. */
  function Unsigned(b: seq<byte>): nat {
    if b == [] then 0 else 0x100 * Unsigned(b[..|b| - 1]) + b[|b| - 1]
  }

  lemma {:induction false} UnsignedBound(b: seq<byte>)
    ensures Unsigned(b) < Radix(|b|)
  {
    if b != [] {
      UnsignedBound(b[..|b| - 1]);
    }
  }

  /** Writing then reading keeps the value modulo the width. */
  lemma {:induction false} UnsignedOfBigEndian(v: nat, width: nat)
    ensures Unsigned(BigEndian(v, width)) == v % Radix(width)
  {
    if width != 0 {
      var b := BigEndian(v, width);
      assert b[..|b| - 1] == BigEndian(v / 0x100, width - 1);
      UnsignedOfBigEndian(v / 0x100, width - 1);
      DigitSplit(v, Radix(width - 1));
    }
  }

  lemma DigitSplit(v: nat, r: nat)
    requires r > 0
    ensures 0x100 * (v / 0x100 % r) + v % 0x100 == v % (0x100 * r)
  {
    var q := v / 0x100 / r;
    var rest := 0x100 * (v / 0x100 % r) + v % 0x100;
    assert v / 0x100 == r * q + v / 0x100 % r;
    assert v == 0x100 * r * q + rest;
    ModUnique(v, 0x100 * r, q, rest);
  }

  lemma ModUnique(v: int, m: int, q: int, rest: int)
    requires m > 0 && v == m * q + rest && 0 <= rest < m
    ensures v % m == rest && v / m == q
  {
    var k := v / m - q;
    assert v == m * (v / m) + v % m;
    assert m * k == rest - v % m;
    assert k > 0 ==> m * k >= m;
    assert k < 0 ==> m * k <= -m;
  }

  /** A value that fits is read back unchanged. */
  lemma UnsignedRoundTrip(v: nat, width: nat)
    requires v < Radix(width)
    ensures Unsigned(BigEndian(v, width)) == v
  {
    UnsignedOfBigEndian(v, width);
    ModUnique(v, Radix(width), 0, v);
  }

  /** Reading then writing gives back the same bytes: the encoding is a bijection. */
  lemma {:induction false} BigEndianOfUnsigned(b: seq<byte>)
    ensures BigEndian(Unsigned(b), |b|) == b
  {
    if b != [] {
      BigEndianOfUnsigned(b[..|b| - 1]);
      assert b == b[..|b| - 1] + [b[|b| - 1]];
    }
  }

  /** Two's complement: the bits of a signed value read as an unsigned one. */
  function ToUnsigned(v: int, width: nat): nat
    requires 0 <= v + Radix(width)
  {
    if v < 0 then v + Radix(width) else v
  }

  function ToSigned(u: nat, width: nat): int {
    if 2 * u < Radix(width) then u else u - Radix(width)
  }

  lemma SignedRoundTrip(v: int, width: nat)
    requires 0 <= 2 * v + Radix(width) && 2 * v < Radix(width)
    ensures ToUnsigned(v, width) < Radix(width)
    ensures ToSigned(ToUnsigned(v, width), width) == v
    ensures ToSigned(Unsigned(BigEndian(ToUnsigned(v, width), width)), width) == v
  {
    UnsignedRoundTrip(ToUnsigned(v, width), width);
  }

  /** `s` with the bytes from `pos` on overwritten by `x`, the effect of copying `x` into a buffer. */
  function Splice<T>(s: seq<T>, pos: nat, x: seq<T>): (r: seq<T>)
    requires pos + |x| <= |s|
    ensures |r| == |s|
  {
    s[..pos] + x + s[pos + |x|..]
  }

  /** Two writes one after the other are one longer write. */
  lemma SpliceAppend<T>(s: seq<T>, pos: nat, x: seq<T>, y: seq<T>)
    requires pos + |x| + |y| <= |s|
    ensures Splice(Splice(s, pos, x), pos + |x|, y) == Splice(s, pos, x + y)
  {
  }

  /** The first `n` elements, or all of them when there are fewer. */
  function Cut<T>(s: seq<T>, n: nat): seq<T> {
    if |s| <= n then s else s[..n]
  }

  lemma CutAppend<T>(a: seq<T>, b: seq<T>, n: nat)
    ensures Cut(a + b, n) == if |a| <= n then a + Cut(b, n - |a|) else Cut(a, n)
  {
  }

  lemma CutPrefix<T>(s: seq<T>, k: nat, n: nat)
    requires n < k <= |s|
    ensures Cut(s[..k], n) == Cut(s, n)
  {
    assert s[..k][..n] == s[..n];
  }

  lemma SliceOfPrefix<T>(b: seq<T>, n: nat, i: nat, j: nat)
    requires i <= j <= n <= |b|
    ensures b[..n][i..j] == b[i..j]
  {
  }

  lemma SliceOfSlice<T>(s: seq<T>, a: nat, b: nat, i: nat, j: nat)
    requires a <= b <= |s| && i <= j <= b - a
    ensures s[a..b][i..j] == s[a + i..a + j]
  {
    var x, y, z := s[a..b], s[a..b][i..j], s[a + i..a + j];
    forall k | 0 <= k < j - i
      ensures y[k] == z[k]
    {
      assert y[k] == x[i + k];
      assert x[i + k] == s[a + (i + k)];
      assert z[k] == s[(a + i) + k];
    }
  }

  lemma DropTwice<T>(s: seq<T>, a: nat, b: nat)
    requires a + b <= |s|
    ensures s[a..][b..] == s[a + b..]
  {
  }

  lemma AfterPrefix<T>(s: seq<T>, n: nat, x: seq<T>, rest: seq<T>)
    requires n <= |s| && s[n..] == x + rest
    ensures n + |x| <= |s| && s[n + |x|..] == rest
  {
    DropTwice(s, n, |x|);
    assert (x + rest)[|x|..] == rest;
  }

  lemma Associative<T>(a: seq<T>, b: seq<T>, c: seq<T>)
    ensures (a + b) + c == a + (b + c)
  {
  }

  // ----- fields of a byte string ------------------------------------------------------------

  function Uint(b: seq<byte>, at: nat, width: nat): (v: nat)
    requires at + width <= |b|
    ensures v < Radix(width)
  {
    UnsignedBound(b[at..at + width]);
    Unsigned(b[at..at + width])
  }

  function Uint16(b: seq<byte>, at: nat): uint16
    requires at + 2 <= |b|
  {
    RadixValues();
    Uint(b, at, 2)
  }

  function Uint32(b: seq<byte>, at: nat): uint32
    requires at + 4 <= |b|
  {
    RadixValues();
    Uint(b, at, 4)
  }

  function Uint64(b: seq<byte>, at: nat): uint64
    requires at + 8 <= |b|
  {
    RadixValues();
    Uint(b, at, 8)
  }

  function Int32(b: seq<byte>, at: nat): int32
    requires at + 4 <= |b|
  {
    RadixValues();
    ToSigned(Uint32(b, at), 4)
  }

  lemma UintOfSlice(b: seq<byte>, at: nat, v: nat, width: nat)
    requires at + width <= |b| && v < Radix(width) && b[at..at + width] == BigEndian(v, width)
    ensures Uint(b, at, width) == v
  {
    UnsignedRoundTrip(v, width);
  }

  /** A field read inside a longer byte string is the field of its prefix. */
  lemma PrefixUint(b: seq<byte>, e: seq<byte>, at: nat, v: nat, width: nat)
    requires |e| <= |b| && b[..|e|] == e && at + width <= |e|
    requires v < Radix(width) && e[at..at + width] == BigEndian(v, width)
    ensures Uint(b, at, width) == v
  {
    hide BigEndian, Uint;
    SliceOfPrefix(b, |e|, at, at + width);
    UintOfSlice(b, at, v, width);
  }

  function Signed32(v: int32): (b: seq<byte>)
    ensures |b| == 4
  {
    RadixValues();
    BigEndian(ToUnsigned(v, 4), 4)
  }

  lemma Signed32RoundTrip(b: seq<byte>, at: nat, v: int32)
    requires at + 4 <= |b| && b[at..at + 4] == Signed32(v)
    ensures Int32(b, at) == v
  {
    RadixValues();
    SignedRoundTrip(v, 4);
  }

  lemma TwoBytes(b: seq<byte>, at: nat)
    requires at + 2 <= |b|
    ensures Uint16(b, at) == 0x100 * (b[at] as int) + b[at + 1] as int
  {
    var w := b[at..at + 2];
    assert w[..1] == [b[at]] && w[..1][..0] == [];
    assert Unsigned(w[..1]) == b[at];
  }

  /** Digit `i` of a written number: the first byte is the most significant one. */
  lemma {:induction false} BigEndianDigit(v: nat, width: nat, i: nat)
    requires i < width
    ensures BigEndian(v, width)[i] == v / Radix(width - 1 - i) % 0x100
    decreases width
  {
    if i < width - 1 {
      BigEndianDigit(v / 0x100, width - 1, i);
      QuotientTwice(v, 0x100, Radix(width - 2 - i));
    }
  }

  lemma QuotientTwice(v: nat, a: nat, b: nat)
    requires a > 0 && b > 0
    ensures a * b > 0 && v / a / b == v / (a * b)
  {
    var q, r := v / a, v % a;
    var p, s := q / b, q % b;
    assert v == a * q + r && q == b * p + s;
    Nested(v, a, b, q, r, p, s);
  }

  lemma Nested(v: nat, a: nat, b: nat, q: nat, r: nat, p: nat, s: nat)
    requires v == a * q + r && q == b * p + s && r < a && s < b
    ensures a * b > 0 && v / (a * b) == p
  {
    var m, t := a * b, a * s;
    Expand(a, b, p, s);
    Room(a, b, s);
    ModUnique(v, m, p, t + r);
  }

  lemma Expand(a: int, b: int, p: int, s: int)
    ensures a * (b * p + s) == (a * b) * p + a * s
  {
  }

  lemma Room(a: nat, b: nat, s: nat)
    requires s < b && a > 0
    ensures 0 <= a * s <= a * b - a && a * b > 0
  {
    assert a * (b - 1 - s) >= 0;
    assert a * (b - 1 - s) == a * b - a - a * s;
  }

  /** Two's complement: the same number modulo the range. */
  lemma SignedIsModular(v: int, width: nat)
    requires 0 <= 2 * v + Radix(width) && 2 * v < Radix(width)
    ensures ToUnsigned(v, width) < Radix(width) && (ToUnsigned(v, width) - v) % Radix(width) == 0
  {
    var r := Radix(width);
    hide Radix;
    ModUnique(ToUnsigned(v, width) - v, r, if v < 0 then 1 else 0, 0);
  }
}
