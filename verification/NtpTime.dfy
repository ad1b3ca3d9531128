/**
 NTP timestamps and the on-wire arithmetic (ntp/protocol/ntp.go): sections 6 and 8 of RFC 5905.
 Times are nanoseconds since the Unix epoch.
 */
module NtpTime {
  import opened Words

  const NANOSECONDS_TO_UNIX: int := 2208988800000000000
  const G: int := 1000000000

  /** 5^9, the odd part of 10^9. */
  const ODD: int := 1953125

  /** `Time` with every int64 operation as the program does it. */
  function Time(t: int64): (uint32, uint32) {
    var nsec := WrapInt64(t + NANOSECONDS_TO_UNIX);
    var sec := TruncDiv(nsec, G);
    var shifted := WrapInt64((nsec - sec * G) * TWO_POW_32);
    (sec % TWO_POW_32, TruncDiv(shifted, G) % TWO_POW_32)
  }

  /** `Unix`, in nanoseconds. */
  function Unix(seconds: uint32, fractions: uint32): int {
    var secs := seconds - NANOSECONDS_TO_UNIX / G;
    var nanos := WrapInt64(fractions * G) / TWO_POW_32;
    secs * G + nanos
  }

  /** From 1900 to the roll-over in 2036. */
  predicate EraZero(t: int) {
    0 <= t + NANOSECONDS_TO_UNIX < TWO_POW_32 * G
  }

  /** Nanoseconds within the second. */
  function Rest(t: int): int {
    (t + NANOSECONDS_TO_UNIX) % G
  }

  /** Whole seconds count from 1900, 2208988800 s before 1970, and half a second is half of 2^32. */
  lemma WholeSeconds(s: int)
    requires 0 <= s + 2208988800 < TWO_POW_32
    ensures Time(s * G) == (s + 2208988800, 0) && Unix(s + 2208988800, 0) == s * G
    ensures Time(s * G + 500000000) == (s + 2208988800, 0x8000_0000)
  {
    hide Time;
    var x := s + 2208988800;
    assert s * G + NANOSECONDS_TO_UNIX == G * x;
    ModUnique(G * x, G, x, 0);
    ModUnique(G * x + 500000000, G, x, 500000000);
    TimeInEraZero(s * G);
    TimeInEraZero(s * G + 500000000);
    NoFraction(x);
  }

  lemma NoFraction(seconds: uint32)
    ensures Unix(seconds, 0) == (seconds - 2208988800) * G
  {
  }

  /** In era 0 nothing wraps: seconds and fraction are plain quotients. */
  lemma TimeInEraZero(t: int64)
    requires EraZero(t)
    ensures Time(t).0 == (t + NANOSECONDS_TO_UNIX) / G
    ensures Time(t).1 == Rest(t) * TWO_POW_32 / G
  {
    var nsec := t + NANOSECONDS_TO_UNIX;
    var sec, rest := nsec / G, nsec % G;
    assert nsec - sec * G == rest;
    var shifted := rest * TWO_POW_32;
    hide WrapInt64, TruncDiv;
    Plain(nsec);
    Plain(shifted);
    Quotients(sec, shifted / G);
  }

  /** Nonnegative numbers below 2^63 neither wrap nor divide differently. */
  lemma Plain(x: int)
    requires 0 <= x <= MAX_INT64
    ensures WrapInt64(x) == x && TruncDiv(x, G) == x / G
  {
  }

  lemma Quotients(a: int, b: int)
    requires 0 <= a < TWO_POW_32 && 0 <= b < TWO_POW_32
    ensures a % TWO_POW_32 == a && b % TWO_POW_32 == b
  {
  }

  /** 2^32 is invertible modulo 5^9, so only multiples of 5^9 are hit exactly. */
  lemma ExactFractions(rest: int)
    ensures rest * TWO_POW_32 % G == 0 <==> rest % ODD == 0
  {
    if rest % ODD == 0 {
      var k := rest / ODD;
      assert rest == ODD * k;
      assert rest * TWO_POW_32 == G * (k * 8388608);
      ModUnique(rest * TWO_POW_32, G, k * 8388608, 0);
    }
    if rest * TWO_POW_32 % G == 0 {
      var q := rest * TWO_POW_32 / G;
      assert rest * TWO_POW_32 == G * q;
      assert rest * 8388608 == ODD * q;
      // 8388608 * 1241897 - 1953125 * 5333907 == 1
      assert rest == ODD * (1241897 * q - 5333907 * rest);
      ModUnique(rest, ODD, 1241897 * q - 5333907 * rest, 0);
    }
  }

  lemma FractionBack(rest: int)
    requires 0 <= rest < G
    ensures var f := rest * TWO_POW_32 / G;
            f * G / TWO_POW_32 == if rest * TWO_POW_32 % G == 0 then rest else rest - 1
  {
    var f, lost := rest * TWO_POW_32 / G, rest * TWO_POW_32 % G;
    assert f * G == rest * TWO_POW_32 - lost;
    if lost == 0 {
      ModUnique(f * G, TWO_POW_32, rest, 0);
    } else {
      ModUnique(f * G, TWO_POW_32, rest - 1, TWO_POW_32 - lost);
    }
  }

  /** To NTP format and back loses one nanosecond, except at multiples of 1953125 ns within a second. */
  lemma TimeRoundTrip(t: int64)
    requires EraZero(t)
    ensures Unix(Time(t).0, Time(t).1) == if Rest(t) % ODD == 0 then t else t - 1
  {
    hide Time;
    var rest := Rest(t);
    TimeInEraZero(t);
    ExactFractions(rest);
    FractionBack(rest);
    var f := rest * TWO_POW_32 / G;
    assert WrapInt64(f * G) == f * G;
    assert t + NANOSECONDS_TO_UNIX == G * Time(t).0 + rest;
  }

  /** NTP timestamps order instants as the clock does. */
  lemma TimeOrder(s: int64, t: int64)
    requires EraZero(s) && EraZero(t)
    ensures s < t <==> Time(s).0 < Time(t).0 || (Time(s).0 == Time(t).0 && Time(s).1 < Time(t).1)
  {
    TimeInEraZero(s);
    TimeInEraZero(t);
    hide Time;
    var a, b := Rest(s), Rest(t);
    FractionOrder(a, b);
    FractionOrder(b, a);
    assert s + NANOSECONDS_TO_UNIX == G * Time(s).0 + a && t + NANOSECONDS_TO_UNIX == G * Time(t).0 + b;
  }

  lemma FractionOrder(a: int, b: int)
    requires 0 <= a < G && 0 <= b < G
    ensures a < b ==> a * TWO_POW_32 / G < b * TWO_POW_32 / G
  {
  }

  // ----- offset and delay -------------------------------------------------------------------

  function Offset(t1: int, t2: int, t3: int, t4: int): int {
    TruncDiv((t2 - t1) + (t3 - t4), 2)
  }

  function RoundTripDelay(t1: int, t2: int, t3: int, t4: int): int {
    (t4 - t1) - (t3 - t2)
  }

  /**
   A server ahead by `theta`, reached after `out` and answering over `back` nanoseconds: the delay is
   exact and the offset is wrong by at most half of it, rounded up.
   */
  lemma OffsetError(t1: int, t3: int, theta: int, out: nat, back: nat)
    ensures var t2, t4 := t1 + theta + out, t3 - theta + back;
            && RoundTripDelay(t1, t2, t3, t4) == out + back
            && 2 * Abs(Offset(t1, t2, t3, t4) - theta) <= RoundTripDelay(t1, t2, t3, t4) + 1
  {
  }

  /** The value a timestamp has after a trip through the packet. */
  function OnWire(t: int64): int {
    Unix(Time(t).0, Time(t).1)
  }

  /** With the three packet timestamps in NTP format the error grows by at most 2 ns. */
  lemma OffsetErrorOnWire(t1: int64, t2: int64, t3: int64, t4: int, theta: int, out: nat, back: nat)
    requires EraZero(t1) && EraZero(t2) && EraZero(t3)
    requires t2 == t1 + theta + out && t4 == t3 - theta + back
    ensures 2 * Abs(Offset(OnWire(t1), OnWire(t2), OnWire(t3), t4) - theta) <= out + back + 1 + 4
  {
    TimeRoundTrip(t1);
    TimeRoundTrip(t2);
    TimeRoundTrip(t3);
    hide Unix, Time;
  }
}
