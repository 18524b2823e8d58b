/** Byte strings and the unsigned integers stored in them: the two-endian reader of the
    frame decoder and the two-endian writer of the frame generator, and the round trip. */
module Bytes {

  type byte = x: int | 0 <= x < 256

  type int32 = x: int | -0x8000_0000 <= x < 0x8000_0000

  const TWO_64: nat := 0x1_0000_0000_0000_0000

  /** The bit pattern of a signed 32-bit integer converted to 64 unsigned bits. */
  function AsUint64(x: int32): (u: nat)
  {
    if x < 0 then x + TWO_64 else x
  }

  function Pow256(n: nat): (p: nat)
    ensures p > 0
  {
    if n == 0 then 1 else 256 * Pow256(n - 1)
  }

  /** The number whose base-256 digits are s, most significant digit first. */
  function BigEndianValue(s: seq<byte>): nat
  {
    if s == [] then 0 else 256 * BigEndianValue(s[..|s| - 1]) + s[|s| - 1]
  }

  /** The number whose base-256 digits are s, least significant digit first. */
  function LittleEndianValue(s: seq<byte>): nat
  {
    if s == [] then 0 else s[0] + 256 * LittleEndianValue(s[1..])
  }

  function Uint(s: seq<byte>, bigEndian: bool): nat
  {
    if bigEndian then BigEndianValue(s) else LittleEndianValue(s)
  }

  /** The n low-order base-256 digits of v. */
  function Digits(v: nat, n: nat, bigEndian: bool): (s: seq<byte>)
    ensures |s| == n
  {
    if n == 0 then []
    else if bigEndian then Digits(v / 256, n - 1, true) + [v % 256]
    else [v % 256] + Digits(v / 256, n - 1, false)
  }

  lemma {:induction false} UintBound(s: seq<byte>, bigEndian: bool)
    ensures Uint(s, bigEndian) < Pow256(|s|)
    decreases |s|
  {
    if s != [] {
      if bigEndian {
        UintBound(s[..|s| - 1], true);
      } else {
        UintBound(s[1..], false);
      }
    }
  }

  /** Reading back n written digits gives the value modulo 256^n. */
  lemma {:induction false} DigitsRoundTrip(v: nat, n: nat, bigEndian: bool)
    ensures Uint(Digits(v, n, bigEndian), bigEndian) == v % Pow256(n)
  {
    if n > 0 {
      DigitsRoundTrip(v / 256, n - 1, bigEndian);
      var s := Digits(v, n, bigEndian);
      if bigEndian {
        assert s[..n - 1] == Digits(v / 256, n - 1, true);
      } else {
        assert s[1..] == Digits(v / 256, n - 1, false);
      }
      ModByDigit(v, Pow256(n - 1));
    }
  }

  lemma {:induction false} ModByDigit(v: nat, p: nat)
    requires p > 0
    ensures v % (256 * p) == 256 * ((v / 256) % p) + v % 256
  {
    var q, r := v / 256, v % 256;
    var a, b := q / p, q % p;
    assert v == 256 * q + r && q == p * a + b;
    assert 256 * (p * a) == (256 * p) * a;
    assert v == (256 * p) * a + (256 * b + r);
    assert 0 <= 256 * b + r < 256 * p;
    DivModUnique(v, 256 * p, a, 256 * b + r);
  }

  lemma {:induction false} DivModUnique(v: int, d: int, q: int, r: int)
    requires d > 0 && v == d * q + r && 0 <= r < d
    ensures v / d == q && v % d == r
  {
    var q', r' := v / d, v % d;
    MulDistributes(d, q, q');
    if q > q' {
      MulAtLeast(d, q - q');
    } else if q < q' {
      MulAtLeast(d, q' - q);
      MulDistributes(d, q', q);
    }
  }

  lemma {:induction false} MulDistributes(d: int, x: int, y: int)
    ensures d * (x - y) == d * x - d * y
  {
  }

  lemma {:induction false} MulAtLeast(d: int, k: int)
    requires d > 0 && k > 0
    ensures d * k >= d
  {
  }

  /** A value that fits in n bytes is read back unchanged. */
  lemma {:induction false} DigitsExact(v: nat, n: nat, bigEndian: bool)
    requires v < Pow256(n)
    ensures Uint(Digits(v, n, bigEndian), bigEndian) == v
  {
    DigitsRoundTrip(v, n, bigEndian);
    DivModUnique(v, Pow256(n), 0, v);
  }

  lemma {:induction false} DivStep(v: nat, k: nat)
    ensures v / 256 / Pow256(k) == v / Pow256(k + 1)
  {
    var q, r := v / 256, v % 256;
    var p := Pow256(k);
    var a, b := q / p, q % p;
    assert v == 256 * q + r && q == p * a + b;
    assert 256 * (p * a) == (256 * p) * a;
    assert v == (256 * p) * a + (256 * b + r);
    DivModUnique(v, 256 * p, a, 256 * b + r);
  }

  /** Digit k of either layout is the byte a right shift selects. */
  lemma {:induction false} DigitAt(v: nat, n: nat, bigEndian: bool, i: nat)
    requires i < n
    ensures var k := if bigEndian then n - 1 - i else i;
            Digits(v, n, bigEndian)[i] == (v / Pow256(k)) % 256
    decreases n
  {
    var k := if bigEndian then n - 1 - i else i;
    if k > 0 {
      DigitAt(v / 256, n - 1, bigEndian, if bigEndian then i else i - 1);
      DivStep(v, k - 1);
    }
  }

  /** Byte i is the digit its place says, counted from the end in one order and from the front in the other. */
  lemma {:induction false} UintDigit(s: seq<byte>, bigEndian: bool, i: nat)
    requires i < |s|
    ensures s[i] == (Uint(s, bigEndian) / Pow256(if bigEndian then |s| - 1 - i else i)) % 256
    ensures Uint(s, bigEndian) < Pow256(|s|)
    decreases |s|
  {
    UintBound(s, bigEndian);
    var k, v := if bigEndian then |s| - 1 - i else i, Uint(s, bigEndian);
    if k > 0 {
      var rest := if bigEndian then s[..|s| - 1] else s[1..];
      UintDigit(rest, bigEndian, if bigEndian then i else i - 1);
      DivStep(v, k - 1);
      assert v / 256 == Uint(rest, bigEndian);
    }
  }

  lemma {:induction false} ModShiftIn(a: nat, d: nat)
    ensures ((a % TWO_64) * 256 + d) % TWO_64 == (a * 256 + d) % TWO_64
  {
    var q := a / TWO_64;
    var u := (a % TWO_64) * 256 + d;
    assert a * 256 + d == u + TWO_64 * (256 * q);
    var x, r := u / TWO_64, u % TWO_64;
    DivModUnique(a * 256 + d, TWO_64, x + 256 * q, r);
  }

  /** The decoder's accumulate loop over n bytes at off, in 64-bit arithmetic. */
  method ReadUint(p: seq<byte>, off: nat, n: nat, bigEndian: bool) returns (v: nat)
    requires off + n <= |p|
    ensures v == Uint(p[off..off + n], bigEndian) % TWO_64
    ensures n <= 8 ==> v == Uint(p[off..off + n], bigEndian)
  {
    v := 0;
    ghost var s := p[off..off + n];
    if bigEndian {
      for i := 0 to n
        invariant v == BigEndianValue(s[..i]) % TWO_64
      {
        ModShiftIn(BigEndianValue(s[..i]), s[i]);
        assert s[..i + 1][..i] == s[..i];
        v := (v * 256 + p[off + i]) % TWO_64;
      }
      assert s[..n] == s;
    } else {
      for i := n downto 0
        invariant v == LittleEndianValue(s[i..]) % TWO_64
      {
        ModShiftIn(LittleEndianValue(s[i + 1..]), s[i]);
        assert s[i..][1..] == s[i + 1..];
        v := (v * 256 + p[off + i]) % TWO_64;
      }
      assert s[0..] == s;
    }
    if n <= 8 {
      ReadExact(s, bigEndian);
    }
  }

  /** Up to eight bytes fit in 64 bits: nothing is lost. */
  lemma {:induction false} ReadExact(s: seq<byte>, bigEndian: bool)
    requires |s| <= 8
    ensures Uint(s, bigEndian) % TWO_64 == Uint(s, bigEndian)
  {
    UintBound(s, bigEndian);
    Pow256Monotone(|s|, 8);
    Pow256Widths();
  }

  lemma {:induction false} Pow256Widths()
    ensures Pow256(1) == 0x100 && Pow256(2) == 0x1_0000 && Pow256(4) == 0x1_0000_0000 && Pow256(8) == TWO_64
  {
    assert Pow256(6) == 0x1_0000_0000_0000;
  }

  lemma {:induction false} Pow256Monotone(m: nat, n: nat)
    requires m <= n
    ensures Pow256(m) <= Pow256(n)
    decreases n
  {
    if m < n {
      Pow256Monotone(m, n - 1);
    }
  }

  /** The generator's shift-and-push loop. The source shifts a 64-bit value, so n is at most 8. */
  method WriteUint(out: seq<byte>, v: nat, n: nat, bigEndian: bool) returns (r: seq<byte>)
    requires n <= 8
    ensures r == out + Digits(v, n, bigEndian)
  {
    r := out;
    ghost var d := Digits(v, n, bigEndian);
    for i := 0 to n
      invariant r == out + d[..i]
    {
      DigitAt(v, n, bigEndian, i);
      var k := if bigEndian then n - 1 - i else i;
      assert d[..i + 1] == d[..i] + [d[i]];
      r := r + [(v / Pow256(k)) % 256];
    }
    assert d[..n] == d;
  }
}
