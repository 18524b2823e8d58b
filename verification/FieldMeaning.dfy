/** What the bytes of a field mean, type by type, for every payload; and what the device sends. */
module FieldMeaning {
  import opened Bytes
  import opened Values
  import opened Fields
  import opened FieldCodec

  // ---- Texts ----

  predicate IsHexDigit(c: char, d: nat) {
    d < 16 && c as int == if d < 10 then 48 + d else 55 + d
  }

  /** Two upper-case digits for every byte, the high one first, with single blanks in between. */
  predicate IsHexOf(t: string, s: seq<byte>) {
    && |t| == (if s == [] then 0 else 3 * |s| - 1)
    && forall i :: 0 <= i < |s| ==>
         && IsHexDigit(t[3 * i], s[i] / 16) && IsHexDigit(t[3 * i + 1], s[i] % 16)
         && (i < |s| - 1 ==> t[3 * i + 2] == ' ')
  }

  lemma {:induction false} HexByteIs(b: byte)
    ensures var t := HexByte(b); |t| == 2 && IsHexDigit(t[0], b / 16) && IsHexDigit(t[1], b % 16)
  {
    assert forall d: nat :: d < 16 ==> IsHexDigit(HEX_DIGITS[d], d);
  }

  lemma {:induction false} HexTextIs(s: seq<byte>)
    ensures IsHexOf(HexText(s), s)
  {
    hide HexByte, IsHexDigit;
    if s != [] {
      HexByteIs(s[|s| - 1]);
      if |s| > 1 {
        var front := s[..|s| - 1];
        HexTextIs(front);
        assert HexText(s) == HexText(front) + " " + HexByte(s[|s| - 1]);
        forall i | 0 <= i < |s|
          ensures IsHexDigit(HexText(s)[3 * i], s[i] / 16) && IsHexDigit(HexText(s)[3 * i + 1], s[i] % 16)
          ensures i < |s| - 1 ==> HexText(s)[3 * i + 2] == ' '
        {
          assert i < |front| ==> front[i] == s[i];
        }
      }
    }
  }

  /** The bytes up to the last one that is neither 00 nor FF. */
  predicate IsUnpadded(t: seq<byte>, s: seq<byte>) {
    && t <= s
    && (forall i :: |t| <= i < |s| ==> s[i] == 0 || s[i] == 255)
    && (t != [] ==> t[|t| - 1] != 0 && t[|t| - 1] != 255)
  }

  lemma {:induction false} TrimmedIs(s: seq<byte>)
    ensures IsUnpadded(Trimmed(s), s)
  {
    if s != [] && (s[|s| - 1] == 0 || s[|s| - 1] == 255) {
      TrimmedIs(s[..|s| - 1]);
    }
  }

  /** The decimal digits of u, without leading zeros. */
  predicate IsDecimalOf(t: string, u: nat) {
    && t != "" && (forall i :: 0 <= i < |t| ==> '0' <= t[i] <= '9')
    && (|t| > 1 ==> t[0] != '0')
    && Tens(t) == u
  }

  function Tens(t: string): int {
    if t == "" then 0 else Tens(t[..|t| - 1]) * 10 + (t[|t| - 1] as int - 48)
  }

  lemma {:induction false} DecimalIs(u: nat)
    ensures IsDecimalOf(Decimal(u), u)
    ensures u > 0 ==> Decimal(u)[0] != '0'
  {
    assert forall d: nat :: d < 10 ==> HEX_DIGITS[d] as int == 48 + d;
    var t := Decimal(u);
    if u >= 10 {
      DecimalIs(u / 10);
      assert t[..|t| - 1] == Decimal(u / 10);
    } else {
      assert t[..0] == "";
    }
  }

  /** The name in the first entry for the value. */
  ghost predicate IsEnumName(enums: seq<(int, string)>, v: int, t: string) {
    exists k :: IsFirstEntry(enums, v, k) && enums[k].1 == t
  }

  predicate IsFirstEntry(enums: seq<(int, string)>, v: int, k: int) {
    0 <= k < |enums| && enums[k].0 == v && forall j :: 0 <= j < k ==> enums[j].0 != v
  }

  lemma {:induction false} EnumNameIs(enums: seq<(int, string)>, v: int)
    ensures var name := FindEnumName(enums, v);
            && (name.Some? ==> IsEnumName(enums, v, name.value))
            && (name.None? <==> forall k :: 0 <= k < |enums| ==> enums[k].0 != v)
  {
    if enums == [] {
    } else if enums[0].0 == v {
      assert IsFirstEntry(enums, v, 0);
    } else {
      EnumNameIs(enums[1..], v);
      assert forall k :: 0 <= k < |enums| - 1 ==> enums[1..][k] == enums[k + 1];
      assert forall k :: 0 < k < |enums| ==> enums[k] == enums[1..][k - 1];
      if FindEnumName(enums[1..], v).Some? {
        var k :| IsFirstEntry(enums[1..], v, k) && enums[1..][k].1 == FindEnumName(enums[1..], v).value;
        assert IsFirstEntry(enums, v, k + 1);
      }
    }
  }

  // ---- Values ----

  /** How many bytes the field has; none if the type cannot be read. */
  predicate HasWidth(f: TagField, w: int) {
    match f.ftype
    case U8 | I8 | Bool => w == 1
    case U16 | I16 => w == 2
    case U32 | F32 => w == 4
    case F64 => w == 8
    case String | Enum | Hex => w == f.bytes > 0
    case I32 | Ascii => false
  }

  /** A number without a scale stays a number; with a scale the product is taken, in which a negative number
      counts as its unsigned 64-bit pattern. */
  predicate IsNumberOf(f: TagField, n: int, v: TagValue) {
    if f.scale == 1.0 then v == IntValue(n)
    else v == RealValue((if n < 0 then n + 0x1_0000_0000_0000_0000 else n) as real * f.scale)
  }

  /** x is u in two's complement of 64 bits. */
  predicate IsSigned64(x: int, u: nat) {
    -0x8000_0000_0000_0000 <= x < 0x8000_0000_0000_0000 && (x == u || x == u - 0x1_0000_0000_0000_0000)
  }

  ghost predicate EnumShows(f: TagField, u: nat, x: int, t: string) {
    && IsSigned64(x, u)
    && (if exists k :: 0 <= k < |f.enums| && f.enums[k].0 == x then IsEnumName(f.enums, x, t) else IsDecimalOf(t, u))
  }

  /** What the bytes of the field say. */
  ghost predicate Says(fl: Floats, f: TagField, p: seq<byte>, v: TagValue)
    requires HasWidth(f, |p|)
  {
    var n := Uint(p, f.bigEndian);
    match f.ftype
    case Bool => v == BoolValue(p[0] != 0)
    case U8 | U16 | U32 => IsNumberOf(f, n, v)
    case I8 => IsNumberOf(f, if n < 0x80 then n else n - 0x100, v)
    case I16 => IsNumberOf(f, if n < 0x8000 then n else n - 0x1_0000, v)
    case F32 => v == RealValue(fl.value(4, n) * f.scale)
    case F64 => v == RealValue(fl.value(8, n) * f.scale)
    case Hex => v.TextValue? && IsHexOf(v.s, p)
    case String =>
      v.TextValue? && exists t :: IsUnpadded(t, p) && |t| == |v.s| && forall i :: 0 <= i < |t| ==> v.s[i] as int == t[i]
    case Enum => v.TextValue? && exists x :: EnumShows(f, n % 0x1_0000_0000_0000_0000, x, v.s)
    case _ => false
  }

  lemma {:induction false} WidthIs(f: TagField)
    ensures forall w :: HasWidth(f, w) <==> w == Width(f) > 0
  {
  }

  lemma {:induction false} SaysText(fl: Floats, f: TagField, p: seq<byte>)
    requires HasWidth(f, |p|) && |p| == Width(f) > 0 && f.ftype in {Hex, String}
    ensures Says(fl, f, p, Interpret(fl, f, p))
  {
    hide HexText, Trimmed, Uint, IsHexOf;
    HexTextIs(p);
    TrimmedIs(p);
  }

  lemma {:induction false} SaysEnum(fl: Floats, f: TagField, p: seq<byte>)
    requires HasWidth(f, |p|) && |p| == Width(f) > 0 && f.ftype == Enum
    ensures Says(fl, f, p, Interpret(fl, f, p))
  {
    hide Uint, FindEnumName, Decimal, IsDecimalOf, IsEnumName;
    var u := Uint(p, f.bigEndian) % TWO_64;
    EnumNameIs(f.enums, AsInt64(u));
    DecimalIs(u);
    assert EnumShows(f, u, AsInt64(u), Interpret(fl, f, p).s);
  }

  lemma {:induction false} SaysNumber(fl: Floats, f: TagField, p: seq<byte>)
    requires HasWidth(f, |p|) && |p| == Width(f) > 0 && f.ftype !in {Hex, String, Enum}
    ensures Says(fl, f, p, Interpret(fl, f, p))
  {
    hide Uint;
    UintBound(p, f.bigEndian);
    Pow256Widths();
  }

  /** For every payload: a field has a value exactly if its type is supported and its bytes lie in the payload,
      and the value is what these bytes say. */
  lemma {:induction false} FieldMeans(fl: Floats, f: TagField, payload: seq<byte>)
    ensures var v, w := FieldValue(fl, f, payload), Width(f);
            && (v.Some? <==> exists n :: HasWidth(f, n) && 0 <= f.offset && f.offset + n <= |payload|)
            && (v.Some? ==>
                  && HasWidth(f, w) && 0 <= f.offset && f.offset + w <= |payload|
                  && Says(fl, f, payload[f.offset..f.offset + w], v.value))
  {
    hide Interpret, Says;
    var v, w := FieldValue(fl, f, payload), Width(f);
    WidthIs(f);
    if v.Some? {
      var p := payload[f.offset..f.offset + w];
      if f.ftype in {Hex, String} {
        SaysText(fl, f, p);
      } else if f.ftype == Enum {
        SaysEnum(fl, f, p);
      } else {
        SaysNumber(fl, f, p);
      }
    }
  }

  // ---- What the device sends ----

  predicate IsCopies(s: seq<byte>, b: int, n: int) {
    |s| == n && forall i :: 0 <= i < n ==> s[i] == b
  }

  /** The w bytes are the number n in two's complement. */
  ghost predicate IsWord(s: seq<byte>, bigEndian: bool, n: int, w: nat) {
    |s| == w && exists k: int :: Uint(s, bigEndian) == n + k * Pow256(w)
  }

  /** In cycle c: flags alternate, numbers count through the range of their type from its minimum on, floats
      from 0 to 100, enums go through their table, texts through the alphabet, and everything else through all
      bytes; texts and hex fields have at least one byte. A 32-bit signed field is not sent at all. */
  ghost predicate Sends(fl: Floats, f: TagField, c: nat, s: seq<byte>) {
    var n := if f.bytes < 1 then 1 else f.bytes;
    match f.ftype
    case Bool => s == [c % 2]
    case U8 => IsWord(s, f.bigEndian, c, 1)
    case U16 => IsWord(s, f.bigEndian, c, 2)
    case U32 => IsWord(s, f.bigEndian, c, 4)
    case I8 => IsWord(s, f.bigEndian, c - 0x80, 1)
    case I16 => IsWord(s, f.bigEndian, c - 0x8000, 2)
    case F32 => IsWord(s, f.bigEndian, fl.bits(4, c % 101), 4)
    case F64 => IsWord(s, f.bigEndian, fl.bits(8, c % 101), 8)
    case Enum => f.bytes >= 0 && IsWord(s, f.bigEndian, if f.enums == [] then c else f.enums[c % |f.enums|].0, f.bytes)
    case String => IsCopies(s, 97 + c % 26, n)
    case Hex => IsCopies(s, c % 256, n)
    case Ascii => IsCopies(s, c % 256, n)
    case I32 => s == []
  }

  lemma {:induction false} DigitsAreWord(v: nat, n: int, k: int, w: nat, bigEndian: bool)
    requires v == n + k * Pow256(w)
    ensures IsWord(Digits(v, w, bigEndian), bigEndian, n, w)
  {
    hide Digits, Uint;
    DigitsRoundTrip(v, w, bigEndian);
    var p := Pow256(w);
    var q := v / p;
    assert v % p == v - q * p == n + (k - q) * p by {
      MulDistributes(p, k, q);
    }
  }

  /** 2^64 is a multiple of 256^w for every width of up to 8 bytes. */
  lemma {:induction false} WordsDivide(w: nat)
    requires w <= 8
    ensures Pow256(w) * Pow256(8 - w) == TWO_64
    decreases 8 - w
  {
    Pow256Widths();
    if w < 8 {
      WordsDivide(w + 1);
      assert Pow256(w + 1) == 256 * Pow256(w) && Pow256(8 - w) == 256 * Pow256(8 - (w + 1));
      assert Pow256(w) * (256 * Pow256(8 - (w + 1))) == (256 * Pow256(w)) * Pow256(8 - (w + 1));
    }
  }

  lemma {:induction false} BitsAreWord(v: int, w: nat, bigEndian: bool)
    requires -0x8000_0000_0000_0000 <= v < 0x8000_0000_0000_0000 && w <= 8
    ensures IsWord(Digits(AsBits(v), w, bigEndian), bigEndian, v, w)
  {
    hide Digits, Uint, Pow256;
    WordsDivide(w);
    assert TWO_64 == Pow256(8 - w) * Pow256(w);
    DigitsAreWord(AsBits(v), v, if v < 0 then Pow256(8 - w) else 0, w, bigEndian);
  }

  lemma {:induction false} CountedAreWord(c: nat, w: nat, bigEndian: bool)
    ensures IsWord(Digits(c % Pow256(w), w, bigEndian), bigEndian, c, w)
  {
    hide Digits, Uint, IsWord;
    var p := Pow256(w);
    assert c % p == c + (-(c / p)) * p by {
      MulDistributes(p, 0, c / p);
    }
    DigitsAreWord(c % p, c, -(c / p), w, bigEndian);
  }

  lemma {:induction false} ShiftedWord(s: seq<byte>, bigEndian: bool, n: int, m: int, j: int, w: nat)
    requires IsWord(s, bigEndian, n, w) && n == m + j * Pow256(w)
    ensures IsWord(s, bigEndian, m, w)
  {
    hide Uint;
    var p := Pow256(w);
    var k :| Uint(s, bigEndian) == n + k * p;
    assert Uint(s, bigEndian) == m + (k + j) * p by {
      assert (k + j) * p == k * p + j * p;
    }
  }

  lemma {:induction false} SignedSent(f: TagField, c: nat, w: nat)
    requires 1 <= w <= 2
    ensures var v := c % Pow256(w) - Pow256(w) / 2;
            && -0x8000_0000_0000_0000 <= v < 0x8000_0000_0000_0000
            && IsWord(Digits(AsBits(v), w, f.bigEndian), f.bigEndian, c - Pow256(w) / 2, w)
  {
    hide Digits, IsWord, AsBits;
    Pow256Widths();
    var p := Pow256(w);
    var v := c % p - p / 2;
    BitsAreWord(v, w, f.bigEndian);
    assert v == (c - p / 2) + (-(c / p)) * p by {
      MulDistributes(p, 0, c / p);
    }
    ShiftedWord(Digits(AsBits(v), w, f.bigEndian), f.bigEndian, v, c - p / 2, -(c / p), w);
  }

  lemma {:induction false} FieldBytesMean(fl: Floats, f: TagField, c: nat)
    requires Writable(f)
    ensures Sends(fl, f, c, FieldBytes(fl, f, c))
  {
    hide Digits, IsWord, Pow256, AsBits;
    Pow256Widths();
    var w := FieldTypeBytes(f.ftype);
    match f.ftype
    case Bool =>
    case U8 | U16 | U32 => CountedAreWord(c, w, f.bigEndian);
    case I8 | I16 => SignedSent(f, c, w);
    case I32 =>
    case F32 => DigitsAreWord(fl.bits(4, c % 101), fl.bits(4, c % 101), 0, 4, f.bigEndian);
    case F64 => DigitsAreWord(fl.bits(8, c % 101), fl.bits(8, c % 101), 0, 8, f.bigEndian);
    case Enum =>
      if f.enums == [] {
        CountedAreWord(c, f.bytes, f.bigEndian);
      } else {
        assert f.enums[c % |f.enums|] in f.enums;
        BitsAreWord(f.enums[c % |f.enums|].0, f.bytes, f.bigEndian);
      }
    case String =>
    case _ =>
  }
}
