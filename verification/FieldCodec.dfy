/** The values of protocol fields: how the data source reads them from a payload, how the simulated
    device writes them, and that the one undoes the other. */
module FieldCodec {
  import opened Bytes
  import opened Framing
  import opened Values
  import opened Fields
  import opened FrameEncoder

  /** How the platform lays out floating point numbers of 4 and 8 bytes. */
  datatype Floats = Floats(bits: (nat, nat) -> nat, value: (nat, nat) -> real)

  // ---- Reading ----

  function AsInt64(u: nat): (x: int) {
    if u < TWO_64 / 2 then u else u - TWO_64
  }

  const HEX_DIGITS: string := "0123456789ABCDEF"

  function HexByte(b: byte): string {
    [HEX_DIGITS[b / 16], HEX_DIGITS[b % 16]]
  }

  /** Upper-case hexadecimal text, bytes separated by blanks. */
  function HexText(s: seq<byte>): string {
    if s == [] then ""
    else if |s| == 1 then HexByte(s[0])
    else HexText(s[..|s| - 1]) + " " + HexByte(s[|s| - 1])
  }

  function Decimal(u: nat): string {
    if u < 10 then [HEX_DIGITS[u]] else Decimal(u / 10) + [HEX_DIGITS[u % 10]]
  }

  function DecimalValue(s: string): (v: int)
  {
    if s == [] then 0 else DecimalValue(s[..|s| - 1]) * 10 + (s[|s| - 1] as int - '0' as int)
  }

  predicate IsDigit(c: char) {
    '0' <= c <= '9'
  }

  /** Decimal text consists of digits and determines the number. */
  lemma {:induction false} DecimalText(u: nat)
    ensures DecimalValue(Decimal(u)) == u && Decimal(u) != ""
    ensures forall i :: 0 <= i < |Decimal(u)| ==> IsDigit(Decimal(u)[i])
  {
    if u >= 10 {
      DecimalText(u / 10);
      var s := Decimal(u);
      assert s[..|s| - 1] == Decimal(u / 10);
    } else {
      assert Decimal(u)[..0] == [];
    }
  }

  /** The bytes as text, without the padding at the end. */
  function Trimmed(s: seq<byte>): seq<byte> {
    if s != [] && (s[|s| - 1] == 0x00 || s[|s| - 1] == 0xFF) then Trimmed(s[..|s| - 1]) else s
  }

  function Text(s: seq<byte>): string {
    seq(|s|, i requires 0 <= i < |s| => s[i] as char)
  }

  function FindEnumName(enums: seq<(int, string)>, v: int): Option<string> {
    if enums == [] then None
    else if enums[0].0 == v then Some(enums[0].1)
    else FindEnumName(enums[1..], v)
  }

  /** The width of a field: fixed by its type, or configured. */
  function Width(f: TagField): int {
    if f.ftype in {String, Enum, Hex} then f.bytes else FieldTypeBytes(f.ftype)
  }

  predicate Signed(t: FieldType) {
    t in {I8, I16, I32}
  }

  /** The 64-bit pattern of an integer field: two's complement is extended to the left. */
  function Extended(f: TagField, u: nat): (r: nat)
    requires 0 < Width(f) <= 8 && u < Pow256(Width(f))
  {
    Pow256Monotone(Width(f), 8);
    Pow256Widths();
    if Signed(f.ftype) && Width(f) < 8 && u >= Pow256(Width(f)) / 2 then u + TWO_64 - Pow256(Width(f)) else u
  }

  /** What one field says, given its bytes. */
  function Interpret(fl: Floats, f: TagField, p: seq<byte>): TagValue
    requires |p| == Width(f) > 0
  {
    match f.ftype
    case Bool => BoolValue(p[0] != 0)
    case Hex => TextValue(HexText(p))
    case String => TextValue(Text(Trimmed(p)))
    case Enum =>
      var u := Uint(p, f.bigEndian) % TWO_64;
      var name := FindEnumName(f.enums, AsInt64(u));
      TextValue(if name.Some? then name.value else Decimal(u))
    case F32 => RealValue(fl.value(4, Uint(p, f.bigEndian)) * f.scale)
    case F64 => RealValue(fl.value(8, Uint(p, f.bigEndian)) * f.scale)
    case _ =>
      UintBound(p, f.bigEndian);
      var u := Extended(f, Uint(p, f.bigEndian));
      if f.scale != 1.0 then RealValue(u as real * f.scale) else IntValue(AsInt64(u))
  }

  /** The value of a field in a payload; None if it does not lie in it or its type is not supported. */
  function FieldValue(fl: Floats, f: TagField, payload: seq<byte>): (v: Option<TagValue>)
  {
    if Width(f) <= 0 || f.offset < 0 || f.offset + Width(f) > |payload| then None
    else Some(Interpret(fl, f, payload[f.offset..f.offset + Width(f)]))
  }

  // ---- Writing ----

  function Repeat(b: byte, n: nat): (s: seq<byte>)
    ensures |s| == n && forall i :: 0 <= i < n ==> s[i] == b
  {
    seq(n, i => b)
  }

  /** A signed value as 64 unsigned bits. */
  function AsBits(v: int): (u: nat)
    requires -0x8000_0000_0000_0000 <= v < 0x8000_0000_0000_0000
  {
    if v < 0 then v + TWO_64 else v
  }

  /** The source shifts 64-bit values by the configured width of an enum. */
  predicate Writable(f: TagField) {
    f.ftype == Enum ==>
      && 0 <= f.bytes < 8
      && forall e :: e in f.enums ==> -0x8000_0000_0000_0000 <= e.0 < 0x8000_0000_0000_0000
  }

  /** The bytes the simulated device sends for a field in cycle c. */
  function FieldBytes(fl: Floats, f: TagField, c: nat): seq<byte>
    requires Writable(f)
  {
    var w := FieldTypeBytes(f.ftype);
    match f.ftype
    case Bool => [c % 2]
    case U8 | U16 | U32 => Digits(c % Pow256(w), w, f.bigEndian)
    case I8 | I16 | I32 =>
      Pow256Monotone(w, 4);
      Pow256Widths();
      Digits(AsBits(c % Pow256(w) - Pow256(w) / 2), w, f.bigEndian)
    case F32 => Digits(fl.bits(4, c % 101), 4, f.bigEndian)
    case F64 => Digits(fl.bits(8, c % 101), 8, f.bigEndian)
    case Enum =>
      if f.enums != [] then Digits(AsBits(f.enums[c % |f.enums|].0), f.bytes, f.bigEndian)
      else Digits(c % Pow256(f.bytes), f.bytes, f.bigEndian)
    case String => Repeat('a' as int + c % 26, if f.bytes < 1 then 1 else f.bytes)
    case _ => Repeat(c % 256, if f.bytes < 1 then 1 else f.bytes)
  }

  // ---- The simulated device sends what it means to ----

  /** Floating point numbers the device counts through are laid out exactly. */
  ghost predicate Faithful(fl: Floats) {
    forall k: nat :: k <= 100 ==>
      && fl.bits(4, k) < 0x1_0000_0000 && fl.value(4, fl.bits(4, k)) == k as real
      && fl.bits(8, k) < TWO_64 && fl.value(8, fl.bits(8, k)) == k as real
  }

  /** A field both sides support: its byte count is that of its type, its enum values fit it. */
  predicate Simulable(f: TagField) {
    && f.ftype !in {I32, Ascii}
    && f.bytes == Width(f) > 0
    && (f.ftype in {I8, I16} ==> f.scale == 1.0)
    && (f.ftype == Enum ==> f.bytes < 8 && forall e :: e in f.enums ==> 0 <= e.0 < Pow256(f.bytes))
  }

  /** An integer in the field's engineering unit. */
  function Scaled(f: TagField, v: int): TagValue {
    if f.scale != 1.0 then RealValue(v as real * f.scale) else IntValue(v)
  }

  /** What cycle c is meant to show: counters run through the whole range of their type, from its
      minimum on when signed; enums through their table; text through the alphabet. */
  function Intended(f: TagField, c: nat): TagValue
    requires Simulable(f)
  {
    match f.ftype
    case Bool => BoolValue(c % 2 == 1)
    case U8 => Scaled(f, c % 256)
    case U16 => Scaled(f, c % 65536)
    case U32 => Scaled(f, c % 4294967296)
    case I8 => IntValue(c % 256 - 128)
    case I16 => IntValue(c % 65536 - 32768)
    case F32 => RealValue((c % 101) as real * f.scale)
    case F64 => RealValue((c % 101) as real * f.scale)
    case String => TextValue(Text(Repeat('a' as int + c % 26, f.bytes)))
    case Enum =>
      var v := if f.enums != [] then f.enums[c % |f.enums|].0 else c % Pow256(f.bytes);
      var name := FindEnumName(f.enums, v);
      TextValue(if name.Some? then name.value else Decimal(v))
    case Hex => TextValue(HexText(Repeat(c % 256, f.bytes)))
  }

  lemma {:induction false} SimulableIsWritable(f: TagField)
    requires Simulable(f)
    ensures Writable(f)
  {
    if f.ftype == Enum {
      EnumBound(f.bytes);
    }
  }

  lemma {:induction false} EnumBound(n: nat)
    requires n < 8
    ensures Pow256(n) < TWO_64 / 2
  {
    Pow256Monotone(n, 7);
    assert Pow256(7) == 0x100_0000_0000_0000 by {
      assert Pow256(5) == 0x100_0000_0000;
    }
  }

  /** Two's complement of w bytes, extended to 64 bits and read as a signed number. */
  lemma {:induction false} SignedRoundTrip(f: TagField, v: int)
    requires f.ftype in {I8, I16}
    requires -(Pow256(Width(f)) / 2) <= v < Pow256(Width(f)) / 2
    requires -0x8000_0000_0000_0000 <= v < 0x8000_0000_0000_0000
    ensures var w, p := Width(f), Pow256(Width(f));
            var u := Uint(Digits(AsBits(v), w, f.bigEndian), f.bigEndian);
            u < p && AsInt64(Extended(f, u)) == v
  {
    var w, p := Width(f), Pow256(Width(f));
    Pow256Widths();
    DigitsRoundTrip(AsBits(v), w, f.bigEndian);
    if v < 0 {
      DivModUnique(AsBits(v), p, TWO_64 / p - 1, v + p);
    } else {
      DivModUnique(v, p, 0, v);
    }
  }

  lemma {:induction false} TrimmedLetters(b: byte, n: nat)
    requires 0 < b < 0xFF
    ensures Trimmed(Repeat(b, n)) == Repeat(b, n)
  {
  }

  /** The name of an enum value, or the value itself. */
  function EnumText(f: TagField, v: nat): string {
    var name := FindEnumName(f.enums, v);
    if name.Some? then name.value else Decimal(v)
  }

  lemma {:induction false} EnumRead(fl: Floats, f: TagField, p: seq<byte>, v: nat)
    requires f.ftype == Enum && |p| == f.bytes > 0 && Uint(p, f.bigEndian) == v < TWO_64 / 2
    ensures Interpret(fl, f, p) == TextValue(EnumText(f, v))
  {
    hide Uint, FindEnumName, Decimal;
  }

  lemma {:induction false} EnumMeant(f: TagField, c: nat, v: nat)
    requires Simulable(f) && f.ftype == Enum
    requires v == if f.enums != [] then f.enums[c % |f.enums|].0 else c % Pow256(f.bytes)
    ensures Intended(f, c) == TextValue(EnumText(f, v))
  {
    hide FindEnumName, Decimal, Pow256;
  }

  lemma {:induction false} EnumRoundTrip(fl: Floats, f: TagField, c: nat)
    requires Simulable(f) && f.ftype == Enum
    ensures Writable(f) && Interpret(fl, f, FieldBytes(fl, f, c)) == Intended(f, c)
  {
    hide Digits, Uint, EnumText, Pow256, Interpret, Intended, FieldBytes, Writable;
    var v := if f.enums != [] then f.enums[c % |f.enums|].0 else c % Pow256(f.bytes);
    EnumSent(fl, f, c, v);
    EnumBound(f.bytes);
    DigitsExact(v, f.bytes, f.bigEndian);
    EnumRead(fl, f, Digits(v, f.bytes, f.bigEndian), v);
    EnumMeant(f, c, v);
  }

  lemma {:induction false} EnumSent(fl: Floats, f: TagField, c: nat, v: int)
    requires Simulable(f) && f.ftype == Enum
    requires v == if f.enums != [] then f.enums[c % |f.enums|].0 else c % Pow256(f.bytes)
    ensures Writable(f) && 0 <= v < Pow256(f.bytes) && FieldBytes(fl, f, c) == Digits(v, f.bytes, f.bigEndian)
  {
    SimulableIsWritable(f);
    hide Digits, Pow256;
    if f.enums != [] {
      assert f.enums[c % |f.enums|] in f.enums;
    }
  }

  lemma {:induction false} IntegerRoundTrip(fl: Floats, f: TagField, c: nat)
    requires Simulable(f) && f.ftype in {U8, U16, U32, I8, I16}
    ensures Interpret(fl, f, FieldBytes(fl, f, c)) == Intended(f, c)
  {
    hide Digits, Uint;
    Pow256Widths();
    var w := Width(f);
    if Signed(f.ftype) {
      SignedRoundTrip(f, c % Pow256(w) - Pow256(w) / 2);
    } else {
      DigitsExact(c % Pow256(w), w, f.bigEndian);
    }
  }

  lemma {:induction false} FloatRoundTrip(fl: Floats, f: TagField, c: nat)
    requires Simulable(f) && Faithful(fl) && f.ftype in {F32, F64}
    ensures Interpret(fl, f, FieldBytes(fl, f, c)) == Intended(f, c)
  {
    Pow256Widths();
    var w := Width(f);
    DigitsExact(fl.bits(w, c % 101), w, f.bigEndian);
  }

  /** Every field, in every cycle, in either byte order, is read back as the value intended. */
  lemma {:induction false} FieldRoundTrip(fl: Floats, f: TagField, c: nat)
    requires Simulable(f) && Faithful(fl)
    ensures Writable(f) && |FieldBytes(fl, f, c)| == Width(f)
    ensures Interpret(fl, f, FieldBytes(fl, f, c)) == Intended(f, c)
  {
    hide Interpret, Intended;
    SimulableIsWritable(f);
    if f.ftype == Enum {
      EnumRoundTrip(fl, f, c);
    } else if f.ftype in {F32, F64} {
      FloatRoundTrip(fl, f, c);
    } else if f.ftype in {U8, U16, U32, I8, I16} {
      IntegerRoundTrip(fl, f, c);
    } else {
      TextRoundTrip(fl, f, c);
    }
  }

  lemma {:induction false} TextRoundTrip(fl: Floats, f: TagField, c: nat)
    requires Simulable(f) && f.ftype in {Bool, String, Hex}
    ensures Interpret(fl, f, FieldBytes(fl, f, c)) == Intended(f, c)
  {
    hide HexText;
    if f.ftype == String {
      TrimmedLetters('a' as int + c % 26, f.bytes);
    }
  }

  // ---- Where the decoder falls short of its own encoder ----

  /** The device writes something for every type, but the table of widths leaves out 32-bit signed
      integers and plain text, so the bytes it writes decode exactly for the other types. */
  lemma {:induction false} DeviceFieldDecodesIff(fl: Floats, f: TagField, c: nat)
    requires Writable(f) && f.offset >= 0
    requires f.ftype in {String, Enum, Hex} ==> f.bytes >= 1
    ensures FieldValue(fl, f, Zeros(f.offset) + FieldBytes(fl, f, c)).Some? <==> f.ftype !in {I32, Ascii}
  {
    hide Interpret;
    assert f.ftype !in {I32, Ascii} ==> |FieldBytes(fl, f, c)| == Width(f);
  }

  /** A scaled signed field comes out as the signed value times the scale exactly when the value is
      not negative: the source scales the unsigned 64-bit pattern. */
  lemma {:induction false} ScaledSignedIff(fl: Floats, f: TagField, v: int)
    requires f.ftype in {I8, I16} && f.scale != 1.0 && f.scale != 0.0
    requires -(Pow256(Width(f)) / 2) <= v < Pow256(Width(f)) / 2
    requires -0x8000_0000_0000_0000 <= v < 0x8000_0000_0000_0000
    ensures Interpret(fl, f, Digits(AsBits(v), Width(f), f.bigEndian)) == RealValue(v as real * f.scale) <==> v >= 0
  {
    hide Digits, Uint;
    SignedRoundTrip(f, v);
    var u := Extended(f, Uint(Digits(AsBits(v), Width(f), f.bigEndian), f.bigEndian));
    assert u == if v < 0 then v + TWO_64 else v;
    ProductsDiffer(u as real, v as real, f.scale);
  }

  lemma {:induction false} ProductsDiffer(x: real, y: real, scale: real)
    requires scale != 0.0
    ensures x * scale == y * scale <==> x == y
  {
    if x * scale == y * scale {
      assert x == x * scale / scale;
      assert y == y * scale / scale;
    }
  }
}
