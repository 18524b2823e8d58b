/** The simulated device that counts every field through its values, and the proof that the data
    source's own decoder reads back what the device means to show. */
module SimulatedDevice {
  import opened Bytes
  import opened Framing
  import opened Values
  import opened Fields
  import opened FrameEncoder
  import opened FieldCodec

  // ---- One cycle ----

  function CycleVals(fl: Floats, fields: seq<TagField>, c: nat): (vals: seq<seq<byte>>)
    requires forall f :: f in fields ==> Writable(f)
    ensures |vals| == |fields|
    ensures forall i :: 0 <= i < |fields| ==> vals[i] == FieldBytes(fl, fields[i], c)
  {
    seq(|fields|, i requires 0 <= i < |fields| => FieldBytes(fl, fields[i], c))
  }

  /** What the encoder demands: offsets and widths that are not negative, counts it can shift by. */
  predicate Encodable(fr: FramingConfig, fields: seq<TagField>) {
    && Placed(fields)
    && (forall f :: f in fields ==> Writable(f))
    && 0 <= fr.tagBytes <= 8 && 0 <= fr.lenBytes <= 8 && 0 <= fr.lenOffset && 0 <= fr.lenBytesHeader <= 8
  }

  /** One frame for each field in TLV mode, one frame with all fields otherwise. */
  function CycleFrames(fl: Floats, fr: FramingConfig, fields: seq<TagField>, c: nat): (frames: seq<Frame>)
    requires Encodable(fr, fields)
    ensures fr.mode == Tlv ==> |frames| == |fields| && forall i :: 0 <= i < |fields| ==>
              frames[i] == TlvFrame(fr, AsUint64(fields[i].tagId),
                                    Zeros(fields[i].offset) + FieldBytes(fl, fields[i], c))
  {
    var vals := CycleVals(fl, fields, c);
    if fr.mode == Tlv then
      seq(|fields|, i requires 0 <= i < |fields| =>
        TlvFrame(fr, AsUint64(fields[i].tagId), Zeros(fields[i].offset) + vals[i]))
    else [HeaderFrame(fr, Layout(fields, vals, |fields|))]
  }

  class IncrementalFrameGen {
    const fl: Floats
    const fr: FramingConfig
    const fields: seq<TagField>
    var counters: seq<nat>
    ghost var cycles: nat  // completed so far

    ghost predicate Valid()
      reads this
    {
      && Encodable(fr, fields)
      && |counters| == |fields|
      && forall i :: 0 <= i < |counters| ==> counters[i] == cycles % TWO_64
    }

    constructor (fl: Floats, fr: FramingConfig, fields: seq<TagField>)
      requires Encodable(fr, fields)
      ensures Valid() && cycles == 0
      ensures this.fl == fl && this.fr == fr && this.fields == fields
    {
      this.fl, this.fr, this.fields := fl, fr, fields;
      counters := seq(|fields|, i => 0);
      cycles := 0;
    }

    /** The bytes of field idx in this cycle; its counter moves on. */
    method NextFieldBytes(f: TagField, idx: nat) returns (b: seq<byte>)
      requires Writable(f) && idx < |counters|
      modifies `counters
      ensures counters == old(counters)[idx := (old(counters)[idx] + 1) % TWO_64]
      ensures b == FieldBytes(fl, f, old(counters)[idx])
    {
      var c := counters[idx];
      counters := counters[idx := (c + 1) % TWO_64];
      var w := FieldTypeBytes(f.ftype);
      match f.ftype
      case Bool => b := [c % 2];
      case U8 | U16 | U32 => b := WriteUint([], c % Pow256(w), w, f.bigEndian);
      case I8 | I16 | I32 =>
        Pow256Monotone(w, 4);
        Pow256Widths();
        var range := Pow256(w);
        var v := c % range - range / 2;
        b := WriteUint([], AsBits(v), w, f.bigEndian);
      case F32 => b := WriteUint([], fl.bits(4, c % 101), 4, f.bigEndian);
      case F64 => b := WriteUint([], fl.bits(8, c % 101), 8, f.bigEndian);
      case Enum =>
        if f.enums != [] {
          assert f.enums[c % |f.enums|] in f.enums;
          b := WriteUint([], AsBits(f.enums[c % |f.enums|].0), f.bytes, f.bigEndian);
        } else {
          b := WriteUint([], c % Pow256(f.bytes), f.bytes, f.bigEndian);
        }
      case String => b := Repeat('a' as int + c % 26, if f.bytes < 1 then 1 else f.bytes);
      case Hex | Ascii => b := Repeat(c % 256, if f.bytes < 1 then 1 else f.bytes);
    }

    /** One cycle: every counter moves on by one, and the frames show the values before. */
    method NextFrames() returns (frames: seq<Frame>)
      requires Valid()
      modifies this
      ensures Valid() && cycles == old(cycles) + 1
      ensures frames == CycleFrames(fl, fr, fields, old(cycles) % TWO_64)
    {
      ghost var c := cycles % TWO_64;
      var vals := NextVals();
      frames := EncodeCycle(vals, c);
    }

    method EncodeCycle(vals: seq<seq<byte>>, ghost c: nat) returns (frames: seq<Frame>)
      requires Encodable(fr, fields) && vals == CycleVals(fl, fields, c)
      ensures frames == CycleFrames(fl, fr, fields, c)
    {
      hide FieldBytes, Layout;
      if fr.mode != Tlv {
        var frame := EncodeHeaderLenFrameVal(fr, fields, vals);
        return [frame];
      }
      frames := [];
      for i := 0 to |fields|
        invariant frames == CycleFrames(fl, fr, fields, c)[..i]
      {
        var frame := EncodeTlvFrameVal(fr, fields[i], vals[i]);
        frames := frames + [frame];
      }
    }

    method NextVals() returns (vals: seq<seq<byte>>)
      requires Valid()
      modifies this
      ensures Valid() && cycles == old(cycles) + 1
      ensures vals == CycleVals(fl, fields, old(cycles) % TWO_64)
    {
      hide FieldBytes;
      ghost var c := cycles % TWO_64;
      NextCount(cycles);
      vals := [];
      for i := 0 to |fields|
        invariant Encodable(fr, fields) && |counters| == |fields| && cycles == old(cycles)
        invariant forall j :: 0 <= j < i ==> counters[j] == (c + 1) % TWO_64
        invariant forall j :: i <= j < |fields| ==> counters[j] == c
        invariant vals == CycleVals(fl, fields, c)[..i]
      {
        var b := NextFieldBytes(fields[i], i);
        vals := vals + [b];
      }
      cycles := cycles + 1;
    }
  }

  lemma {:induction false} NextCount(n: nat)
    ensures (n % TWO_64 + 1) % TWO_64 == (n + 1) % TWO_64
  {
  }

  // ---- Fields that do not overlap stay apart in the payload ----

  predicate Apart(f: TagField, g: TagField) {
    f.offset + f.bytes <= g.offset || g.offset + g.bytes <= f.offset
  }

  predicate NonOverlapping(fields: seq<TagField>) {
    forall i, j :: 0 <= i < j < |fields| ==> Apart(fields[i], fields[j])
  }

  lemma {:induction false} LayoutSlice(fields: seq<TagField>, vals: seq<seq<byte>>, k: nat, i: nat)
    requires Placed(fields) && NonOverlapping(fields) && i < k <= |fields| == |vals|
    requires forall j :: 0 <= j < |fields| ==> |vals[j]| == fields[j].bytes
    ensures Layout(fields, vals, k)[fields[i].offset..fields[i].offset + fields[i].bytes] == vals[i]
    decreases k
  {
    hide PayloadLen;
    var f, g := fields[i], fields[k - 1];
    assert f in fields && g in fields;
    var before := Layout(fields, vals, k - 1);
    var after := Layout(fields, vals, k);
    assert after == before[..g.offset] + vals[k - 1] + before[g.offset + g.bytes..];
    if i < k - 1 {
      LayoutSlice(fields, vals, k - 1, i);
      assert Apart(f, g);
      PatchedElsewhere(before, g.offset, vals[k - 1], f.offset, f.offset + f.bytes);
    }
  }

  lemma {:induction false} PatchedElsewhere(s: seq<byte>, at: nat, v: seq<byte>, lo: nat, hi: nat)
    requires at + |v| <= |s| && lo <= hi <= |s| && (hi <= at || at + |v| <= lo)
    ensures (s[..at] + v + s[at + |v|..])[lo..hi] == s[lo..hi]
  {
  }

  // ---- The device and the data source agree ----

  /** Every field of the payload is read as intended. */
  lemma {:induction false} PayloadConsistent(fl: Floats, fields: seq<TagField>, c: nat, i: nat)
    requires Faithful(fl) && Placed(fields) && NonOverlapping(fields) && i < |fields|
    requires forall f :: f in fields ==> Simulable(f) && Writable(f)
    ensures FieldValue(fl, fields[i], Layout(fields, CycleVals(fl, fields, c), |fields|))
         == Some(Intended(fields[i], c))
  {
    hide Layout, FieldBytes, Interpret, Intended, Writable;
    var vals := CycleVals(fl, fields, c);
    forall j | 0 <= j < |fields|
      ensures |vals[j]| == fields[j].bytes == Width(fields[j]) > 0
      ensures Interpret(fl, fields[j], vals[j]) == Intended(fields[j], c)
    {
      assert fields[j] in fields;
      FieldRoundTrip(fl, fields[j], c);
    }
    assert fields[i] in fields;
    LayoutSlice(fields, vals, |fields|, i);
  }

  lemma {:induction false} HeaderDeviceConsistent(fl: Floats, fr: FramingConfig, fields: seq<TagField>, c: nat)
    requires Faithful(fl) && Encodable(fr, fields) && NonOverlapping(fields)
    requires forall f :: f in fields ==> Simulable(f)
    requires fr.mode == FrameMode.HeaderLength && HeaderFits(fr, Layout(fields, CycleVals(fl, fields, c), |fields|))
    ensures var frames := CycleFrames(fl, fr, fields, c);
            && |frames| == 1
            && Decode(fr, frames[0]).Some?
            && forall i :: 0 <= i < |fields| ==>
                 FieldValue(fl, fields[i], Decode(fr, frames[0]).value.payload) == Some(Intended(fields[i], c))
  {
    hide Layout, FieldValue, Intended, Simulable, NonOverlapping;
    HeaderRoundTrip(fr, Layout(fields, CycleVals(fl, fields, c), |fields|));
    forall i | 0 <= i < |fields|
      ensures FieldValue(fl, fields[i], Layout(fields, CycleVals(fl, fields, c), |fields|))
           == Some(Intended(fields[i], c))
    {
      assert fields[i] in fields;
      PayloadConsistent(fl, fields, c, i);
    }
  }

  /** A field behind zeros is read as intended. */
  lemma {:induction false} ValueConsistent(fl: Floats, f: TagField, c: nat)
    requires Faithful(fl) && Simulable(f) && Writable(f) && 0 <= f.offset
    ensures FieldValue(fl, f, Zeros(f.offset) + FieldBytes(fl, f, c)) == Some(Intended(f, c))
  {
    hide FieldBytes, Interpret, Intended, Writable;
    var v := Zeros(f.offset) + FieldBytes(fl, f, c);
    FieldRoundTrip(fl, f, c);
    assert v[f.offset..f.offset + Width(f)] == FieldBytes(fl, f, c);
  }

  lemma {:induction false} TlvDeviceConsistent(fl: Floats, fr: FramingConfig, fields: seq<TagField>, c: nat, i: nat)
    requires Faithful(fl) && Encodable(fr, fields) && i < |fields| && Simulable(fields[i])
    requires TlvFits(fr, AsUint64(fields[i].tagId), Zeros(fields[i].offset) + FieldBytes(fl, fields[i], c))
    ensures var frames := CycleFrames(fl, fr, fields, c);
            && |frames| == |fields|
            && Decode(fr, frames[i]).Some?
            && Decode(fr, frames[i]).value.tagId == fields[i].tagId
            && FieldValue(fl, fields[i], Decode(fr, frames[i]).value.payload) == Some(Intended(fields[i], c))
  {
    hide FieldBytes, FieldValue, Intended, Simulable;
    var f := fields[i];
    assert f in fields;
    TlvRoundTrip(fr, AsUint64(f.tagId), Zeros(f.offset) + FieldBytes(fl, f, c));
    TagIsNatural(fr, f.tagId);
    ValueConsistent(fl, f, c);
  }

  /** A tag that fits up to four bytes is not negative. */
  lemma {:induction false} TagIsNatural(fr: FramingConfig, tag: int32)
    requires fr.TlvParamsOk() && AsUint64(tag) < Pow256(fr.tagBytes)
    ensures tag >= 0
  {
    Pow256Monotone(fr.tagBytes, 4);
    Pow256Widths();
  }
}
