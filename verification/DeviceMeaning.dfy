/** What the simulated device puts on the line, byte by byte. */
module DeviceMeaning {
  import opened Bytes
  import opened Framing
  import opened Fields
  import opened FrameEncoder
  import opened FieldCodec
  import opened FieldMeaning
  import opened SimulatedDevice

  // ---- The payload of a header + length frame ----

  /** The field's value, cut to its configured bytes, reaches over position i. */
  predicate Covers(f: TagField, v: seq<byte>, i: nat) {
    f.offset <= i < f.offset + if |v| < f.bytes then |v| else f.bytes
  }

  /** Among the first k fields, field j is the last that reaches over position i. */
  predicate LastOver(fields: seq<TagField>, vals: seq<seq<byte>>, k: nat, i: nat, j: nat)
    requires k <= |fields| && k <= |vals|
  {
    j < k && Covers(fields[j], vals[j], i) && forall l :: j < l < k ==> !Covers(fields[l], vals[l], i)
  }

  /** Every byte is that of the last field over it, or zero. */
  ghost predicate LaidOut(fields: seq<TagField>, vals: seq<seq<byte>>, k: nat, p: seq<byte>)
    requires Placed(fields) && k <= |fields| && k <= |vals|
  {
    forall i: nat :: i < |p| ==>
      && (forall j: nat :: LastOver(fields, vals, k, i, j) ==> p[i] == vals[j][i - fields[j].offset])
      && ((forall j :: 0 <= j < k ==> !Covers(fields[j], vals[j], i)) ==> p[i] == 0)
  }

  /** The payload ends where the last field does. */
  predicate EndsWithFields(fields: seq<TagField>, n: nat) {
    && (forall i :: 0 <= i < |fields| ==> fields[i].offset + fields[i].bytes <= n)
    && (n == 0 || exists i :: 0 <= i < |fields| && fields[i].offset + fields[i].bytes == n)
  }

  lemma {:induction false} PayloadEnds(fields: seq<TagField>)
    requires Placed(fields)
    ensures EndsWithFields(fields, PayloadLen(fields))
  {
    var n := |fields| - 1;
    if fields != [] {
      PayloadEnds(fields[..n]);
      if PayloadLen(fields) != 0 && PayloadLen(fields) != fields[n].offset + fields[n].bytes {
        var i :| 0 <= i < n && fields[..n][i].offset + fields[..n][i].bytes == PayloadLen(fields[..n]);
        assert fields[i] == fields[..n][i];
      }
    }
    forall i | 0 <= i < |fields|
      ensures fields[i].offset + fields[i].bytes <= PayloadLen(fields)
    {
      assert fields[i] in fields;
    }
  }

  lemma {:induction false} LayoutIs(fields: seq<TagField>, vals: seq<seq<byte>>, k: nat)
    requires Placed(fields) && k <= |fields| == |vals|
    ensures LaidOut(fields, vals, k, Layout(fields, vals, k))
    decreases k
  {
    hide PayloadLen;
    if k > 0 {
      hide Patch, Layout;
      var f, v := fields[k - 1], vals[k - 1];
      LayoutIs(fields, vals, k - 1);
      var before := Layout(fields, vals, k - 1);
      LayoutUnfolds(fields, vals, k);
      PatchIs(before, f, v);
      OneMoreLaidOut(fields, vals, k, before, Layout(fields, vals, k));
    }
  }

  lemma {:induction false} LayoutUnfolds(fields: seq<TagField>, vals: seq<seq<byte>>, k: nat)
    requires Placed(fields) && 0 < k <= |fields| == |vals|
    ensures var f, before := fields[k - 1], Layout(fields, vals, k - 1);
            && 0 <= f.offset && 0 <= f.bytes && f.offset + f.bytes <= |before|
            && Layout(fields, vals, k) == Patch(before, f.offset, vals[k - 1], f.bytes)
  {
    hide PayloadLen;
    assert fields[k - 1] in fields;
  }

  lemma {:induction false} OneMoreLaidOut(fields: seq<TagField>, vals: seq<seq<byte>>, k: nat, before: seq<byte>,
                                          after: seq<byte>)
    requires Placed(fields) && 0 < k <= |fields| == |vals| && LaidOut(fields, vals, k - 1, before)
    requires |after| == |before|
    requires forall i :: 0 <= i < |after| ==>
               after[i] == if Covers(fields[k - 1], vals[k - 1], i) then vals[k - 1][i - fields[k - 1].offset]
                           else before[i]
    ensures LaidOut(fields, vals, k, after)
  {
    forall i: nat, j: nat | i < |after| && LastOver(fields, vals, k, i, j)
      ensures after[i] == vals[j][i - fields[j].offset]
    {
      if j < k - 1 {
        assert LastOver(fields, vals, k - 1, i, j);
      }
    }
  }

  lemma {:induction false} PatchIs(p: seq<byte>, f: TagField, v: seq<byte>)
    requires 0 <= f.offset && 0 <= f.bytes && f.offset + f.bytes <= |p|
    ensures var q := Patch(p, f.offset, v, f.bytes);
            |q| == |p| && forall i :: 0 <= i < |p| ==> q[i] == if Covers(f, v, i) then v[i - f.offset] else p[i]
  {
  }

  // ---- Frames ----

  /** tag | length | value, the length counting itself and the tag if so configured. */
  ghost predicate IsTlvOf(fr: FramingConfig, tag: int, v: seq<byte>, frame: Frame) {
    && 0 <= fr.tagBytes && 0 <= fr.lenBytes
    && var head := fr.tagBytes + fr.lenBytes;
       && |frame| == head + |v| && frame[head..] == v
       && IsWord(frame[..fr.tagBytes], fr.bigEndian, tag, fr.tagBytes)
       && IsWord(frame[fr.tagBytes..head], fr.bigEndian, |v| + (if fr.lenIncludesHeader then head else 0), fr.lenBytes)
  }

  lemma {:induction false} TlvFrameIs(fr: FramingConfig, tag: int32, v: seq<byte>)
    requires 0 <= fr.tagBytes <= 8 && 0 <= fr.lenBytes <= 8
    ensures IsTlvOf(fr, tag, v, TlvFrame(fr, AsUint64(tag), v))
  {
    hide Digits, IsWord;
    var frame := TlvFrame(fr, AsUint64(tag), v);
    assert frame[..fr.tagBytes] == Digits(AsUint64(tag), fr.tagBytes, fr.bigEndian);
    assert frame[fr.tagBytes..fr.tagBytes + fr.lenBytes] == Digits(TlvLength(fr, |v|), fr.lenBytes, fr.bigEndian);
    BitsAreWord(tag, fr.tagBytes, fr.bigEndian);
    DigitsAreWord(TlvLength(fr, |v|), TlvLength(fr, |v|), 0, fr.lenBytes, fr.bigEndian);
  }

  /** The header, cut or filled with zeros up to the length field, the length, and the payload. */
  ghost predicate IsHeaderOf(fr: FramingConfig, payload: seq<byte>, frame: Frame) {
    && 0 <= fr.lenOffset && 0 <= fr.lenBytesHeader
    && var end := fr.lenOffset + fr.lenBytesHeader;
       && |frame| == end + |payload| && frame[end..] == payload
       && (forall i :: 0 <= i < fr.lenOffset ==> frame[i] == if i < |fr.header| then fr.header[i] else 0)
       && IsWord(frame[fr.lenOffset..end], fr.bigEndianHeader, |payload| + (if fr.lenIncludesAll then end else 0),
                 fr.lenBytesHeader)
  }

  lemma {:induction false} HeaderFrameIs(fr: FramingConfig, payload: seq<byte>)
    requires 0 <= fr.lenOffset && 0 <= fr.lenBytesHeader <= 8
    ensures IsHeaderOf(fr, payload, HeaderFrame(fr, payload))
  {
    hide Digits, IsWord;
    var frame, n := HeaderFrame(fr, payload), FrameEncoder.HeaderLength(fr, |payload|);
    assert frame[fr.lenOffset..fr.LenFieldEnd()] == Digits(n, fr.lenBytesHeader, fr.bigEndianHeader);
    DigitsAreWord(n, n, 0, fr.lenBytesHeader, fr.bigEndianHeader);
  }

  /** One cycle of the device: every field has the bytes of that cycle. In TLV mode each field has a frame of its
      own, with its tag and its bytes behind as many zeros as its offset says; otherwise one frame holds them all,
      each at its offset, later fields over earlier ones. */
  ghost predicate IsCycle(fl: Floats, fr: FramingConfig, fields: seq<TagField>, c: nat, vals: seq<seq<byte>>,
                          frames: seq<Frame>)
    requires Placed(fields)
  {
    && |vals| == |fields|
    && (forall i :: 0 <= i < |fields| ==> Sends(fl, fields[i], c, vals[i]))
    && if fr.mode == Tlv then
         && |frames| == |fields|
         && forall i :: 0 <= i < |fields| ==> IsTlvOf(fr, fields[i].tagId, Zeros(fields[i].offset) + vals[i], frames[i])
       else |frames| == 1 && exists p :: IsHeaderOf(fr, p, frames[0]) && EndsWithFields(fields, |p|)
                                         && LaidOut(fields, vals, |fields|, p)
  }

  lemma {:induction false} CycleMeans(fl: Floats, fr: FramingConfig, fields: seq<TagField>, c: nat)
    requires Encodable(fr, fields)
    ensures IsCycle(fl, fr, fields, c, CycleVals(fl, fields, c), CycleFrames(fl, fr, fields, c))
  {
    hide Sends, FieldBytes, IsTlvOf, IsHeaderOf, LaidOut, EndsWithFields, TlvFrame, HeaderFrame, Layout, PayloadLen;
    var vals := CycleVals(fl, fields, c);
    forall i | 0 <= i < |fields|
      ensures Sends(fl, fields[i], c, vals[i])
    {
      assert fields[i] in fields;
      FieldBytesMean(fl, fields[i], c);
    }
    if fr.mode == Tlv {
      forall i | 0 <= i < |fields|
        ensures IsTlvOf(fr, fields[i].tagId, Zeros(fields[i].offset) + vals[i], CycleFrames(fl, fr, fields, c)[i])
      {
        assert fields[i] in fields;
        TlvFrameIs(fr, fields[i].tagId, Zeros(fields[i].offset) + vals[i]);
      }
    } else {
      var p := Layout(fields, vals, |fields|);
      HeaderFrameIs(fr, p);
      LayoutIs(fields, vals, |fields|);
      PayloadEnds(fields);
    }
  }
}
