/** The encoder of the frame generator and the decoder of single frames, as mutual inverses, and
    the round trip of a whole stream through the splitter. */
module FrameEncoder {
  import opened Bytes
  import opened Framing
  import opened Values
  import opened Fields
  import opened Segmentation
  import opened Splitting
  import opened Conservation

  // ---- Decoding one frame ----

  /** A 64-bit count converted to a signed 32-bit integer. */
  function AsInt32(u: nat): (x: int32)
    ensures u < 0x8000_0000 ==> x == u
    ensures x <= u
  {
    var r := u % 0x1_0000_0000;
    if r < 0x8000_0000 then r else r - 0x1_0000_0000
  }

  datatype Message = Message(tagId: int, payload: seq<byte>)

  /** The whole length a frame announces, if it is long enough to announce one. */
  function Announced(cfg: FramingConfig, frame: Frame): (n: int) {
    if cfg.mode == Tlv then
      if !cfg.TlvParamsOk() || AsInt32(|frame|) < cfg.TlvHeadLen() then 0
      else cfg.TlvHeadLen() + cfg.TlvPayloadLen(frame)
    else if cfg.lenOffset < 0 || !(1 <= cfg.lenBytesHeader <= 4) || AsInt32(|frame|) < cfg.LenFieldEnd() then 0
    else cfg.HeaderTotal(frame)
  }

  /** The announced length is a 32-bit one, unless a limit that is not negative sees to that. */
  predicate InRange(cfg: FramingConfig, frame: Frame) {
    cfg.maxFrameLen >= 0 || Announced(cfg, frame) < 0x8000_0000
  }

  function DecodeTlv(cfg: FramingConfig, frame: Frame): (m: Option<Message>)
    requires cfg.mode == Tlv && InRange(cfg, frame)
  {
    if !cfg.TlvParamsOk() || AsInt32(|frame|) < cfg.TlvHeadLen() then None
    else
      var head := cfg.TlvHeadLen();
      var len := cfg.TlvPayloadLen(frame);
      if len > AsUint64(cfg.maxFrameLen) || AsInt32(|frame|) < head + len then None
      else Some(Message(Uint(frame[..cfg.tagBytes], cfg.bigEndian), frame[head..head + len]))
  }

  function DecodeHeader(cfg: FramingConfig, frame: Frame): (m: Option<Message>)
    requires cfg.mode != Tlv && InRange(cfg, frame)
  {
    if !(cfg.header <= frame) || cfg.lenOffset < 0 || !(1 <= cfg.lenBytesHeader <= 4)
       || AsInt32(|frame|) < cfg.LenFieldEnd()
    then None
    else
      var total := cfg.HeaderTotal(frame);
      if !cfg.LegalTotal(total) || AsInt32(|frame|) < total then None
      else Some(Message(-1, frame[cfg.LenFieldEnd()..total]))
  }

  /** The tag and the payload of a complete frame, or None for one that is not well formed. */
  function Decode(cfg: FramingConfig, frame: Frame): (m: Option<Message>)
    requires InRange(cfg, frame)
  {
    if cfg.mode == Tlv then DecodeTlv(cfg, frame) else DecodeHeader(cfg, frame)
  }

  /** A negative limit is no limit at all, since it is compared as a number near 2^64: what it lets through
      is what the largest limit does. */
  lemma {:induction false} NegativeLimitIsNoLimit(cfg: FramingConfig, frame: Frame)
    requires cfg.maxFrameLen < 0 && InRange(cfg, frame)
    ensures Decode(cfg, frame) == Decode(cfg.(maxFrameLen := 0x7FFF_FFFF), frame)
  {
    var most := cfg.(maxFrameLen := 0x7FFF_FFFF);
    assert Announced(most, frame) == Announced(cfg, frame);
  }

  /** The decoder as written; the payload is frame[start..start + len]. */
  method DecodeFrameOnce(cfg: FramingConfig, frame: Frame) returns (ok: bool, tagId: int, start: nat, len: nat)
    requires InRange(cfg, frame)
    ensures ok == Decode(cfg, frame).Some?
    ensures ok ==> start + len <= |frame| && Decode(cfg, frame) == Some(Message(tagId, frame[start..start + len]))
  {
    if cfg.mode == Tlv {
      ok, tagId, start, len := DecodeTlvOnce(cfg, frame);
    } else {
      ok, start, len := DecodeHeaderOnce(cfg, frame);
      tagId := -1;
    }
  }

  method DecodeTlvOnce(cfg: FramingConfig, frame: Frame) returns (ok: bool, tagId: int, start: nat, len: nat)
    requires cfg.mode == Tlv && InRange(cfg, frame)
    ensures ok == DecodeTlv(cfg, frame).Some?
    ensures ok ==> start + len <= |frame| && DecodeTlv(cfg, frame) == Some(Message(tagId, frame[start..start + len]))
  {
    if !cfg.TlvParamsOk() || AsInt32(|frame|) < cfg.TlvHeadLen() {
      return false, 0, 0, 0;
    }
    var head := cfg.TlvHeadLen();
    var n := ReadUint(frame, cfg.tagBytes, cfg.lenBytes, cfg.bigEndian);
    if cfg.lenIncludesHeader {
      n := if n > head then n - head else 0;
    }
    if n > AsUint64(cfg.maxFrameLen) || AsInt32(|frame|) < head + n {
      return false, 0, 0, 0;
    }
    tagId := ReadUint(frame, 0, cfg.tagBytes, cfg.bigEndian);
    return true, tagId, head, n;
  }

  method DecodeHeaderOnce(cfg: FramingConfig, frame: Frame) returns (ok: bool, start: nat, len: nat)
    requires cfg.mode != Tlv && InRange(cfg, frame)
    ensures ok == DecodeHeader(cfg, frame).Some?
    ensures ok ==> start + len <= |frame| && DecodeHeader(cfg, frame) == Some(Message(-1, frame[start..start + len]))
  {
    var starts := BeginsWith(frame, cfg.header);
    if !starts || cfg.lenOffset < 0 || cfg.lenBytesHeader < 1 || cfg.lenBytesHeader > 4
       || AsInt32(|frame|) < cfg.LenFieldEnd()
    {
      return false, 0, 0;
    }
    var n := ReadUint(frame, cfg.lenOffset, cfg.lenBytesHeader, cfg.bigEndianHeader);
    var total := if cfg.lenIncludesAll then n else cfg.LenFieldEnd() + n;
    if total < cfg.LenFieldEnd() || total > AsUint64(cfg.maxFrameLen) || AsInt32(|frame|) < total {
      return false, 0, 0;
    }
    return true, cfg.LenFieldEnd(), total - cfg.LenFieldEnd();
  }

  method BeginsWith(frame: Frame, header: seq<byte>) returns (yes: bool)
    ensures yes == (header <= frame)
  {
    if |frame| < |header| {
      return false;
    }
    for i := 0 to |header|
      invariant forall j :: 0 <= j < i ==> frame[j] == header[j]
    {
      if frame[i] != header[i] {
        return false;
      }
    }
    return true;
  }

  // ---- Encoding ----

  function Zeros(n: nat): (z: seq<byte>)
    ensures |z| == n && forall i :: 0 <= i < n ==> z[i] == 0
  {
    seq(n, i => 0)
  }

  function TlvLength(fr: FramingConfig, n: nat): int {
    n + if fr.lenIncludesHeader then fr.TlvHeadLen() else 0
  }

  /** tag | length | value */
  function TlvFrame(fr: FramingConfig, tag: nat, v: seq<byte>): Frame
    requires 0 <= fr.tagBytes && 0 <= fr.lenBytes
  {
    Digits(tag, fr.tagBytes, fr.bigEndian) + Digits(TlvLength(fr, |v|), fr.lenBytes, fr.bigEndian) + v
  }

  /** s cut or zero-padded to n bytes. */
  function Resized(s: seq<byte>, n: nat): (r: seq<byte>)
    ensures |r| == n
  {
    if |s| >= n then s[..n] else s + Zeros(n - |s|)
  }

  function HeaderLength(fr: FramingConfig, n: nat): int {
    n + if fr.lenIncludesAll then fr.LenFieldEnd() else 0
  }

  /** header | padding up to the length field | length | payload */
  function HeaderFrame(fr: FramingConfig, payload: seq<byte>): Frame
    requires 0 <= fr.lenOffset && 0 <= fr.lenBytesHeader
  {
    Resized(fr.header, fr.lenOffset)
    + Digits(HeaderLength(fr, |payload|), fr.lenBytesHeader, fr.bigEndianHeader) + payload
  }

  /** The generator's TLV frame of one field: offset zeros and then the value. */
  method EncodeTlvFrameVal(fr: FramingConfig, f: TagField, val: seq<byte>) returns (frame: Frame)
    requires 0 <= fr.tagBytes <= 8 && 0 <= fr.lenBytes <= 8 && 0 <= f.offset
    ensures frame == TlvFrame(fr, AsUint64(f.tagId), Zeros(f.offset) + val)
  {
    var v := Zeros(f.offset) + val;
    frame := WriteUint([], AsUint64(f.tagId), fr.tagBytes, fr.bigEndian);
    var len := |v|;
    if fr.lenIncludesHeader {
      len := len + fr.tagBytes + fr.lenBytes;
    }
    frame := WriteUint(frame, len, fr.lenBytes, fr.bigEndian);
    frame := frame + v;
  }

  /** dst with the first bytes of src, at most count of them, copied to position at. */
  function Patch(dst: seq<byte>, at: nat, src: seq<byte>, count: nat): (r: seq<byte>)
    requires at + count <= |dst|
    ensures |r| == |dst|
  {
    var n := if |src| < count then |src| else count;
    dst[..at] + src[..n] + dst[at + n..]
  }

  predicate Placed(fields: seq<TagField>) {
    forall f :: f in fields ==> 0 <= f.offset && 0 <= f.bytes
  }

  /** Where the last field of the payload ends. */
  function PayloadLen(fields: seq<TagField>): (n: nat)
    requires Placed(fields)
    ensures forall f :: f in fields ==> f.offset + f.bytes <= n
  {
    if fields == [] then 0
    else
      var f, n := fields[|fields| - 1], PayloadLen(fields[..|fields| - 1]);
      if n < f.offset + f.bytes then f.offset + f.bytes else n
  }

  /** The payload after the first k fields have been copied into it. */
  function Layout(fields: seq<TagField>, vals: seq<seq<byte>>, k: nat): (p: seq<byte>)
    requires Placed(fields) && k <= |fields|
    ensures |p| == PayloadLen(fields)
  {
    if k == 0 then Zeros(PayloadLen(fields))
    else
      var p := Layout(fields, vals, k - 1);
      if k > |vals| then p else Patch(p, fields[k - 1].offset, vals[k - 1], fields[k - 1].bytes)
  }

  method PayloadLength(fields: seq<TagField>) returns (n: nat)
    requires Placed(fields)
    ensures n == PayloadLen(fields)
  {
    n := 0;
    for i := 0 to |fields|
      invariant n == PayloadLen(fields[..i])
    {
      assert fields[..i + 1][..i] == fields[..i];
      if n < fields[i].offset + fields[i].bytes {
        n := fields[i].offset + fields[i].bytes;
      }
    }
    assert fields[..|fields|] == fields;
  }

  /** The generator's header + length frame with all fields at their offsets. */
  method EncodeHeaderLenFrameVal(fr: FramingConfig, fields: seq<TagField>, vals: seq<seq<byte>>) returns (frame: Frame)
    requires Placed(fields)
    requires 0 <= fr.lenOffset && 0 <= fr.lenBytesHeader <= 8
    ensures frame == HeaderFrame(fr, Layout(fields, vals, |fields|))
  {
    hide PayloadLen;
    var payloadLen := PayloadLength(fields);
    var payload := Zeros(payloadLen);
    for i := 0 to |fields|
      invariant payload == Layout(fields, vals, i)
    {
      if i < |vals| {
        payload := Patch(payload, fields[i].offset, vals[i], fields[i].bytes);
      }
    }
    frame := Resized(fr.header, fr.lenOffset);
    var len := if fr.lenIncludesAll then fr.LenFieldEnd() + payloadLen else payloadLen;
    frame := WriteUint(frame, len, fr.lenBytesHeader, fr.bigEndianHeader);
    frame := frame + payload;
  }

  // ---- A frame decodes to what was encoded, and the splitter accepts it whole ----

  /** The value and its length field fit the TLV configuration. */
  predicate TlvFits(fr: FramingConfig, tag: nat, v: seq<byte>) {
    && fr.mode == Tlv && fr.TlvParamsOk()
    && tag < Pow256(fr.tagBytes)
    && TlvLength(fr, |v|) < Pow256(fr.lenBytes)
    && |v| <= fr.maxFrameLen
    && fr.TlvHeadLen() + |v| < 0x8000_0000
  }

  lemma {:induction false} TlvParts(fr: FramingConfig, tag: nat, v: seq<byte>)
    requires TlvFits(fr, tag, v)
    ensures var f := TlvFrame(fr, tag, v);
            && |f| == fr.TlvHeadLen() + |v|
            && Uint(f[..fr.tagBytes], fr.bigEndian) == tag
            && fr.TlvPayloadLen(f) == |v|
            && f[fr.TlvHeadLen()..] == v
  {
    var f := TlvFrame(fr, tag, v);
    assert f[..fr.tagBytes] == Digits(tag, fr.tagBytes, fr.bigEndian);
    assert f[fr.tagBytes..fr.TlvHeadLen()] == Digits(TlvLength(fr, |v|), fr.lenBytes, fr.bigEndian);
    DigitsExact(tag, fr.tagBytes, fr.bigEndian);
    DigitsExact(TlvLength(fr, |v|), fr.lenBytes, fr.bigEndian);
  }

  lemma {:induction false} TlvRoundTrip(fr: FramingConfig, tag: nat, v: seq<byte>)
    requires TlvFits(fr, tag, v)
    ensures Decode(fr, TlvFrame(fr, tag, v)) == Some(Message(tag, v))
    ensures ValidFrame(Settings(fr, []), TlvFrame(fr, tag, v))
  {
    TlvParts(fr, tag, v);
    var f, h := TlvFrame(fr, tag, v), fr.TlvHeadLen();
    assert f[h..h + |v|] == v;
  }

  /** The payload fits the frame, and its length the length field. */
  predicate LengthFits(fr: FramingConfig, payload: seq<byte>) {
    && fr.mode == FrameMode.HeaderLength && 0 <= fr.lenOffset && 1 <= fr.lenBytesHeader <= 4
    && HeaderLength(fr, |payload|) < Pow256(fr.lenBytesHeader)
    && fr.LenFieldEnd() + |payload| <= fr.maxFrameLen
  }

  /** The end of a header that the length field cuts short happens to be what is written over it. */
  predicate KeepsHeader(fr: FramingConfig, payload: seq<byte>)
    requires 0 <= fr.lenOffset && 0 <= fr.lenBytesHeader
  {
    || |fr.header| <= fr.lenOffset
    || fr.header[fr.lenOffset..] <= Digits(HeaderLength(fr, |payload|), fr.lenBytesHeader, fr.bigEndianHeader) + payload
  }

  predicate HeaderFits(fr: FramingConfig, payload: seq<byte>) {
    LengthFits(fr, payload) && KeepsHeader(fr, payload)
  }

  lemma {:induction false} HeaderParts(fr: FramingConfig, payload: seq<byte>)
    requires LengthFits(fr, payload)
    ensures var f := HeaderFrame(fr, payload);
            && |f| == fr.LenFieldEnd() + |payload|
            && (fr.header <= f <==> KeepsHeader(fr, payload))
            && fr.HeaderTotal(f) == |f|
            && f[fr.LenFieldEnd()..] == payload
  {
    hide Digits, Uint;
    var f := HeaderFrame(fr, payload);
    var d := Digits(HeaderLength(fr, |payload|), fr.lenBytesHeader, fr.bigEndianHeader);
    assert f == Resized(fr.header, fr.lenOffset) + d + payload;
    assert f[fr.lenOffset..fr.LenFieldEnd()] == d;
    DigitsExact(HeaderLength(fr, |payload|), fr.lenBytesHeader, fr.bigEndianHeader);
    HeaderOver(fr.header, fr.lenOffset, d + payload);
    assert Resized(fr.header, fr.lenOffset) + (d + payload) == f;
  }

  lemma {:induction false} HeaderOver(header: seq<byte>, at: nat, rest: seq<byte>)
    ensures header <= Resized(header, at) + rest <==> |header| <= at || header[at..] <= rest
  {
    var f := Resized(header, at) + rest;
    if |header| > at {
      assert f == header[..at] + rest;
      assert f[at..] == rest;
      if header <= f {
        assert header[at..] == f[at..|header|] == rest[..|header| - at];
      }
      if header[at..] <= rest {
        assert header == header[..at] + header[at..];
        assert f[..|header|] == header[..at] + rest[..|header| - at];
      }
    } else {
      assert f[..|header|] == header;
    }
  }

  /** An encoded frame decodes to its payload, also with padding before the length field; exactly if the
      length field does not spoil the header. */
  lemma {:induction false} HeaderRoundTrip(fr: FramingConfig, payload: seq<byte>)
    requires LengthFits(fr, payload)
    ensures Decode(fr, HeaderFrame(fr, payload)) == Some(Message(-1, payload)) <==> KeepsHeader(fr, payload)
  {
    hide KeepsHeader, HeaderFrame;
    HeaderParts(fr, payload);
    var f := HeaderFrame(fr, payload);
    assert f[fr.LenFieldEnd()..|f|] == payload;
  }
}
