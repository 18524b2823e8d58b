/** What a frame is, told by its own bytes: exactly such frames are cut off the stream, and exactly such
    frames decode. */
module LegalFrames {
  import opened Bytes
  import opened Framing
  import opened Values
  import opened Segmentation
  import opened Splitting
  import opened Conservation
  import opened FrameEncoder
  import opened RoundTrip

  /** The frame length limit; a negative one wraps to a number near 2^64. */
  function Limit(cfg: FramingConfig): nat {
    if cfg.maxFrameLen < 0 then cfg.maxFrameLen + 0x1_0000_0000_0000_0000 else cfg.maxFrameLen
  }

  /** tag | length | value, with a legal number of value bytes, and as many as the length field says. */
  predicate IsTlvFrame(cfg: FramingConfig, f: Frame) {
    && 1 <= cfg.tagBytes <= 4 && 1 <= cfg.lenBytes <= 4
    && var head := cfg.tagBytes + cfg.lenBytes;
       |f| >= head
       && var len := Uint(f[cfg.tagBytes..head], cfg.bigEndian);
          var value := if cfg.lenIncludesHeader then (if len > head then len - head else 0) else len;
          |f| == head + value && value <= Limit(cfg)
  }

  /** Bytes whose length field is theirs and announces a legal length, as many as it says. A header that is
      longer than the frame does not fit into it. */
  predicate IsHeaderFrame(cfg: FramingConfig, f: Frame) {
    && cfg.header != [] && 0 <= cfg.lenOffset <= |cfg.header| && 1 <= cfg.lenBytesHeader <= 4
    && (cfg.header <= f || f <= cfg.header)
    && var end := cfg.lenOffset + cfg.lenBytesHeader;
       end <= |f| <= Limit(cfg)
       && var len := Uint(f[cfg.lenOffset..end], cfg.bigEndianHeader);
          |f| == if cfg.lenIncludesAll then len else end + len
  }

  predicate IsFrame(c: Settings, cfg: FramingConfig, f: Frame) {
    if c.cfgs == [] && cfg.mode == Tlv then IsTlvFrame(cfg, f) else IsHeaderFrame(cfg, f)
  }

  /** The configuration claims the frame: its header, which is usable, stands in front. */
  predicate Claims(cfg: FramingConfig, f: Frame) {
    && cfg.header != [] && cfg.header <= f
    && 0 <= cfg.lenOffset <= |cfg.header| && 1 <= cfg.lenBytesHeader <= 4
  }

  /** The frame is one of a configuration in use, and no earlier one claims it. */
  ghost predicate IsLegal(c: Settings, f: Frame) {
    exists k :: 0 <= k < |Active(c)| && IsFrame(c, Active(c)[k], f)
                && forall j :: 0 <= j < k ==> !Claims(Active(c)[j], f)
  }

  // ---- Only frames are cut ----

  lemma {:induction false} CutTlv(cfg: FramingConfig, s: seq<byte>)
    requires StepTlv(cfg, s).Emit?
    ensures 0 < StepTlv(cfg, s).n <= |s| && IsTlvFrame(cfg, s[..StepTlv(cfg, s).n])
  {
    hide Uint;
    var f := s[..StepTlv(cfg, s).n];
    assert f[cfg.tagBytes..cfg.tagBytes + cfg.lenBytes] == s[cfg.tagBytes..cfg.tagBytes + cfg.lenBytes];
  }

  lemma {:induction false} CutMatched(cfg: FramingConfig, hs: set<seq<byte>>, s: seq<byte>)
    requires Matches(cfg, s) && StepMatched(cfg, hs, s).Emit?
    ensures 0 < StepMatched(cfg, hs, s).n <= |s| && IsHeaderFrame(cfg, s[..StepMatched(cfg, hs, s).n])
  {
    hide Uint, ResyncPoint;
    var f := s[..StepMatched(cfg, hs, s).n];
    var end := cfg.lenOffset + cfg.lenBytesHeader;
    assert f[cfg.lenOffset..end] == s[cfg.lenOffset..end];
    PrefixesComparable(cfg.header, f, s);
  }

  lemma {:induction false} PrefixesComparable(h: seq<byte>, f: seq<byte>, s: seq<byte>)
    requires h <= s && f <= s
    ensures h <= f || f <= h
  {
    if |h| <= |f| {
      assert f[..|h|] == s[..|h|];
    } else {
      assert h[..|f|] == s[..|f|];
    }
  }

  lemma {:induction false} CutIsLegal(c: Settings, s: seq<byte>)
    requires Step(c, s).Emit?
    ensures IsLegal(c, s[..Step(c, s).n])
  {
    hide StepTlv, StepMatched, IsTlvFrame, IsHeaderFrame;
    if c.cfgs != [] {
      var m := FirstMatch(c.cfgs, s, 0);
      CutMatched(c.cfgs[m], Headers(c.cfgs), s);
      forall j | 0 <= j < m
        ensures !Claims(c.cfgs[j], s[..Step(c, s).n])
      {
        ClaimedMatches(c.cfgs[j], s, Step(c, s).n);
      }
      assert IsFrame(c, Active(c)[m], s[..Step(c, s).n]);
    } else {
      if c.cfg.mode == Tlv {
        CutTlv(c.cfg, s);
      } else {
        CutMatched(c.cfg, {c.cfg.header}, s);
      }
      assert IsFrame(c, Active(c)[0], s[..Step(c, s).n]);
    }
  }

  lemma {:induction false} ClaimedMatches(cfg: FramingConfig, s: seq<byte>, n: nat)
    requires n <= |s|
    ensures Claims(cfg, s[..n]) ==> Matches(cfg, s)
  {
    if cfg.header <= s[..n] {
      assert s[..|cfg.header|] == s[..n][..|cfg.header|];
    }
  }

  lemma {:induction false} DrainedAreLegal(c: Settings, s: seq<byte>)
    ensures forall f :: f in Drain(c, s).frames ==> IsLegal(c, f)
    decreases |s|
  {
    hide Step, IsLegal;
    var v := Step(c, s);
    if v.Skip? {
      DrainedAreLegal(c, s[v.n..]);
    } else if v.Emit? {
      CutIsLegal(c, s);
      DrainedAreLegal(c, s[v.n..]);
    }
  }

  /** Over every run of feeds, for every configuration: each frame that is cut is exactly as long as its own
      length field announces under a configuration in use, that length is legal, and no earlier configuration
      claims the frame. */
  lemma {:induction false} OnlyFramesAreCut(c: Settings, buf: seq<byte>, chunks: seq<seq<byte>>)
    ensures forall f :: f in FeedAll(c, buf, chunks).frames ==> IsLegal(c, f)
    decreases |chunks|
  {
    hide Drain, Cap, Step, IsLegal;
    if chunks != [] {
      DrainedAreLegal(c, buf + chunks[0]);
      OnlyFramesAreCut(c, FeedSpec(c, buf, chunks[0]).buf, chunks[1..]);
    }
  }

  // ---- Every frame is cut ----

  lemma {:induction false} WholeTlv(cfg: FramingConfig, f: Frame)
    requires IsTlvFrame(cfg, f)
    ensures StepTlv(cfg, f) == Emit(|f|)
  {
    hide Uint;
  }

  lemma {:induction false} WholeMatched(cfg: FramingConfig, hs: set<seq<byte>>, f: Frame)
    requires IsHeaderFrame(cfg, f) && cfg.header <= f
    ensures Matches(cfg, f) && StepMatched(cfg, hs, f) == Emit(|f|)
  {
    hide Uint, ResyncPoint;
  }

  /** The configurations exclude one another: there is one, or their headers can be told apart. */
  ghost predicate Exclusive(c: Settings) {
    c.cfgs == [] || TellApart(c.cfgs)
  }

  /** f is a frame of configuration k, with its header in front. */
  predicate IsWhole(c: Settings, k: nat, f: Frame) {
    && k < |Active(c)| && IsFrame(c, Active(c)[k], f)
    && (c.cfgs != [] || c.cfg.mode != Tlv ==> Active(c)[k].header <= f)
  }

  lemma {:induction false} WholeIsDecided(c: Settings, k: nat, f: Frame)
    requires Exclusive(c) && IsWhole(c, k, f)
    ensures Regular(c) && Step(c, f) == Emit(|f|)
  {
    hide StepTlv, StepMatched, IsTlvFrame, IsHeaderFrame, NonContaining;
    if c.cfgs != [] {
      WholeMatched(c.cfgs[k], Headers(c.cfgs), f);
      OneHeaderMatches(c.cfgs, f, FirstMatch(c.cfgs, f, 0), k);
    } else {
      if c.cfg.mode == Tlv {
        WholeTlv(c.cfg, f);
      } else {
        WholeMatched(c.cfg, {c.cfg.header}, f);
      }
      SingleIsRegular(c);
    }
  }

  /** A frame whole at the front is cut off, for one configuration and for a group whose headers can be told
      apart. */
  lemma {:induction false} FramesAreCut(c: Settings, k: nat, f: Frame, rest: seq<byte>)
    requires Exclusive(c) && IsWhole(c, k, f)
    ensures Drain(c, f + rest) == Drained([f] + Drain(c, rest).frames, Drain(c, rest).rest)
  {
    hide Step, IsWhole, Exclusive, Regular, Drain;
    WholeIsDecided(c, k, f);
    FrameIsExtracted(c, f, rest);
  }

  /** Over every run of feeds: at no position that resynchronisation skips does a frame start in the whole
      stream. */
  lemma {:induction false} NoFrameIsSkipped(c: Settings, past: seq<byte>, buf: seq<byte>, chunks: seq<seq<byte>>,
                                           i: nat, j: nat, k: nat, f: Frame)
    requires Exclusive(c) && i < |RunPieces(c, buf, |past|, chunks)|
    requires var p := RunPieces(c, buf, |past|, chunks)[i]; p.fate.Skipped? && p.lo <= j < p.Hi()
    ensures var stream := past + buf + Concat(chunks); j < |stream| && !(f <= stream[j..] && IsWhole(c, k, f))
  {
    hide Step, IsWhole, RunPieces, Concat, NonContaining, TellApart;
    ExclusiveIsRegular(c);
    OnlyGarbageIsSkipped(c, past, buf, chunks, i, j);
    var stream := past + buf + Concat(chunks);
    if f <= stream[j..] && IsWhole(c, k, f) {
      FrontIsEmitted(c, k, f, stream[j..]);
    }
  }

  lemma {:induction false} FrontIsEmitted(c: Settings, k: nat, f: Frame, s: seq<byte>)
    requires Exclusive(c) && IsWhole(c, k, f) && f <= s
    ensures Step(c, s) == Emit(|f|)
  {
    hide Step, IsWhole, Exclusive, Regular;
    WholeIsDecided(c, k, f);
    EmitExtends(c, f, s[|f|..]);
    assert f + s[|f|..] == s;
  }

  lemma {:induction false} ExclusiveIsRegular(c: Settings)
    requires Exclusive(c)
    ensures Regular(c)
  {
    hide NonContaining;
    if c.cfgs == [] {
      SingleIsRegular(c);
    }
  }

  lemma {:induction false} SingleIsRegular(c: Settings)
    requires c.cfgs == []
    ensures Regular(c)
  {
  }

  // ---- Frames decode, and what decodes starts with a frame ----

  /** The frame at the front of bytes f that decode, told by its length field; other bytes may follow it. */
  predicate StartsTlvFrame(cfg: FramingConfig, f: seq<byte>, m: Message) {
    && 1 <= cfg.tagBytes <= 4 && 1 <= cfg.lenBytes <= 4
    && var head := cfg.tagBytes + cfg.lenBytes;
       |f| >= head
       && var len := Uint(f[cfg.tagBytes..head], cfg.bigEndian);
          var value := if cfg.lenIncludesHeader then (if len > head then len - head else 0) else len;
          && |f| >= head + value && value <= Limit(cfg)
          && m == Message(Uint(f[..cfg.tagBytes], cfg.bigEndian), f[head..head + value])
  }

  predicate StartsHeaderFrame(cfg: FramingConfig, f: seq<byte>, m: Message) {
    && cfg.header <= f && 0 <= cfg.lenOffset && 1 <= cfg.lenBytesHeader <= 4
    && var end := cfg.lenOffset + cfg.lenBytesHeader;
       |f| >= end
       && var len := Uint(f[cfg.lenOffset..end], cfg.bigEndianHeader);
          var total := if cfg.lenIncludesAll then len else end + len;
          && end <= total <= |f| && total <= Limit(cfg)
          && m == Message(-1, f[end..total])
  }

  /** What the decoder of single frames accepts, and what it makes of it. */
  lemma {:induction false} DecodesIff(cfg: FramingConfig, f: Frame, m: Message)
    requires InRange(cfg, f) && |f| < 0x8000_0000
    ensures Decode(cfg, f) == Some(m) <==>
            if cfg.mode == Tlv then StartsTlvFrame(cfg, f, m) else StartsHeaderFrame(cfg, f, m)
  {
    hide Uint;
  }

  /** A frame that is cut decodes under its configuration, and its payload reaches to its end. */
  lemma {:induction false} CutFramesDecode(c: Settings, cfg: FramingConfig, f: Frame)
    requires IsFrame(c, cfg, f) && 0 <= cfg.maxFrameLen && |f| < 0x8000_0000
    requires (c.cfgs == [] && cfg.mode == Tlv) || (cfg.mode != Tlv && cfg.header <= f)
    ensures Decode(cfg, f).Some?
    ensures Decode(cfg, f).value.payload
         == f[if cfg.mode == Tlv then cfg.tagBytes + cfg.lenBytes else cfg.lenOffset + cfg.lenBytesHeader..]
  {
    hide Uint, Decode, Announced;
    if cfg.mode == Tlv {
      var head := cfg.tagBytes + cfg.lenBytes;
      DecodesIff(cfg, f, Message(Uint(f[..cfg.tagBytes], cfg.bigEndian), f[head..]));
    } else {
      var end := cfg.lenOffset + cfg.lenBytesHeader;
      assert f[end..|f|] == f[end..];
      DecodesIff(cfg, f, Message(-1, f[end..]));
    }
  }
}
