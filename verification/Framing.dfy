/** The framing rules of one byte stream: what the splitter decides about the front of its
    buffer (Step), and what is left once it can decide nothing more (Drain). */
module Framing {
  import opened Bytes

  type Frame = seq<byte>

  datatype FrameMode = Tlv | HeaderLength

  datatype FramingConfig = FramingConfig(
    mode: FrameMode,
    // TLV: tag | length | value
    tagBytes: int32, lenBytes: int32, bigEndian: bool, lenIncludesHeader: bool,
    // header + length: header | ... | length | payload
    header: seq<byte>, lenOffset: int32, lenBytesHeader: int32, bigEndianHeader: bool, lenIncludesAll: bool,
    maxFrameLen: int32)
  {
    predicate TlvParamsOk() {
      1 <= tagBytes <= 4 && 1 <= lenBytes <= 4
    }

    predicate HeaderParamsOk() {
      0 <= lenOffset <= |header| && 1 <= lenBytesHeader <= 4
    }

    function TlvHeadLen(): int { tagBytes + lenBytes }

    function LenFieldEnd(): int { lenOffset + lenBytesHeader }

    /** The value length announced by the length field of a TLV frame. */
    function TlvPayloadLen(s: seq<byte>): nat
      requires TlvParamsOk() && |s| >= TlvHeadLen()
    {
      var len := Uint(s[tagBytes..TlvHeadLen()], bigEndian);
      if !lenIncludesHeader then len
      else if len > TlvHeadLen() then len - TlvHeadLen()
      else 0
    }

    /** The total frame length announced by the length field of a header + length frame. */
    function HeaderTotal(s: seq<byte>): nat
      requires 0 <= lenOffset && 1 <= lenBytesHeader <= 4 && |s| >= LenFieldEnd()
    {
      var len := Uint(s[lenOffset..LenFieldEnd()], bigEndianHeader);
      if lenIncludesAll then len else LenFieldEnd() + len
    }

    predicate LegalTotal(total: nat) {
      LenFieldEnd() <= total <= AsUint64(maxFrameLen)
    }
  }

  /** A splitter's configuration: several headers on one line when cfgs is non-empty,
      the single configuration cfg otherwise. */
  datatype Settings = Settings(cfg: FramingConfig, cfgs: seq<FramingConfig>)

  // ---- Header search ----

  function Headers(cfgs: seq<FramingConfig>): set<seq<byte>> {
    set c | c in cfgs && c.header != [] :: c.header
  }

  ghost predicate FullAt(hs: set<seq<byte>>, s: seq<byte>, i: nat)
    requires i <= |s|
  {
    exists h :: h in hs && h <= s[i..]
  }

  /** The bytes from i on are a proper, non-empty prefix of some header. */
  ghost predicate PartialAt(hs: set<seq<byte>>, s: seq<byte>, i: nat)
    requires i <= |s|
  {
    i < |s| && exists h :: h in hs && s[i..] < h
  }

  ghost function FirstFull(hs: set<seq<byte>>, s: seq<byte>, i: nat): (p: nat)
    requires i <= |s|
    ensures i <= p <= |s| && (p < |s| ==> FullAt(hs, s, p))
    ensures forall j :: i <= j < p ==> !FullAt(hs, s, j)
    decreases |s| - i
  {
    if i == |s| || FullAt(hs, s, i) then i else FirstFull(hs, s, i + 1)
  }

  ghost function FirstPartial(hs: set<seq<byte>>, s: seq<byte>, i: nat): (p: nat)
    requires i <= |s|
    ensures i <= p <= |s| && (p < |s| ==> PartialAt(hs, s, p))
    ensures forall j :: i <= j < p ==> !PartialAt(hs, s, j)
    decreases |s| - i
  {
    if i == |s| || PartialAt(hs, s, i) then i else FirstPartial(hs, s, i + 1)
  }

  /** Where resynchronisation moves the cursor: a later full header if there is one, else the
      longest tail that may still become a header (possibly everything), else the end. */
  ghost function ResyncPoint(hs: set<seq<byte>>, s: seq<byte>): (p: nat)
    requires s != []
    ensures p <= |s|
  {
    var f := FirstFull(hs, s, 1);
    if f < |s| then f else FirstPartial(hs, s, 0)
  }

  // ---- One decision ----

  /** What the splitter does at the front of its buffer. Stutter: it reports progress without
      moving, so the extraction loop repeats the same decision for ever. */
  datatype Verdict = Wait | Stutter | Skip(n: nat) | Emit(n: nat)

  ghost function Resynced(hs: set<seq<byte>>, s: seq<byte>, stuck: Verdict): (v: Verdict)
    requires s != []
  {
    var p := ResyncPoint(hs, s);
    if p == 0 then stuck else Skip(p)
  }

  ghost function StepTlv(cfg: FramingConfig, s: seq<byte>): Verdict {
    if !cfg.TlvParamsOk() || |s| < cfg.TlvHeadLen() then Wait
    else
      var len := cfg.TlvPayloadLen(s);
      if len > AsUint64(cfg.maxFrameLen) then Skip(1)
      else if |s| < cfg.TlvHeadLen() + len then Wait
      else Emit(cfg.TlvHeadLen() + len)
  }

  /** The buffer starts with the header of cfg; hs are all the headers resynchronisation looks for. */
  ghost function StepMatched(cfg: FramingConfig, hs: set<seq<byte>>, s: seq<byte>): Verdict
    requires cfg.HeaderParamsOk() && s != []
  {
    if |s| < cfg.LenFieldEnd() then Wait
    else
      var total := cfg.HeaderTotal(s);
      if !cfg.LegalTotal(total) then Resynced(hs, s, Stutter)
      else if |s| < total then Wait
      else Emit(total)
  }

  predicate Matches(cfg: FramingConfig, s: seq<byte>) {
    cfg.header != [] && cfg.header <= s && cfg.HeaderParamsOk()
  }

  ghost function StepHeader(cfg: FramingConfig, s: seq<byte>): Verdict {
    if s == [] || !cfg.HeaderParamsOk() then Wait
    else if Matches(cfg, s) then StepMatched(cfg, {cfg.header}, s)
    else if cfg.header == [] then Skip(1)
    else Resynced({cfg.header}, s, Wait)
  }

  /** The first configuration, from k on, whose header the buffer starts with. */
  function FirstMatch(cfgs: seq<FramingConfig>, s: seq<byte>, k: nat): (m: nat)
    requires k <= |cfgs|
    ensures k <= m <= |cfgs| && (m < |cfgs| ==> Matches(cfgs[m], s))
    ensures forall j :: k <= j < m ==> !Matches(cfgs[j], s)
    decreases |cfgs| - k
  {
    if k == |cfgs| || Matches(cfgs[k], s) then k else FirstMatch(cfgs, s, k + 1)
  }

  ghost function StepMulti(cfgs: seq<FramingConfig>, s: seq<byte>): Verdict {
    if s == [] then Wait
    else
      var m := FirstMatch(cfgs, s, 0);
      if m < |cfgs| then StepMatched(cfgs[m], Headers(cfgs), s)
      else Resynced(Headers(cfgs), s, Stutter)
  }

  ghost function Step(c: Settings, s: seq<byte>): (v: Verdict)
    ensures v.Skip? ==> 0 < v.n <= |s|
    ensures v.Emit? ==> 0 < v.n <= |s|
  {
    if c.cfgs != [] then StepMulti(c.cfgs, s)
    else if c.cfg.mode == Tlv then StepTlv(c.cfg, s)
    else StepHeader(c.cfg, s)
  }

  // ---- Deciding until nothing more can be decided ----

  datatype Drained = Drained(frames: seq<Frame>, rest: seq<byte>)

  /** The specification of the extraction loop: every frame is erased from the buffer at once. */
  ghost function Drain(c: Settings, s: seq<byte>): (d: Drained)
    ensures |d.rest| <= |s|
    ensures Step(c, d.rest).Wait? || Step(c, d.rest).Stutter?
    decreases |s|
  {
    match Step(c, s)
    case Wait => Drained([], s)
    case Stutter => Drained([], s)
    case Skip(n) => Drain(c, s[n..])
    case Emit(n) => var d := Drain(c, s[n..]); Drained([s[..n]] + d.frames, d.rest)
  }

  // ---- Headers that do not contain one another ----

  /** g occurs in h and ends before h does. */
  ghost predicate OccursIn(g: seq<byte>, h: seq<byte>) {
    exists k :: 0 <= k && k + |g| < |h| && g <= h[k..]
  }

  /** No header is complete before a different header that it stands inside of. */
  ghost predicate NonContaining(hs: set<seq<byte>>) {
    forall g, h :: g in hs && h in hs && g != h ==> !OccursIn(g, h)
  }

  ghost predicate Regular(c: Settings) {
    NonContaining(Headers(c.cfgs))
  }

  /** Headers of one length never contain one another. */
  lemma {:induction false} EqualLengthIsRegular(c: Settings)
    requires forall j, k :: 0 <= j < |c.cfgs| && 0 <= k < |c.cfgs| ==> |c.cfgs[j].header| == |c.cfgs[k].header|
    ensures Regular(c)
  {
  }

  // ---- Resynchronisation finds the least position that is, or may become, a header ----

  ghost predicate Candidate(hs: set<seq<byte>>, s: seq<byte>) {
    s == [] || exists h :: h in hs && (h <= s || s <= h)
  }

  ghost predicate IsLeastCandidate(hs: set<seq<byte>>, s: seq<byte>, from: nat, p: nat) {
    && from <= p <= |s|
    && Candidate(hs, s[p..])
    && forall j :: from <= j < p ==> !Candidate(hs, s[j..])
  }

  lemma {:induction false} OccursAfter(g: seq<byte>, h: seq<byte>, s: seq<byte>, j: nat, f: nat)
    requires j <= f <= |s| && s[j..] < h && g <= s[f..]
    ensures OccursIn(g, h)
  {
    assert s[f..] == s[j..][f - j..];
    assert g <= h[f - j..];
  }

  lemma {:induction false} FullExcludesEarlierPartial(hs: set<seq<byte>>, s: seq<byte>, j: nat, f: nat)
    requires j <= f <= |s| && NonContaining(hs) && FullAt(hs, s, f)
    ensures !PartialAt(hs, s, j)
  {
    var g :| g in hs && g <= s[f..];
    forall h | h in hs && s[j..] < h
      ensures OccursIn(g, h)
    {
      OccursAfter(g, h, s, j, f);
    }
  }

  lemma {:induction false} NeitherFullNorPartial(hs: set<seq<byte>>, s: seq<byte>, j: nat)
    requires j < |s| && !FullAt(hs, s, j) && !PartialAt(hs, s, j)
    ensures !Candidate(hs, s[j..])
  {
  }

  /** A full header always precedes every tail that could still become one, so the two-phase
      search of the source is a search for the least candidate. */
  lemma {:induction false} ResyncIsLeastCandidate(hs: set<seq<byte>>, s: seq<byte>)
    requires s != [] && NonContaining(hs)
    ensures IsLeastCandidate(hs, s, if FullAt(hs, s, 0) then 1 else 0, ResyncPoint(hs, s))
  {
    var from := if FullAt(hs, s, 0) then 1 else 0;
    var f := FirstFull(hs, s, 1);
    var p := ResyncPoint(hs, s);
    forall j | 0 <= j < p
      ensures !PartialAt(hs, s, j)
    {
      if f < |s| {
        FullExcludesEarlierPartial(hs, s, j, f);
      }
    }
    if from == 1 {
      FullExcludesEarlierPartial(hs, s, 0, 0);
    }
    forall j | from <= j < p
      ensures !Candidate(hs, s[j..])
    {
      NeitherFullNorPartial(hs, s, j);
    }
  }

  lemma {:induction false} NotCandidateExtends(hs: set<seq<byte>>, s: seq<byte>, t: seq<byte>)
    requires !Candidate(hs, s)
    ensures !Candidate(hs, s + t)
  {
  }
}
