/** Whole streams of encoded frames, with one framing or with several on one line. */
module RoundTrip {
  import opened Bytes
  import opened Framing
  import opened Values
  import opened Fields
  import opened Segmentation
  import opened Splitting
  import opened Conservation
  import opened FrameEncoder

  // ---- Which configuration a frame belongs to ----

  /** The first configuration that decodes the frame, as the data source looks for it. */
  function FirstDecoding(framings: seq<FramingConfig>, frame: Frame, k: nat): (m: nat)
    requires k <= |framings| && forall fr :: fr in framings ==> fr.maxFrameLen >= 0
    ensures k <= m <= |framings|
    ensures m < |framings| ==> Decode(framings[m], frame).Some?
    ensures forall j :: k <= j < m ==> Decode(framings[j], frame).None?
    decreases |framings| - k
  {
    if k == |framings| || Decode(framings[k], frame).Some? then k else FirstDecoding(framings, frame, k + 1)
  }

  /** Header + length protocols whose frames can be told apart by their headers. */
  ghost predicate TellApart(cfgs: seq<FramingConfig>) {
    && (forall fr :: fr in cfgs ==> fr.mode == FrameMode.HeaderLength && fr.header != [] && fr.maxFrameLen >= 0)
    && (forall j, k :: 0 <= j < k < |cfgs| ==> cfgs[j].header != cfgs[k].header)
    && NonContaining(Headers(cfgs))
  }

  /** A protocol group that the splitter can handle, too. */
  ghost predicate ProperGroup(cfgs: seq<FramingConfig>) {
    && TellApart(cfgs)
    && forall fr :: fr in cfgs ==> fr.HeaderParamsOk() && |fr.header| <= fr.LenFieldEnd()
  }

  /** Different headers, as the splitter asks for, can be told apart if they have one length. */
  lemma {:induction false} DifferentHeadersSuffice(cfgs: seq<FramingConfig>)
    requires forall fr :: fr in cfgs ==>
               && fr.mode == FrameMode.HeaderLength && fr.header != [] && fr.HeaderParamsOk()
               && fr.maxFrameLen >= 0 && |fr.header| <= fr.LenFieldEnd()
    requires forall j, k :: 0 <= j < k < |cfgs| ==> cfgs[j].header != cfgs[k].header
    requires forall j, k :: 0 <= j < |cfgs| && 0 <= k < |cfgs| ==> |cfgs[j].header| == |cfgs[k].header|
    ensures ProperGroup(cfgs)
  {
    if cfgs != [] {
      EqualLengthIsRegular(Settings(cfgs[0], cfgs));
    }
  }

  lemma {:induction false} OneHeaderMatches(cfgs: seq<FramingConfig>, f: seq<byte>, j: nat, k: nat)
    requires TellApart(cfgs) && j < |cfgs| && k < |cfgs|
    requires cfgs[j].header <= f && cfgs[k].header <= f
    ensures j == k
  {
    var g, h := cfgs[j].header, cfgs[k].header;
    assert cfgs[j] in cfgs && cfgs[k] in cfgs;
    assert g in Headers(cfgs) && h in Headers(cfgs);
    if g != h {
      ComparablePrefixes(g, h, f);
    }
  }

  /** A frame that starts with one header is decoded by no other configuration, so the first match
      the data source takes is the right one. */
  lemma {:induction false} DecodedByItsHeader(cfgs: seq<FramingConfig>, f: Frame, k: nat)
    requires TellApart(cfgs) && k < |cfgs|
    requires Decode(cfgs[k], f).Some?
    ensures forall j :: 0 <= j < |cfgs| && j != k ==> Decode(cfgs[j], f).None?
    ensures FirstDecoding(cfgs, f, 0) == k
  {
    forall j | 0 <= j < |cfgs| && Decode(cfgs[j], f).Some?
      ensures j == k
    {
      assert cfgs[j] in cfgs && cfgs[k] in cfgs;
      OneHeaderMatches(cfgs, f, j, k);
    }
  }

  /** Every frame the multi-header splitter cuts off decodes under exactly one configuration: the one
      whose header it was cut at. */
  lemma {:induction false} Attribution(c: Settings, s: seq<byte>)
    requires c.cfgs != [] && ProperGroup(c.cfgs) && Step(c, s).Emit?
    ensures var m, f := FirstMatch(c.cfgs, s, 0), s[..Step(c, s).n];
            && m < |c.cfgs|
            && Decode(c.cfgs[m], f).Some?
            && FirstDecoding(c.cfgs, f, 0) == m
            && forall j :: 0 <= j < |c.cfgs| && j != m ==> Decode(c.cfgs[j], f).None?
  {
    var m := FirstMatch(c.cfgs, s, 0);
    var fr, n := c.cfgs[m], Step(c, s).n;
    assert fr in c.cfgs;
    var f := s[..n];
    assert f[fr.lenOffset..fr.LenFieldEnd()] == s[fr.lenOffset..fr.LenFieldEnd()];
    DecodedByItsHeader(c.cfgs, f, m);
  }

  // ---- One framing ----

  function Encode(fr: FramingConfig, m: Message): Frame
    requires 0 <= fr.tagBytes && 0 <= fr.lenBytes && 0 <= fr.lenOffset && 0 <= fr.lenBytesHeader
  {
    if fr.mode == Tlv then TlvFrame(fr, if m.tagId < 0 then 0 else m.tagId, m.payload) else HeaderFrame(fr, m.payload)
  }

  /** The parts of the message fit their fields. */
  predicate Encodes(fr: FramingConfig, m: Message) {
    if fr.mode == Tlv then m.tagId >= 0 && TlvFits(fr, m.tagId, m.payload)
    else m.tagId == -1 && HeaderFits(fr, m.payload)
  }

  /** The message can be carried by a stream framed by fr: its parts fit, and a header stands before the
      length field with nothing between the two. */
  predicate Carries(fr: FramingConfig, m: Message) {
    Encodes(fr, m) && (fr.mode == HeaderLength ==> fr.header != [] && fr.lenOffset <= |fr.header|)
  }

  predicate Usable(fr: FramingConfig) {
    0 <= fr.tagBytes && 0 <= fr.lenBytes && 0 <= fr.lenOffset && 0 <= fr.lenBytesHeader && 0 <= fr.maxFrameLen
  }

  lemma {:induction false} EncodedDecodes(fr: FramingConfig, m: Message)
    requires Usable(fr) && Encodes(fr, m)
    ensures Decode(fr, Encode(fr, m)) == Some(m)
  {
    if fr.mode == Tlv {
      TlvRoundTrip(fr, m.tagId, m.payload);
    } else {
      HeaderRoundTrip(fr, m.payload);
    }
  }

  lemma {:induction false} EncodedIsValid(fr: FramingConfig, m: Message)
    requires Usable(fr) && Carries(fr, m)
    ensures ValidFrame(Settings(fr, []), Encode(fr, m))
    ensures Decode(fr, Encode(fr, m)) == Some(m)
  {
    if fr.mode == Tlv {
      TlvRoundTrip(fr, m.tagId, m.payload);
    } else {
      HeaderParts(fr, m.payload);
      HeaderRoundTrip(fr, m.payload);
    }
  }

  /** The generator may put its length field anywhere behind the header, and the decoder of single
      frames follows it there. The splitter does so only if nothing stands between the two. */
  lemma {:induction false} SplitterTakesEncodedIff(fr: FramingConfig, payload: seq<byte>)
    requires HeaderFits(fr, payload)
    ensures ValidFrame(Settings(fr, []), HeaderFrame(fr, payload)) <==> fr.header != [] && fr.lenOffset <= |fr.header|
  {
    HeaderParts(fr, payload);
  }

  // ---- Several framings on one line ----

  /** A message and the configuration that frames it. */
  datatype Letter = Letter(k: nat, m: Message)

  /** Settings with one configuration have it at index 0. */
  predicate Sendable(c: Settings, l: Letter) {
    l.k < |Active(c)| && Usable(Active(c)[l.k]) && Carries(Active(c)[l.k], l.m)
  }

  function LetterFrame(c: Settings, l: Letter): Frame
    requires Sendable(c, l)
  {
    Encode(Active(c)[l.k], l.m)
  }

  function LetterBursts(c: Settings, letters: seq<Letter>): (bs: seq<Burst>)
    requires forall l :: l in letters ==> Sendable(c, l)
    ensures |bs| == |letters|
    ensures forall i :: 0 <= i < |bs| ==> bs[i] == Burst([], LetterFrame(c, letters[i]))
  {
    seq(|letters|, i requires 0 <= i < |letters| => Burst([], LetterFrame(c, letters[i])))
  }

  lemma {:induction false} LetterIsValid(c: Settings, l: Letter)
    requires Sendable(c, l) && (c.cfgs == [] || ProperGroup(c.cfgs))
    ensures ValidFrame(c, LetterFrame(c, l))
    ensures Decode(Active(c)[l.k], LetterFrame(c, l)) == Some(l.m)
    ensures c.cfgs != [] ==> FirstDecoding(c.cfgs, LetterFrame(c, l), 0) == l.k
  {
    var fr := Active(c)[l.k];
    var f := LetterFrame(c, l);
    EncodedIsValid(fr, l.m);
    if c.cfgs != [] {
      assert fr in c.cfgs;
      HeaderParts(fr, l.m.payload);
      var m := FirstMatch(c.cfgs, f, 0);
      assert Matches(fr, f);
      OneHeaderMatches(c.cfgs, f, m, l.k);
      DecodedByItsHeader(c.cfgs, f, l.k);
    } else {
      assert c == Settings(fr, []);
    }
  }

  /** The frame is the one sent, and carries the letter's message under the letter's configuration. */
  ghost predicate Delivers(c: Settings, l: Letter, f: Frame) {
    && Sendable(c, l)
    && f == LetterFrame(c, l)
    && Active(c)[l.k].maxFrameLen >= 0
    && Decode(Active(c)[l.k], f) == Some(l.m)
    && (c.cfgs != [] && ProperGroup(c.cfgs) ==> FirstDecoding(c.cfgs, f, 0) == l.k)
  }

  lemma {:induction false} LetterDelivers(c: Settings, l: Letter)
    requires Sendable(c, l) && (c.cfgs == [] || ProperGroup(c.cfgs))
    ensures Delivers(c, l, LetterFrame(c, l)) && Recoverable(c, Burst([], LetterFrame(c, l)))
  {
    LetterIsValid(c, l);
  }

  /** The bytes received are some of the letters and less than the header of the next. */
  ghost predicate CutInHeader(c: Settings, letters: seq<Letter>, received: seq<byte>)
    requires forall l :: l in letters ==> Sendable(c, l)
  {
    exists i: nat, p: nat :: i < |letters| && CutAt(c, letters, i, p, received)
  }

  ghost predicate CutAt(c: Settings, letters: seq<Letter>, i: nat, p: nat, received: seq<byte>)
    requires i < |letters| && forall l :: l in letters ==> Sendable(c, l)
  {
    var f := LetterFrame(c, letters[i]);
    && 0 < p < |Active(c)[letters[i].k].header| && p <= |f|
    && received == Stream(LetterBursts(c, letters[..i])) + f[..p]
  }

  lemma {:induction false} LetterFrontHeader(c: Settings, l: Letter)
    requires c.cfgs != [] && ProperGroup(c.cfgs) && Sendable(c, l)
    ensures FrontHeader(c, LetterFrame(c, l)) == c.cfgs[l.k].header
    ensures c.cfgs[l.k].header <= LetterFrame(c, l) && c.cfgs[l.k].header in SyncHeaders(c)
  {
    var fr := c.cfgs[l.k];
    assert fr in c.cfgs;
    HeaderParts(fr, l.m.payload);
    assert Matches(fr, LetterFrame(c, l));
    OneHeaderMatches(c.cfgs, LetterFrame(c, l), FirstMatch(c.cfgs, LetterFrame(c, l), 0), l.k);
  }

  /** Without a gap, a header is open as soon as it has begun. */
  lemma {:induction false} LetterOpensHeader(c: Settings, l: Letter, n: nat)
    requires c.cfgs != [] && ProperGroup(c.cfgs) && Sendable(c, l)
    ensures OpenHeader(c, Burst([], LetterFrame(c, l)), n) <==>
            0 < n < |c.cfgs[l.k].header| && n <= |LetterFrame(c, l)|
  {
    hide FrontHeader, LetterFrame, SyncHeaders;
    var f, h := LetterFrame(c, l), c.cfgs[l.k].header;
    LetterFrontHeader(c, l);
    assert [] + f == f;
    if 0 < n < |h| && n <= |f| {
      assert f[..n][0..] < h;
      assert PartialAt(SyncHeaders(c), f[..n], 0);
    }
  }

  lemma {:induction false} CutsHeaderIff(c: Settings, letters: seq<Letter>, received: seq<byte>)
    requires c.cfgs != [] && ProperGroup(c.cfgs) && forall l :: l in letters ==> Sendable(c, l)
    ensures CutsHeader(c, LetterBursts(c, letters), received) <==> CutInHeader(c, letters, received)
  {
    hide PartialAt, FrontHeader, LetterFrame, ProperGroup, Stream;
    var bursts := LetterBursts(c, letters);
    forall i: nat, n: nat | i < |letters|
      ensures OpenHeader(c, bursts[i], n) && received == Stream(bursts[..i]) + (bursts[i].gap + bursts[i].frame)[..n]
         <==> CutAt(c, letters, i, n, received)
    {
      LetterOpensHeader(c, letters[i], n);
      assert bursts[i].gap + bursts[i].frame == LetterFrame(c, letters[i]);
      assert bursts[..i] == LetterBursts(c, letters[..i]);
    }
  }

  /** Any list of messages, encoded and sent back to back, cut into chunks in any way, is split back
      into exactly those frames; each decodes to its message, under the configuration it was sent with.
      The source's loop gets stuck on the way exactly if there are several headers and some chunk ends
      inside one. */
  lemma {:induction false} StreamRoundTrip(c: Settings, letters: seq<Letter>, chunks: seq<seq<byte>>)
    requires Fits(c) && (c.cfgs == [] || ProperGroup(c.cfgs))
    requires forall l :: l in letters ==> Sendable(c, l)
    requires Concat(chunks) == Stream(LetterBursts(c, letters))
    ensures var fed := FeedAll(c, [], chunks);
            && fed.buf == []
            && |fed.frames| == |letters|
            && (forall i :: 0 <= i < |letters| ==> Delivers(c, letters[i], fed.frames[i]))
            && (fed.hangs <==>
                c.cfgs != [] && exists k :: 0 < k <= |chunks| && CutInHeader(c, letters, Concat(chunks[..k])))
  {
    hide *;
    var bursts := LetterBursts(c, letters);
    forall i | 0 <= i < |letters|
      ensures Recoverable(c, bursts[i]) && Delivers(c, letters[i], bursts[i].frame)
    {
      LetterDelivers(c, letters[i]);
    }
    GroupIsRegular(c);
    ChunkedRecovery(c, bursts, chunks);
    FramesOfBursts(bursts);
    if c.cfgs != [] {
      forall k | 0 < k <= |chunks|
        ensures CutsHeader(c, bursts, Concat(chunks[..k])) == CutInHeader(c, letters, Concat(chunks[..k]))
      {
        CutsHeaderIff(c, letters, Concat(chunks[..k]));
      }
    }
  }

  lemma {:induction false} GroupIsRegular(c: Settings)
    requires c.cfgs == [] || ProperGroup(c.cfgs)
    ensures Regular(c)
  {
  }

  lemma {:induction false} FramesOfBursts(bursts: seq<Burst>)
    ensures |FramesOf(bursts)| == |bursts|
    ensures forall i :: 0 <= i < |bursts| ==> FramesOf(bursts)[i] == bursts[i].frame
  {
    if bursts != [] {
      FramesOfBursts(bursts[1..]);
    }
  }
}
