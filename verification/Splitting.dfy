/** Runs of a splitter: feeding chunk after chunk, the overflow cap, and the laws a whole run keeps. */
module Splitting {
  import opened Bytes
  import opened Framing
  import opened Segmentation

  // ---- One feed and whole runs ----

  /** The largest of m and the frame limits of cfgs from k on. */
  function MaxFrom(m: int32, cfgs: seq<FramingConfig>, k: nat): (r: int32)
    requires k <= |cfgs|
    ensures r >= m && forall j :: k <= j < |cfgs| ==> r >= cfgs[j].maxFrameLen
    decreases |cfgs| - k
  {
    if k == |cfgs| then m
    else MaxFrom(if m < cfgs[k].maxFrameLen then cfgs[k].maxFrameLen else m, cfgs, k + 1)
  }

  function MaxFrameLen(c: Settings): (r: int32)
    ensures r >= c.cfg.maxFrameLen && forall cfg :: cfg in c.cfgs ==> r >= cfg.maxFrameLen
  {
    MaxFrom(c.cfg.maxFrameLen, c.cfgs, 0)
  }

  /** The most bytes kept between feeds, in the source's 64-bit arithmetic. */
  function Cap(c: Settings): nat {
    (AsUint64(MaxFrameLen(c)) * 2 + 1024) % TWO_64
  }

  function Clip(cap: nat, s: seq<byte>): (r: seq<byte>)
    ensures |r| <= cap && |r| <= |s|
  {
    if |s| > cap then s[|s| - cap..] else s
  }

  datatype Fed = Fed(frames: seq<Frame>, buf: seq<byte>, hangs: bool)

  /** One feed of data after the bytes buf kept so far. hangs: the extraction loop of the source
      does not end; buf is then what it would keep if it ended there. */
  ghost function FeedSpec(c: Settings, buf: seq<byte>, data: seq<byte>): Fed {
    var d := Drain(c, buf + data);
    Fed(d.frames, Clip(Cap(c), d.rest), Step(c, d.rest).Stutter?)
  }

  ghost function FeedAll(c: Settings, buf: seq<byte>, chunks: seq<seq<byte>>): Fed
    decreases |chunks|
  {
    if chunks == [] then Fed([], buf, false)
    else
      var f := FeedSpec(c, buf, chunks[0]);
      var g := FeedAll(c, f.buf, chunks[1..]);
      Fed(f.frames + g.frames, g.buf, f.hangs || g.hangs)
  }

  function Concat(chunks: seq<seq<byte>>): seq<byte> {
    if chunks == [] then [] else chunks[0] + Concat(chunks[1..])
  }

  // ---- What can be left in the buffer, and when the cap never drops any of it ----

  /** The configurations that decide about the stream. */
  function Active(c: Settings): seq<FramingConfig> {
    if c.cfgs != [] then c.cfgs else [c.cfg]
  }

  predicate FitsOne(cfg: FramingConfig, header: bool, cap: nat) {
    && cfg.maxFrameLen >= 0
    && (header ==> |cfg.header| <= cap + 1)
    && (header && cfg.HeaderParamsOk() ==> cfg.LenFieldEnd() <= cap + 1)
  }

  /** Frame lengths are not negative, and every header and length field fits in the overflow cap. */
  predicate Fits(c: Settings) {
    && (forall cfg :: cfg in Active(c) ==> FitsOne(cfg, c.cfgs != [] || cfg.mode == HeaderLength, Cap(c)))
    && (c.cfgs == [] ==> if c.cfg.mode == Tlv then c.cfg.TlvParamsOk() else c.cfg.HeaderParamsOk())
  }

  lemma {:induction false} CapValue(c: Settings)
    requires MaxFrameLen(c) >= 0
    ensures Cap(c) == 2 * MaxFrameLen(c) + 1024
  {
  }

  /** m is the largest of all the frame length limits. */
  ghost predicate IsLargestLimit(c: Settings, m: int) {
    && c.cfg.maxFrameLen <= m && (forall cfg :: cfg in c.cfgs ==> cfg.maxFrameLen <= m)
    && (m == c.cfg.maxFrameLen || exists cfg :: cfg in c.cfgs && m == cfg.maxFrameLen)
  }

  lemma {:induction false} MaxFromIsLimit(m: int32, cfgs: seq<FramingConfig>, k: nat)
    requires k <= |cfgs|
    ensures var r := MaxFrom(m, cfgs, k); r == m || exists cfg :: cfg in cfgs && r == cfg.maxFrameLen
    decreases |cfgs| - k
  {
    if k < |cfgs| {
      MaxFromIsLimit(if m < cfgs[k].maxFrameLen then cfgs[k].maxFrameLen else m, cfgs, k + 1);
      assert cfgs[k] in cfgs;
    }
  }

  /** What a feed keeps: the bytes it can decide nothing about yet, or only the last of them if they are more than
      twice the largest frame length limit and 1024. With a negative limit below -512 that number is huge. */
  lemma {:induction false} KeptAfterFeed(c: Settings, buf: seq<byte>, data: seq<byte>, m: int)
    requires IsLargestLimit(c, m)
    ensures var most := if 2 * m + 1024 < 0 then 2 * m + 1024 + 0x1_0000_0000_0000_0000 else 2 * m + 1024;
            var rest, kept := Drain(c, buf + data).rest, FeedSpec(c, buf, data).buf;
            && |kept| == (if |rest| > most then most else |rest|)
            && kept == rest[|rest| - |kept|..]
  {
    hide Drain, Step, Cap;
    CapIs(c, m);
  }

  lemma {:induction false} CapIs(c: Settings, m: int)
    requires IsLargestLimit(c, m)
    ensures Cap(c) == if 2 * m + 1024 < 0 then 2 * m + 1024 + 0x1_0000_0000_0000_0000 else 2 * m + 1024
  {
    MaxFromIsLimit(c.cfg.maxFrameLen, c.cfgs, 0);
    assert MaxFrameLen(c) == m;
  }

  lemma {:induction false} WaitingTlv(cfg: FramingConfig, s: seq<byte>)
    requires cfg.TlvParamsOk() && cfg.maxFrameLen >= 0 && StepTlv(cfg, s).Wait?
    ensures |s| < cfg.TlvHeadLen() + cfg.maxFrameLen
  {
  }

  lemma {:induction false} WaitingMatched(cfg: FramingConfig, hs: set<seq<byte>>, s: seq<byte>)
    requires cfg.HeaderParamsOk() && s != [] && cfg.maxFrameLen >= 0 && StepMatched(cfg, hs, s).Wait?
    ensures |s| < cfg.LenFieldEnd() || |s| < cfg.maxFrameLen
  {
  }

  lemma {:induction false} StuckIsPrefix(hs: set<seq<byte>>, s: seq<byte>)
    requires s != [] && ResyncPoint(hs, s) == 0
    ensures exists h :: h in hs && s < h
  {
    assert s[0..] == s;
  }

  /** What is left undecided is shorter than a header, a length field or the longest frame. */
  lemma {:induction false} ResidueBound(c: Settings, s: seq<byte>)
    requires Fits(c) && (Step(c, s).Wait? || Step(c, s).Stutter?)
    ensures |s| <= Cap(c)
    ensures c.cfgs == [] && c.cfg.mode == Tlv ==> |s| < c.cfg.maxFrameLen + 8
    ensures c.cfgs == [] && c.cfg.mode == HeaderLength ==>
              |s| < |c.cfg.header| + 4 || |s| < c.cfg.maxFrameLen
  {
    assert MaxFrameLen(c) >= 0 by {
      assert Active(c)[0] in Active(c);
    }
    CapValue(c);
    if s == [] {
    } else if c.cfgs != [] {
      var hs := Headers(c.cfgs);
      var m := FirstMatch(c.cfgs, s, 0);
      if m < |c.cfgs| && Step(c, s).Wait? {
        WaitingMatched(c.cfgs[m], hs, s);
      } else {
        StuckIsPrefix(hs, s);
      }
    } else if c.cfg.mode == Tlv {
      WaitingTlv(c.cfg, s);
    } else if Matches(c.cfg, s) && Step(c, s).Wait? {
      WaitingMatched(c.cfg, {c.cfg.header}, s);
    } else {
      StuckIsPrefix({c.cfg.header}, s);
    }
  }

  /** Whatever is received, what is left undecided of it is within the overflow cap. */
  ghost predicate NeverDrops(c: Settings) {
    forall s :: |Drain(c, s).rest| <= Cap(c)
  }

  /** Single header: the overflow cap never drops a byte of any stream exactly when the header and
      the length field both fit. */
  lemma {:induction false} CapNeverDropsIff(c: Settings)
    requires c.cfgs == [] && c.cfg.mode == HeaderLength && c.cfg.HeaderParamsOk() && c.cfg.maxFrameLen >= 0
    ensures NeverDrops(c) <==> |c.cfg.header| <= Cap(c) + 1 && c.cfg.LenFieldEnd() <= Cap(c) + 1
  {
    var h := c.cfg.header;
    if |h| > Cap(c) + 1 {
      PrefixIsKept(c, h[..|h| - 1]);
      assert |Drain(c, h[..|h| - 1]).rest| > Cap(c);
    } else if c.cfg.LenFieldEnd() > Cap(c) + 1 {
      var s := h + seq(c.cfg.LenFieldEnd() - 1 - |h|, i => 0);
      assert Step(c, s) == Wait;
      assert |Drain(c, s).rest| > Cap(c);
    } else {
      FitsNeverDrops(c);
    }
  }

  lemma {:induction false} PrefixIsKept(c: Settings, s: seq<byte>)
    requires c.cfgs == [] && c.cfg.mode == HeaderLength && c.cfg.HeaderParamsOk()
    requires s < c.cfg.header && s != []
    ensures Drain(c, s) == Drained([], s)
  {
    var hs := {c.cfg.header};
    assert s[0..] == s && PartialAt(hs, s, 0);
    assert ResyncPoint(hs, s) == 0;
  }

  /** Several headers: the same exact condition for every configuration, if the headers differ and none is
      completed inside another. */
  lemma {:induction false} CapNeverDropsGroupIff(c: Settings)
    requires c.cfgs != [] && Regular(c) && forall cfg :: cfg in c.cfgs ==> cfg.maxFrameLen >= 0
    requires forall j, k :: 0 <= j < k < |c.cfgs| ==> c.cfgs[j].header != c.cfgs[k].header
    ensures NeverDrops(c) <==> Fits(c)
  {
    hide Step, Regular, Fits, NeverDrops;
    if Fits(c) {
      FitsNeverDrops(c);
    }
    if NeverDrops(c) {
      KeptFitsAll(c);
    }
  }

  lemma {:induction false} FitsNeverDrops(c: Settings)
    requires Fits(c)
    ensures NeverDrops(c)
  {
    hide Step, Cap, Fits;
    forall s
      ensures |Drain(c, s).rest| <= Cap(c)
    {
      ResidueBound(c, Drain(c, s).rest);
    }
  }

  lemma {:induction false} KeptFitsAll(c: Settings)
    requires c.cfgs != [] && Regular(c) && forall cfg :: cfg in c.cfgs ==> cfg.maxFrameLen >= 0
    requires forall j, k :: 0 <= j < k < |c.cfgs| ==> c.cfgs[j].header != c.cfgs[k].header
    requires NeverDrops(c)
    ensures Fits(c)
  {
    hide Step, Drain, Cap, Regular, FitsOne, NeverDrops;
    forall cfg | cfg in Active(c)
      ensures FitsOne(cfg, true, Cap(c))
    {
      var k :| 0 <= k < |c.cfgs| && c.cfgs[k] == cfg;
      KeptFits(c, k);
    }
  }

  lemma {:induction false} KeptFits(c: Settings, k: nat)
    requires k < |c.cfgs| && Regular(c) && c.cfgs[k].maxFrameLen >= 0
    requires forall i, j :: 0 <= i < j < |c.cfgs| ==> c.cfgs[i].header != c.cfgs[j].header
    requires NeverDrops(c)
    ensures FitsOne(c.cfgs[k], true, Cap(c))
  {
    hide Step, Drain, Cap, Regular;
    var cfg := c.cfgs[k];
    var h := cfg.header;
    if |h| > 1 {
      GroupPrefixIsKept(c, k);
      assert |Drain(c, h[..|h| - 1]).rest| <= Cap(c);
    }
    if h != [] && cfg.HeaderParamsOk() && cfg.LenFieldEnd() > |h| {
      var s := h + seq(cfg.LenFieldEnd() - 1 - |h|, i => 0);
      GroupHeaderIsKept(c, k, s);
      assert |Drain(c, s).rest| <= Cap(c);
    }
    CapIsLarge(c, k);
  }

  lemma {:induction false} CapIsLarge(c: Settings, k: nat)
    requires k < |c.cfgs| && c.cfgs[k].maxFrameLen >= 0
    ensures Cap(c) >= 1024
  {
    assert c.cfgs[k] in c.cfgs;
    CapValue(c);
  }

  lemma {:induction false} GroupPrefixIsKept(c: Settings, k: nat)
    requires k < |c.cfgs| && Regular(c) && |c.cfgs[k].header| > 1
    ensures var s := c.cfgs[k].header[..|c.cfgs[k].header| - 1]; Drain(c, s) == Drained([], s)
  {
    hide Step;
    var h := c.cfgs[k].header;
    var s := h[..|h| - 1];
    assert c.cfgs[k].header in Headers(c.cfgs) && s < h;
    HangsIffPartialHeader(c, s);
  }

  /** A header and less than its length field wait. */
  lemma {:induction false} GroupHeaderIsKept(c: Settings, k: nat, s: seq<byte>)
    requires k < |c.cfgs| && Regular(c) && Matches(c.cfgs[k], s) && |s| < c.cfgs[k].LenFieldEnd()
    requires forall i, j :: 0 <= i < j < |c.cfgs| ==> c.cfgs[i].header != c.cfgs[j].header
    ensures Drain(c, s) == Drained([], s)
  {
    var h := c.cfgs[k].header;
    forall j | 0 <= j < |c.cfgs| && Matches(c.cfgs[j], s)
      ensures j == k
    {
      var g := c.cfgs[j].header;
      assert g in Headers(c.cfgs) && h in Headers(c.cfgs);
      if g != h {
        ComparablePrefixes(g, h, s);
      }
    }
    assert FirstMatch(c.cfgs, s, 0) == k;
    assert Step(c, s) == Wait;
  }

  // ---- Between two feeds ----

  /** A buffer between two feeds: nothing more can be decided, nothing exceeds the cap. */
  ghost predicate Quiet(c: Settings, buf: seq<byte>) {
    (Step(c, buf).Wait? || Step(c, buf).Stutter?) && |buf| <= Cap(c)
  }

  lemma {:induction false} FeedLeavesQuiet(c: Settings, buf: seq<byte>, data: seq<byte>)
    requires Fits(c)
    ensures var f := FeedSpec(c, buf, data);
            Quiet(c, f.buf) && f.buf == Drain(c, buf + data).rest
  {
    hide *;
    FeedUnfolds(c, buf, data);
    ResidueBound(c, Drain(c, buf + data).rest);
    QuietRest(c, buf + data);
  }

  lemma {:induction false} FeedUnfolds(c: Settings, buf: seq<byte>, data: seq<byte>)
    ensures var f, d := FeedSpec(c, buf, data), Drain(c, buf + data);
            && f.frames == d.frames
            && (|d.rest| <= Cap(c) ==> f.buf == d.rest)
            && f.hangs == Step(c, d.rest).Stutter?
  {
  }

  lemma {:induction false} QuietRest(c: Settings, s: seq<byte>)
    requires |Drain(c, s).rest| <= Cap(c)
    ensures Quiet(c, Drain(c, s).rest)
  {
  }

  lemma {:induction false} QuietDrains(c: Settings, buf: seq<byte>)
    requires Quiet(c, buf)
    ensures Drain(c, buf) == Drained([], buf)
  {
  }

  // ---- When the extraction loop does not end ----

  /** With one configuration the extraction loop always ends. */
  lemma {:induction false} SingleNeverHangs(c: Settings, s: seq<byte>)
    requires c.cfgs == []
    ensures !Step(c, s).Stutter?
  {
    if s != [] && c.cfg.mode == HeaderLength && Matches(c.cfg, s) {
      var hs := {c.cfg.header};
      assert s[0..] == s && !PartialAt(hs, s, 0);
    }
  }

  /** There are several headers; the bytes are the beginning of one, and no header is complete behind their
      front; and no configuration matches them, or the one that does announces an illegal length. */
  ghost predicate SpinsOn(c: Settings, s: seq<byte>) {
    && c.cfgs != [] && s != []
    && (exists h :: h in Headers(c.cfgs) && s < h)
    && (forall j :: 0 < j < |s| ==> !FullAt(Headers(c.cfgs), s, j))
    && var m := FirstMatch(c.cfgs, s, 0);
       m < |c.cfgs| ==> |s| >= c.cfgs[m].LenFieldEnd() && !c.cfgs[m].LegalTotal(c.cfgs[m].HeaderTotal(s))
  }

  /** For every configuration, nested headers included: when one decision repeats itself. */
  lemma {:induction false} SpinsIff(c: Settings, s: seq<byte>)
    ensures Step(c, s).Stutter? <==> SpinsOn(c, s)
  {
    hide FullAt;
    if c.cfgs == [] {
      SingleNeverHangs(c, s);
    } else if s != [] {
      ResyncStays(Headers(c.cfgs), s);
    }
  }

  lemma {:induction false} ResyncStays(hs: set<seq<byte>>, s: seq<byte>)
    requires s != []
    ensures ResyncPoint(hs, s) == 0 <==>
            (exists h :: h in hs && s < h) && forall j :: 0 < j < |s| ==> !FullAt(hs, s, j)
  {
    hide FullAt;
    assert s[0..] == s;
    assert PartialAt(hs, s, 0) <==> exists h :: h in hs && s < h;
  }

  /** With several headers it fails to end exactly when the bytes it is left with are a non-empty proper
      prefix of one of the headers. */
  lemma {:induction false} HangsIffPartialHeader(c: Settings, s: seq<byte>)
    requires c.cfgs != [] && Regular(c)
    ensures Step(c, s).Stutter? <==> s != [] && exists h :: h in Headers(c.cfgs) && s < h
  {
    var hs := Headers(c.cfgs);
    if s != [] {
      assert s[0..] == s;
      assert PartialAt(hs, s, 0) <==> exists h :: h in hs && s < h;
      if PartialAt(hs, s, 0) {
        PartialDoesNotMatch(c, s);
      }
    }
  }

  lemma {:induction false} PartialDoesNotMatch(c: Settings, s: seq<byte>)
    requires Regular(c) && s != [] && PartialAt(Headers(c.cfgs), s, 0)
    ensures FirstMatch(c.cfgs, s, 0) == |c.cfgs|
    ensures ResyncPoint(Headers(c.cfgs), s) == 0
  {
    var hs := Headers(c.cfgs);
    assert s[0..] == s;
    forall f | 0 <= f < |s|
      ensures !FullAt(hs, s, f)
    {
      if FullAt(hs, s, f) {
        FullExcludesEarlierPartial(hs, s, 0, f);
      }
    }
    forall j | 0 <= j < |c.cfgs|
      ensures !Matches(c.cfgs[j], s)
    {
      MatchIsFull(c.cfgs, s, j);
    }
  }

  lemma {:induction false} MatchIsFull(cfgs: seq<FramingConfig>, s: seq<byte>, j: nat)
    requires j < |cfgs|
    ensures Matches(cfgs[j], s) ==> FullAt(Headers(cfgs), s, 0)
  {
    assert s[0..] == s;
    assert cfgs[j].header != [] ==> cfgs[j].header in Headers(cfgs);
  }

  /** There are several headers, and what cannot be extracted of the bytes received is the beginning of one. */
  ghost predicate StuckAfter(c: Settings, received: seq<byte>) {
    var r := Drain(c, received).rest;
    c.cfgs != [] && r != [] && exists h :: h in Headers(c.cfgs) && r < h
  }

  lemma {:induction false} FeedHangsIff(c: Settings, buf: seq<byte>, data: seq<byte>)
    requires Regular(c)
    ensures FeedSpec(c, buf, data).hangs <==> StuckAfter(c, buf + data)
  {
    hide Step, Drain, Cap;
    var r := Drain(c, buf + data).rest;
    if c.cfgs == [] {
      SingleNeverHangs(c, r);
    } else {
      HangsIffPartialHeader(c, r);
    }
  }

  // ---- Segmentation invariance ----

  /** Feeding a and then b emits the frames and keeps the bytes that feeding a + b does. The joint feed
      hangs if the second one does; the first may hang as well, if the cut is in the wrong place. */
  lemma {:induction false} TwoFeeds(c: Settings, buf: seq<byte>, a: seq<byte>, b: seq<byte>)
    requires Regular(c) && Fits(c)
    ensures var f := FeedSpec(c, buf, a);
            var g := FeedSpec(c, f.buf, b);
            FeedSpec(c, buf, a + b) == Fed(f.frames + g.frames, g.buf, g.hangs)
    ensures FeedSpec(c, buf, a).hangs <==> StuckAfter(c, buf + a)
    ensures FeedSpec(c, buf, a + b).hangs <==> StuckAfter(c, buf + a + b)
  {
    hide *;
    var f := FeedSpec(c, buf, a);
    var g := FeedSpec(c, f.buf, b);
    FeedLeavesQuiet(c, buf, a);
    FeedLeavesQuiet(c, f.buf, b);
    FeedLeavesQuiet(c, buf, a + b);
    FeedUnfolds(c, buf, a);
    FeedUnfolds(c, f.buf, b);
    FeedUnfolds(c, buf, a + b);
    assert buf + (a + b) == (buf + a) + b;
    DrainSplits(c, buf + a, b);
    FeedHangsIff(c, buf, a);
    FeedHangsIff(c, buf, a + b);
  }

  lemma {:induction false} UnusableFeed(c: Settings, buf: seq<byte>, data: seq<byte>)
    requires Unusable(c)
    ensures FeedSpec(c, buf, data) == Fed([], Clip(Cap(c), buf + data), false)
  {
    hide Cap, Clip;
  }

  predicate Unusable(c: Settings) {
    c.cfgs == [] && if c.cfg.mode == Tlv then !c.cfg.TlvParamsOk() else !c.cfg.HeaderParamsOk()
  }

  /** A configuration with unusable parameters extracts nothing, however the stream is cut, and keeps
      the last bytes received. */
  lemma {:induction false} UnusableTwoFeeds(c: Settings, buf: seq<byte>, a: seq<byte>, b: seq<byte>)
    requires Unusable(c)
    ensures var f := FeedSpec(c, buf, a);
            var g := FeedSpec(c, f.buf, b);
            FeedSpec(c, buf, a + b) == g && f.frames == g.frames == [] && g.buf == Clip(Cap(c), buf + a + b)
  {
    hide *;
    UnusableFeed(c, buf, a);
    UnusableFeed(c, FeedSpec(c, buf, a).buf, b);
    UnusableFeed(c, buf, a + b);
    assert buf + (a + b) == buf + a + b;
    ClipTwice(Cap(c), buf + a, b);
  }

  lemma {:induction false} ClipTwice(cap: nat, s: seq<byte>, t: seq<byte>)
    ensures Clip(cap, Clip(cap, s) + t) == Clip(cap, s + t)
  {
  }

  lemma {:induction false} RunDrains(c: Settings, buf: seq<byte>, chunks: seq<seq<byte>>)
    requires Regular(c) && Fits(c) && Quiet(c, buf)
    ensures var f := FeedAll(c, buf, chunks);
            var d := Drain(c, buf + Concat(chunks));
            f.frames == d.frames && f.buf == d.rest
    decreases |chunks|
  {
    if chunks == [] {
      QuietDrains(c, buf);
      assert buf + Concat(chunks) == buf;
    } else {
      RunIsOneDrainStep(c, buf, chunks);
      RunDrains(c, FeedSpec(c, buf, chunks[0]).buf, chunks[1..]);
    }
  }

  lemma {:induction false} RunIsOneDrainStep(c: Settings, buf: seq<byte>, chunks: seq<seq<byte>>)
    requires Regular(c) && Fits(c) && Quiet(c, buf) && chunks != []
    ensures var f := FeedSpec(c, buf, chunks[0]);
            var d := Drain(c, f.buf + Concat(chunks[1..]));
            Quiet(c, f.buf) && Drain(c, buf + Concat(chunks)) == Drained(f.frames + d.frames, d.rest)
  {
    hide *;
    FeedLeavesQuiet(c, buf, chunks[0]);
    FeedUnfolds(c, buf, chunks[0]);
    ConcatUnfolds(chunks);
    assert buf + Concat(chunks) == (buf + chunks[0]) + Concat(chunks[1..]);
    DrainSplits(c, buf + chunks[0], Concat(chunks[1..]));
  }

  lemma {:induction false} ConcatUnfolds(chunks: seq<seq<byte>>)
    requires chunks != []
    ensures Concat(chunks) == chunks[0] + Concat(chunks[1..])
  {
  }

  lemma {:induction false} RunHangs(c: Settings, buf: seq<byte>, chunks: seq<seq<byte>>)
    requires Regular(c) && Fits(c) && Quiet(c, buf)
    ensures FeedAll(c, buf, chunks).hangs <==>
            exists k :: 0 < k <= |chunks| && StuckAfter(c, buf + Concat(chunks[..k]))
    decreases |chunks|
  {
    hide StuckAfter, FeedSpec, Quiet, Drain, Fits, Regular;
    if chunks != [] {
      var f := FeedSpec(c, buf, chunks[0]);
      FeedHangsIff(c, buf, chunks[0]);
      FeedLeavesQuiet(c, buf, chunks[0]);
      RunHangs(c, f.buf, chunks[1..]);
      RunHangsStep(c, buf, chunks);
    }
  }

  lemma {:induction false} RunHangsStep(c: Settings, buf: seq<byte>, chunks: seq<seq<byte>>)
    requires Regular(c) && Fits(c) && Quiet(c, buf) && chunks != []
    ensures (exists k :: 0 < k <= |chunks| && StuckAfter(c, buf + Concat(chunks[..k])))
       <==> (|| StuckAfter(c, buf + chunks[0])
             || exists k :: 0 < k < |chunks| &&
                  StuckAfter(c, FeedSpec(c, buf, chunks[0]).buf + Concat(chunks[1..][..k])))
  {
    hide *;
    var f := FeedSpec(c, buf, chunks[0]);
    assert chunks[..1] == [chunks[0]];
    forall k | 0 < k <= |chunks|
      ensures k == 1 ==> StuckAfter(c, buf + Concat(chunks[..k])) == StuckAfter(c, buf + chunks[0])
      ensures k > 1 ==>
        StuckAfter(c, buf + Concat(chunks[..k])) == StuckAfter(c, f.buf + Concat(chunks[1..][..k - 1]))
    {
      StuckLater(c, buf, chunks, k);
    }
    if k :| 0 < k < |chunks| && StuckAfter(c, f.buf + Concat(chunks[1..][..k])) {
      assert StuckAfter(c, buf + Concat(chunks[..k + 1]));
    }
  }

  lemma {:induction false} StuckLater(c: Settings, buf: seq<byte>, chunks: seq<seq<byte>>, k: nat)
    requires Regular(c) && Fits(c) && Quiet(c, buf) && 0 < k <= |chunks|
    ensures StuckAfter(c, buf + Concat(chunks[..k]))
         == if k == 1 then StuckAfter(c, buf + chunks[0])
            else StuckAfter(c, FeedSpec(c, buf, chunks[0]).buf + Concat(chunks[1..][..k - 1]))
  {
    hide Drain, FeedSpec, Quiet, Fits, Regular;
    var part := chunks[..k];
    assert part[0] == chunks[0] && part[1..] == chunks[1..][..k - 1];
    if k == 1 {
      assert part[1..] == [];
      assert Concat(part) == chunks[0];
    } else {
      RunIsOneDrainStep(c, buf, part);
    }
  }

  /** A whole run extracts what one drain of the whole stream extracts. The source's loop gets stuck on
      the way exactly if some chunk ends where the bytes received so far leave the beginning of a header,
      which takes several headers. */
  lemma {:induction false} RunIsOneDrain(c: Settings, buf: seq<byte>, chunks: seq<seq<byte>>)
    requires Regular(c) && Fits(c) && Quiet(c, buf)
    ensures var f := FeedAll(c, buf, chunks);
            var d := Drain(c, buf + Concat(chunks));
            && f.frames == d.frames && f.buf == d.rest
            && (f.hangs <==> exists k :: 0 < k <= |chunks| && StuckAfter(c, buf + Concat(chunks[..k])))
            && (c.cfgs == [] ==> !f.hangs)
  {
    hide *;
    RunDrains(c, buf, chunks);
    RunHangs(c, buf, chunks);
    SingleNotStuck(c);
  }

  lemma {:induction false} SingleNotStuck(c: Settings)
    ensures c.cfgs == [] ==> forall received :: !StuckAfter(c, received)
  {
  }

  /** Two ways of cutting one stream into chunks give the same frames and keep the same bytes. Whether a
      run gets stuck depends on the cutting only through the places where it cuts, and with one
      configuration no run does. */
  lemma {:induction false} SegmentationInvariance(c: Settings, chunks: seq<seq<byte>>, chunks': seq<seq<byte>>)
    requires Regular(c) && Fits(c) && Concat(chunks) == Concat(chunks')
    ensures FeedAll(c, [], chunks).frames == FeedAll(c, [], chunks').frames
    ensures FeedAll(c, [], chunks).buf == FeedAll(c, [], chunks').buf
    ensures FeedAll(c, [], chunks).hangs <==> exists k :: 0 < k <= |chunks| && StuckAfter(c, Concat(chunks[..k]))
    ensures c.cfgs == [] ==> !FeedAll(c, [], chunks).hangs
  {
    hide *;
    EmptyIsQuiet(c);
    RunIsOneDrain(c, [], chunks);
    RunIsOneDrain(c, [], chunks');
    assert [] + Concat(chunks) == [] + Concat(chunks');
    assert forall k :: 0 < k <= |chunks| ==> [] + Concat(chunks[..k]) == Concat(chunks[..k]);
  }

  lemma {:induction false} EmptyIsQuiet(c: Settings)
    ensures Quiet(c, [])
  {
  }
}
