/** Several headers on one line: when the extraction loop of the source does not end, and for which
    sets of headers the chunking of the stream does not matter. */
module MultiHeader {
  import opened Bytes
  import opened Framing
  import opened Segmentation
  import opened Splitting

  // ---- The extraction loop that does not end ----

  /** A chunk that stops inside the first header of a stream always makes the loop spin: nothing is
      extracted, nothing is discarded, and the source's feed does not return. */
  lemma {:induction false} FirstHeaderCutHangs(c: Settings, h: seq<byte>, p: nat)
    requires c.cfgs != [] && Regular(c)
    requires h in Headers(c.cfgs) && 0 < p < |h|
    ensures FeedSpec(c, [], h[..p]).hangs && FeedSpec(c, [], h[..p]).frames == []
  {
    var s := h[..p];
    assert s < h && [] + s == s;
    HangsIffPartialHeader(c, s);
    assert Drain(c, s) == Drained([], s);
  }

  // ---- Which header sets make chunking irrelevant ----

  /** To the frames and the bytes kept, if the loop waited where it gets stuck. */
  ghost predicate ChunkingIrrelevant(c: Settings) {
    forall a, b :: Concat(a) == Concat(b) ==>
      FeedAll(c, [], a).frames == FeedAll(c, [], b).frames && FeedAll(c, [], a).buf == FeedAll(c, [], b).buf
  }

  /** Usable configurations whose length field follows the header, as the generator writes frames. */
  predicate Adjacent(c: Settings) {
    forall cfg :: cfg in c.cfgs ==> cfg.header != [] && cfg.HeaderParamsOk() && cfg.lenOffset == |cfg.header|
  }

  ghost predicate PrefixFree(hs: set<seq<byte>>) {
    forall g, h :: g in hs && h in hs && g <= h ==> g == h
  }

  /** For headers of which none starts another, chunking is irrelevant to frames and bytes exactly when
      none is completed inside another. */
  lemma {:induction false} ChunkingIrrelevantIff(c: Settings)
    requires c.cfgs != [] && Fits(c) && Adjacent(c) && PrefixFree(Headers(c.cfgs))
    ensures ChunkingIrrelevant(c) <==> NonContaining(Headers(c.cfgs))
  {
    var hs := Headers(c.cfgs);
    if NonContaining(hs) {
      forall a, b | Concat(a) == Concat(b)
        ensures FeedAll(c, [], a).frames == FeedAll(c, [], b).frames && FeedAll(c, [], a).buf == FeedAll(c, [], b).buf
      {
        SegmentationInvariance(c, a, b);
      }
    } else {
      var g, h :| g in hs && h in hs && g != h && OccursIn(g, h);
      var k :| 0 <= k && k + |g| < |h| && g <= h[k..];
      NestedHeaderMatters(c, g, h, k);
    }
  }

  /** To everything a run does, getting stuck included. */
  ghost predicate CuttingIrrelevant(c: Settings) {
    forall a, b :: Concat(a) == Concat(b) ==> FeedAll(c, [], a) == FeedAll(c, [], b)
  }

  /** As the source is written, cutting is irrelevant exactly when every header is a single byte. */
  lemma {:induction false} CuttingIrrelevantIff(c: Settings)
    requires c.cfgs != [] && Fits(c) && Adjacent(c) && PrefixFree(Headers(c.cfgs))
    ensures CuttingIrrelevant(c) <==> forall h :: h in Headers(c.cfgs) ==> |h| == 1
  {
    hide FeedAll, Concat, Fits, Adjacent, PrefixFree, Regular, NonContaining;
    if forall h :: h in Headers(c.cfgs) ==> |h| == 1 {
      SingleBytesRegular(c);
      forall a, b | Concat(a) == Concat(b)
        ensures FeedAll(c, [], a) == FeedAll(c, [], b)
      {
        SegmentationInvariance(c, a, b);
        SegmentationInvariance(c, b, a);
        SingleBytesNeverStuck(c);
      }
    } else {
      var h :| h in Headers(c.cfgs) && |h| != 1;
      LongHeaderMatters(c, h);
    }
  }

  lemma {:induction false} SingleBytesRegular(c: Settings)
    requires forall h :: h in Headers(c.cfgs) ==> |h| == 1
    ensures Regular(c)
  {
  }

  lemma {:induction false} SingleBytesNeverStuck(c: Settings)
    requires forall h :: h in Headers(c.cfgs) ==> |h| == 1
    ensures forall received :: !StuckAfter(c, received)
  {
    hide Drain;
  }

  lemma {:induction false} LongHeaderMatters(c: Settings, h: seq<byte>)
    requires c.cfgs != [] && Fits(c) && Adjacent(c) && PrefixFree(Headers(c.cfgs))
    requires h in Headers(c.cfgs) && |h| != 1
    ensures !CuttingIrrelevant(c)
  {
    hide Fits, Adjacent, NonContaining, Step, Drain, FeedAll;
    if NonContaining(Headers(c.cfgs)) {
      HeadersNotEmpty(c, h);
      var x, y := h[..1], h[1..];
      FirstHeaderCutHangs(c, h, 1);
      WholeHeaderWaits(c, h);
      HangsOfTwo(c, x, y);
      HangsOfOne(c, h);
      HeaderDoesNotStutter(c, h);
      assert [] + h == h;
      ConcatTwo(h, 1);
      assert Concat([h]) == Concat([x, y]);
    } else {
      ChunkingIrrelevantIff(c);
      FewerIrrelevant(c);
    }
  }

  lemma {:induction false} FewerIrrelevant(c: Settings)
    ensures CuttingIrrelevant(c) ==> ChunkingIrrelevant(c)
  {
    hide FeedAll, Concat;
  }

  lemma {:induction false} HeadersNotEmpty(c: Settings, h: seq<byte>)
    requires h in Headers(c.cfgs)
    ensures h != []
  {
  }

  lemma {:induction false} HeaderDoesNotStutter(c: Settings, h: seq<byte>)
    requires Step(c, h) == Wait && Drain(c, h) == Drained([], h)
    ensures !FeedSpec(c, [], h).hangs
  {
    hide Step, Drain, Cap;
    assert [] + h == h;
  }

  lemma {:induction false} HangsOfTwo(c: Settings, x: seq<byte>, y: seq<byte>)
    requires FeedSpec(c, [], x).hangs
    ensures FeedAll(c, [], [x, y]).hangs
  {
    hide FeedSpec;
  }

  lemma {:induction false} HangsOfOne(c: Settings, x: seq<byte>)
    ensures FeedAll(c, [], [x]).hangs == FeedSpec(c, [], x).hangs
  {
    hide FeedSpec;
    var rest: seq<seq<byte>> := [x][1..];
    assert rest == [];
  }

  lemma {:induction false} NestedHeaderMatters(c: Settings, g: seq<byte>, h: seq<byte>, k: nat)
    requires c.cfgs != [] && Fits(c) && Adjacent(c) && PrefixFree(Headers(c.cfgs))
    requires g in Headers(c.cfgs) && h in Headers(c.cfgs) && k + |g| < |h| && g <= h[k..]
    ensures !ChunkingIrrelevant(c)
  {
    hide *;
    var n := k + |g|;
    var a, b := [h], [h[..n], h[n..]];
    WholeHeaderKept(c, h);
    InnerHeaderSkips(c, g, h, k);
    InnerHeaderDrops(c, h[..n], h[n..]);
    ConcatTwo(h, n);
    assert h[..n] + h[n..] == h;
    ChunkingMatters(c, a, b);
  }

  lemma {:induction false} ChunkingMatters(c: Settings, a: seq<seq<byte>>, b: seq<seq<byte>>)
    requires Concat(a) == Concat(b) && FeedAll(c, [], a).buf != FeedAll(c, [], b).buf
    ensures !ChunkingIrrelevant(c)
  {
  }

  lemma {:induction false} ConcatTwo(h: seq<byte>, n: nat)
    requires n <= |h|
    ensures Concat([h]) == h == Concat([h[..n], h[n..]])
  {
    assert Concat([h[n..]]) == h[n..];
  }

  /** A whole header is kept until its length arrives. */
  lemma {:induction false} WholeHeaderKept(c: Settings, h: seq<byte>)
    requires c.cfgs != [] && Fits(c) && Adjacent(c) && PrefixFree(Headers(c.cfgs)) && h in Headers(c.cfgs)
    ensures FeedAll(c, [], [h]).buf == h
  {
    hide *;
    WholeHeaderWaits(c, h);
    assert [] + h == h;
    ResidueBound(c, h);
    OneChunk(c, [], h);
    FeedUnfolds(c, [], h);
  }

  /** Cut right after an inner header, a header loses bytes. */
  lemma {:induction false} InnerHeaderDrops(c: Settings, x: seq<byte>, y: seq<byte>)
    requires |Drain(c, x).rest| < |x|
    ensures |FeedAll(c, [], [x, y]).buf| < |x + y|
  {
    hide *;
    assert [] + x == x;
    FeedKeepsAtMost(c, [], x);
    TwoChunks(c, x, y);
  }

  lemma {:induction false} FeedKeepsAtMost(c: Settings, buf: seq<byte>, data: seq<byte>)
    ensures |FeedSpec(c, buf, data).buf| <= |Drain(c, buf + data).rest|
  {
  }

  lemma {:induction false} TwoChunks(c: Settings, x: seq<byte>, y: seq<byte>)
    ensures |FeedAll(c, [], [x, y]).buf| <= |FeedSpec(c, [], x).buf| + |y|
  {
    assert [x, y][1..] == [y];
    OneChunk(c, FeedSpec(c, [], x).buf, y);
  }

  lemma {:induction false} OneChunk(c: Settings, buf: seq<byte>, data: seq<byte>)
    ensures FeedAll(c, buf, [data]).buf == FeedSpec(c, buf, data).buf
    ensures |FeedSpec(c, buf, data).buf| <= |buf| + |data|
  {
    var rest: seq<seq<byte>> := [data][1..];
    assert rest == [];
  }

  lemma {:induction false} WholeHeaderWaits(c: Settings, h: seq<byte>)
    requires c.cfgs != [] && Adjacent(c) && PrefixFree(Headers(c.cfgs)) && h in Headers(c.cfgs)
    ensures Step(c, h) == Wait && Drain(c, h) == Drained([], h)
  {
    var i :| 0 <= i < |c.cfgs| && c.cfgs[i].header == h;
    assert Matches(c.cfgs[i], h);
    var m := FirstMatch(c.cfgs, h, 0);
    assert c.cfgs[m].header in Headers(c.cfgs);
    assert c.cfgs[m].header == h;
  }

  lemma {:induction false} InnerHeaderSkips(c: Settings, g: seq<byte>, h: seq<byte>, k: nat)
    requires c.cfgs != [] && Adjacent(c) && PrefixFree(Headers(c.cfgs))
    requires g in Headers(c.cfgs) && h in Headers(c.cfgs) && k + |g| < |h| && g <= h[k..]
    ensures |Drain(c, h[..k + |g|]).rest| < k + |g|
  {
    var x := h[..k + |g|];
    var hs := Headers(c.cfgs);
    assert g <= x[k..] && FullAt(hs, x, k);
    assert h[0..] == h;
    assert k != 0;
    forall j | 0 <= j < |c.cfgs|
      ensures !Matches(c.cfgs[j], x)
    {
      MatchIsFull(c.cfgs, x, j);
    }
    assert FirstMatch(c.cfgs, x, 0) == |c.cfgs|;
    assert ResyncPoint(hs, x) > 0;
    assert Step(c, x).Skip?;
  }
}
