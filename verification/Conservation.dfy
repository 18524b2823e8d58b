/** Where the extracted frames lie in the stream, what is discarded between them, and which frames
    survive garbage. */
module Conservation {
  import opened Bytes
  import opened Framing
  import opened Segmentation
  import opened Splitting

  // ---- What becomes of every byte ----

  /** Emitted: part of a frame. Skipped: passed over by resynchronisation. Dropped: cut off by the overflow cap. */
  datatype Fate = Emitted | Skipped | Dropped

  /** A stretch of the stream with one fate, which was decided when seen bytes of the stream had been received. */
  datatype Piece = Piece(lo: nat, len: nat, fate: Fate, seen: nat) {
    function Hi(): nat { lo + len }
  }

  /** The pieces one extraction cuts off s, which stands at position base of the stream. */
  ghost function Pieces(c: Settings, s: seq<byte>, base: nat): seq<Piece>
    decreases |s|
  {
    match Step(c, s)
    case Wait => []
    case Stutter => []
    case Skip(n) => [Piece(base, n, Skipped, base + |s|)] + Pieces(c, s[n..], base + n)
    case Emit(n) => [Piece(base, n, Emitted, base + |s|)] + Pieces(c, s[n..], base + n)
  }

  /** What the overflow cap cuts off an undecided rest. */
  function Overflow(c: Settings, rest: seq<byte>, base: nat): seq<Piece> {
    if |rest| > Cap(c) then [Piece(base, |rest| - Cap(c), Dropped, base + |rest|)] else []
  }

  ghost function FeedPieces(c: Settings, s: seq<byte>, base: nat): seq<Piece> {
    var rest := Drain(c, s).rest;
    Pieces(c, s, base) + Overflow(c, rest, base + |s| - |rest|)
  }

  /** The pieces of a run of feeds; buf stands at position base of the stream. */
  ghost function RunPieces(c: Settings, buf: seq<byte>, base: nat, chunks: seq<seq<byte>>): seq<Piece>
    decreases |chunks|
  {
    if chunks == [] then []
    else
      var s, f := buf + chunks[0], FeedSpec(c, buf, chunks[0]);
      FeedPieces(c, s, base) + RunPieces(c, f.buf, base + |s| - |f.buf|, chunks[1..])
  }

  /** The pieces follow one another from position from to position to without a gap. */
  predicate Tiles(pieces: seq<Piece>, from: nat, to: nat) {
    if pieces == [] then from == to
    else pieces[0].lo == from && pieces[0].len > 0 && Tiles(pieces[1..], pieces[0].Hi(), to)
  }

  lemma {:induction false} TilesJoin(a: seq<Piece>, b: seq<Piece>, from: nat, mid: nat, to: nat)
    requires Tiles(a, from, mid) && Tiles(b, mid, to)
    ensures Tiles(a + b, from, to)
  {
    if a == [] {
      assert a + b == b;
    } else {
      assert (a + b)[1..] == a[1..] + b;
      TilesJoin(a[1..], b, a[0].Hi(), mid, to);
    }
  }

  /** Tiles cover every position between their ends exactly once. */
  lemma {:induction false} TiledOnce(pieces: seq<Piece>, from: nat, to: nat, j: nat) returns (i: nat)
    requires Tiles(pieces, from, to) && from <= j < to
    ensures i < |pieces| && pieces[i].lo <= j < pieces[i].Hi()
    ensures forall k :: 0 <= k < |pieces| && pieces[k].lo <= j < pieces[k].Hi() ==> k == i
  {
    TilesWithin(pieces[1..], pieces[0].Hi(), to);
    if j < pieces[0].Hi() {
      i := 0;
    } else {
      var m := TiledOnce(pieces[1..], pieces[0].Hi(), to, j);
      i := m + 1;
      assert forall k :: 1 <= k < |pieces| ==> pieces[k] == pieces[1..][k - 1];
    }
  }

  lemma {:induction false} TilesWithin(pieces: seq<Piece>, from: nat, to: nat)
    requires Tiles(pieces, from, to)
    ensures from <= to && forall k :: 0 <= k < |pieces| ==> from <= pieces[k].lo < pieces[k].Hi() <= to
  {
    if pieces != [] {
      TilesWithin(pieces[1..], pieces[0].Hi(), to);
      assert forall k :: 1 <= k < |pieces| ==> pieces[k] == pieces[1..][k - 1];
    }
  }

  /** The slices of the stream that are frames. */
  function EmittedFrames(stream: seq<byte>, pieces: seq<Piece>): seq<Frame> {
    if pieces == [] then []
    else
      var p := pieces[0];
      (if p.fate.Emitted? && p.Hi() <= |stream| then [stream[p.lo..p.Hi()]] else [])
      + EmittedFrames(stream, pieces[1..])
  }

  lemma {:induction false} EmittedFramesJoin(stream: seq<byte>, a: seq<Piece>, b: seq<Piece>)
    ensures EmittedFrames(stream, a + b) == EmittedFrames(stream, a) + EmittedFrames(stream, b)
  {
    if a == [] {
      assert a + b == b;
    } else {
      assert (a + b)[1..] == a[1..] + b;
      EmittedFramesJoin(stream, a[1..], b);
    }
  }

  /** The fate of the piece is what the splitter decided there, on the bytes received by then; the cap
      drops no more than exceeds it, and only of what is undecided. */
  ghost predicate Decided(c: Settings, stream: seq<byte>, p: Piece) {
    && p.Hi() <= p.seen <= |stream|
    && var s := stream[p.lo..p.seen];
       match p.fate
       case Emitted => Step(c, s) == Emit(p.len)
       case Skipped => Step(c, s) == Skip(p.len)
       case Dropped => (Step(c, s).Wait? || Step(c, s).Stutter?) && |s| == p.len + Cap(c)
  }

  /** The pieces account for the stream from position from on: all of it but the end that is kept. */
  ghost predicate Accounts(c: Settings, stream: seq<byte>, from: nat, pieces: seq<Piece>, frames: seq<Frame>,
                           kept: seq<byte>) {
    && |kept| <= |stream| && kept == stream[|stream| - |kept|..]
    && Tiles(pieces, from, |stream| - |kept|)
    && frames == EmittedFrames(stream, pieces)
    && forall i :: 0 <= i < |pieces| ==> Decided(c, stream, pieces[i])
  }

  lemma {:induction false} NothingToAccount(c: Settings, stream: seq<byte>, from: nat)
    requires from <= |stream|
    ensures Accounts(c, stream, from, [], [], stream[from..])
  {
  }

  /** The pieces of one feed before those of the feeds that follow. */
  lemma {:induction false} AccountsAppend(c: Settings, stream: seq<byte>, from: nat, mid: nat,
                                          ps: seq<Piece>, fs: seq<Frame>, later: seq<Piece>, gs: seq<Frame>,
                                          kept: seq<byte>)
    requires Tiles(ps, from, mid) && fs == EmittedFrames(stream, ps)
    requires forall i :: 0 <= i < |ps| ==> Decided(c, stream, ps[i])
    requires Accounts(c, stream, mid, later, gs, kept)
    ensures Accounts(c, stream, from, ps + later, fs + gs, kept)
  {
    hide Decided, Tiles, EmittedFrames;
    EmittedFramesJoin(stream, ps, later);
    TilesJoin(ps, later, from, mid, |stream| - |kept|);
  }

  lemma {:induction false} Unfold(c: Settings, s: seq<byte>, base: nat)
    ensures var v := Step(c, s);
            match v
            case Emit(n) =>
              && Pieces(c, s, base) == [Piece(base, n, Emitted, base + |s|)] + Pieces(c, s[n..], base + n)
              && Drain(c, s) == Drained([s[..n]] + Drain(c, s[n..]).frames, Drain(c, s[n..]).rest)
            case Skip(n) =>
              && Pieces(c, s, base) == [Piece(base, n, Skipped, base + |s|)] + Pieces(c, s[n..], base + n)
              && Drain(c, s) == Drain(c, s[n..])
            case _ => Pieces(c, s, base) == [] && Drain(c, s) == Drained([], s)
  {
    hide Step;
  }

  /** One extraction from the bytes of the stream between from and to. */
  lemma {:induction false} ExtractionAccounts(c: Settings, stream: seq<byte>, from: nat, to: nat)
    requires from <= to <= |stream|
    ensures var s := stream[from..to];
            var d := Drain(c, s);
            && Tiles(Pieces(c, s, from), from, to - |d.rest|)
            && d.rest == stream[to - |d.rest|..to]
            && d.frames == EmittedFrames(stream, Pieces(c, s, from))
            && forall i :: 0 <= i < |Pieces(c, s, from)| ==> Decided(c, stream, Pieces(c, s, from)[i])
    decreases |stream| - from
  {
    hide Step, Cap, Drain, Pieces;
    var s := stream[from..to];
    var v := Step(c, s);
    Unfold(c, s, from);
    if v.Skip? || v.Emit? {
      assert s[v.n..] == stream[from + v.n..to] && s[..v.n] == stream[from..from + v.n];
      ExtractionAccounts(c, stream, from + v.n, to);
      var later := Pieces(c, s[v.n..], from + v.n);
      var first := Piece(from, v.n, if v.Emit? then Emitted else Skipped, to);
      assert ([first] + later)[1..] == later;
    }
  }

  /** One feed; what the cap drops follows what was decided. */
  lemma {:induction false} FeedAccounts(c: Settings, stream: seq<byte>, from: nat, mid: nat, to: nat)
    requires from <= mid <= to <= |stream|
    ensures var buf, data := stream[from..mid], stream[mid..to];
            var f := FeedSpec(c, buf, data);
            var ps := FeedPieces(c, buf + data, from);
            && |f.buf| <= to - from
            && Tiles(ps, from, to - |f.buf|)
            && f.buf == stream[to - |f.buf|..to]
            && f.frames == EmittedFrames(stream, ps)
            && forall i :: 0 <= i < |ps| ==> Decided(c, stream, ps[i])
  {
    hide Step, Cap, Drain, Pieces, Tiles, EmittedFrames;
    var s := stream[from..to];
    assert stream[from..mid] + stream[mid..to] == s;
    ExtractionAccounts(c, stream, from, to);
    var d := Drain(c, s);
    var ps, drop := Pieces(c, s, from), Overflow(c, d.rest, to - |d.rest|);
    var end := to - |Clip(Cap(c), d.rest)|;
    OverflowDecided(c, stream, d.rest, to);
    EmittedFramesJoin(stream, ps, drop);
    TilesJoin(ps, drop, from, to - |d.rest|, end);
    assert d.frames + [] == d.frames;
  }

  lemma {:induction false} OverflowDecided(c: Settings, stream: seq<byte>, rest: seq<byte>, to: nat)
    requires |rest| <= to <= |stream| && rest == stream[to - |rest|..to]
    requires Step(c, rest).Wait? || Step(c, rest).Stutter?
    ensures var drop, clipped := Overflow(c, rest, to - |rest|), Clip(Cap(c), rest);
            && Tiles(drop, to - |rest|, to - |clipped|)
            && EmittedFrames(stream, drop) == []
            && clipped == stream[to - |clipped|..to]
            && forall i :: 0 <= i < |drop| ==> Decided(c, stream, drop[i])
  {
    hide Step, Cap, Clip, Decided, Tiles, EmittedFrames;
    ClipUnfolds(Cap(c), rest);
    if |rest| > Cap(c) {
      var p := Piece(to - |rest|, |rest| - Cap(c), Dropped, to);
      assert rest[p.len..] == stream[p.Hi()..to];
      DropDecided(c, stream, rest, p);
    } else {
      NoPieces(stream, to - |rest|);
    }
  }

  lemma {:induction false} NoPieces(stream: seq<byte>, at: nat)
    ensures Tiles([], at, at) && EmittedFrames(stream, []) == []
  {
  }

  lemma {:induction false} DropDecided(c: Settings, stream: seq<byte>, rest: seq<byte>, p: Piece)
    requires p.fate.Dropped? && p.lo + |rest| == p.seen <= |stream| && rest == stream[p.lo..p.seen]
    requires 0 < p.len && |rest| == p.len + Cap(c) && (Step(c, rest).Wait? || Step(c, rest).Stutter?)
    ensures Decided(c, stream, p) && Tiles([p], p.lo, p.Hi()) && EmittedFrames(stream, [p]) == []
  {
    hide Step, Cap;
    assert [p][1..] == [];
  }

  lemma {:induction false} ClipUnfolds(cap: nat, s: seq<byte>)
    ensures Clip(cap, s) == if |s| > cap then s[|s| - cap..] else s
  {
  }

  /** The last n bytes received, with what came before and what follows, are the stream. */
  lemma {:induction false} Rejoin(past: seq<byte>, buf: seq<byte>, data: seq<byte>, rest: seq<byte>, n: nat)
    requires n <= |buf + data|
    ensures var s, stream, to := buf + data, past + buf + (data + rest), |past| + |buf| + |data|;
            && stream[to - n..to] == s[|s| - n..]
            && past + s[..|s| - n] + s[|s| - n..] + rest == stream
  {
    var s := buf + data;
    assert s[..|s| - n] + s[|s| - n..] == s;
    assert past + buf + (data + rest) == past + s + rest;
  }

  lemma {:induction false} RunAccounts(c: Settings, past: seq<byte>, buf: seq<byte>, chunks: seq<seq<byte>>)
    ensures var f := FeedAll(c, buf, chunks);
            Accounts(c, past + buf + Concat(chunks), |past|, RunPieces(c, buf, |past|, chunks), f.frames, f.buf)
    decreases |chunks|
  {
    hide Step, Cap, Drain, FeedSpec, FeedPieces, Decided, Tiles, EmittedFrames, Accounts;
    var stream := past + buf + Concat(chunks);
    if chunks == [] {
      assert stream == past + buf && stream[|past|..] == buf;
      NothingToAccount(c, stream, |past|);
    } else {
      var data, s := chunks[0], buf + chunks[0];
      var f := FeedSpec(c, buf, data);
      var mid, to := |past| + |buf|, |past| + |s|;
      assert stream[|past|..mid] == buf && stream[mid..to] == data;
      FeedAccounts(c, stream, |past|, mid, to);
      var now := past + s[..|s| - |f.buf|];
      ConcatUnfolds(chunks);
      Rejoin(past, buf, data, Concat(chunks[1..]), |f.buf|);
      RunAccounts(c, now, f.buf, chunks[1..]);
      var g := FeedAll(c, f.buf, chunks[1..]);
      AccountsAppend(c, stream, |past|, |now|, FeedPieces(c, s, |past|), f.frames,
                     RunPieces(c, f.buf, |now|, chunks[1..]), g.frames, g.buf);
    }
  }

  /** What the extraction loop is left with after chunk k, before the cap. */
  ghost function Undecided(c: Settings, buf: seq<byte>, chunks: seq<seq<byte>>, k: nat): seq<byte>
    requires k < |chunks|
  {
    Drain(c, FeedAll(c, buf, chunks[..k]).buf + chunks[k]).rest
  }

  lemma {:induction false} HangsIffSpins(c: Settings, buf: seq<byte>, chunks: seq<seq<byte>>)
    ensures FeedAll(c, buf, chunks).hangs <==> exists k :: 0 <= k < |chunks| && SpinsOn(c, Undecided(c, buf, chunks, k))
    decreases |chunks|
  {
    hide SpinsOn, Step, Drain, Cap, Undecided;
    if chunks != [] {
      var f := FeedSpec(c, buf, chunks[0]);
      FirstUndecided(c, buf, chunks);
      SpinsIff(c, Undecided(c, buf, chunks, 0));
      HangsIffSpins(c, f.buf, chunks[1..]);
      forall k | 0 < k < |chunks|
        ensures Undecided(c, buf, chunks, k) == Undecided(c, f.buf, chunks[1..], k - 1)
      {
        LaterUndecided(c, buf, chunks, k);
      }
      if k :| 0 <= k < |chunks| - 1 && SpinsOn(c, Undecided(c, f.buf, chunks[1..], k)) {
        assert SpinsOn(c, Undecided(c, buf, chunks, k + 1));
      }
    }
  }

  lemma {:induction false} FirstUndecided(c: Settings, buf: seq<byte>, chunks: seq<seq<byte>>)
    requires chunks != []
    ensures FeedSpec(c, buf, chunks[0]).hangs == Step(c, Undecided(c, buf, chunks, 0)).Stutter?
  {
    hide Step, Drain, Cap;
    assert chunks[..0] == [];
  }

  lemma {:induction false} LaterUndecided(c: Settings, buf: seq<byte>, chunks: seq<seq<byte>>, k: nat)
    requires 0 < k < |chunks|
    ensures Undecided(c, buf, chunks, k) == Undecided(c, FeedSpec(c, buf, chunks[0]).buf, chunks[1..], k - 1)
  {
    hide Drain, FeedSpec;
    assert chunks[..k][1..] == chunks[1..][..k - 1] && chunks[..k][0] == chunks[0];
  }

  /** Over every run of feeds, for every configuration: each byte of the stream is in exactly one piece or
      in the buffer that is kept, which is the end of the stream; the frames are the emitted pieces, in order;
      every piece was emitted, skipped or dropped by a decision of the splitter on the bytes it had. The
      source gets through the run exactly unless its loop spins on what some chunk leaves undecided. */
  lemma {:induction false} EveryByteAccounted(c: Settings, past: seq<byte>, buf: seq<byte>, chunks: seq<seq<byte>>)
    ensures var f := FeedAll(c, buf, chunks);
            && Accounts(c, past + buf + Concat(chunks), |past|, RunPieces(c, buf, |past|, chunks), f.frames, f.buf)
            && (f.hangs <==> exists k :: 0 <= k < |chunks| && SpinsOn(c, Undecided(c, buf, chunks, k)))
  {
    hide *;
    RunAccounts(c, past, buf, chunks);
    HangsIffSpins(c, buf, chunks);
  }

  // ---- Only garbage is skipped ----

  lemma {:induction false} NonCandidateSkips(c: Settings, u: seq<byte>)
    requires Regular(c) && Syncs(c) && !Candidate(SyncHeaders(c), u)
    ensures Step(c, u).Skip?
  {
    hide *;
    SyncHeadersRegular(c);
    NonCandidateNonEmpty(SyncHeaders(c), u);
    StepAtNonCandidate(c, u, ResyncPoint(SyncHeaders(c), u));
  }

  lemma {:induction false} NonCandidateNonEmpty(hs: set<seq<byte>>, u: seq<byte>)
    requires NonContaining(hs) && !Candidate(hs, u)
    ensures u != [] && IsLeastCandidate(hs, u, 0, ResyncPoint(hs, u)) && ResyncPoint(hs, u) > 0
  {
    assert u[0..] == u;
    ResyncIsLeastCandidate(hs, u);
  }

  /** Inside a skipped stretch no position would have yielded a frame either. */
  lemma {:induction false} SkippedIsGarbage(c: Settings, s: seq<byte>, j: nat)
    requires Regular(c) && Step(c, s).Skip? && j < Step(c, s).n
    ensures Step(c, s[j..]).Skip?
  {
    hide *;
    if j == 0 {
      assert s[0..] == s;
    } else if Syncs(c) {
      SyncHeadersRegular(c);
      SkipIsResync(c, s);
      SkippedIsNotCandidate(SyncHeaders(c), s, j);
      NonCandidateSkips(c, s[j..]);
    } else {
      SingleByteSkip(c, s);
    }
  }

  lemma {:induction false} SkippedIsNotCandidate(hs: set<seq<byte>>, s: seq<byte>, j: nat)
    requires s != [] && NonContaining(hs) && 0 < j < ResyncPoint(hs, s)
    ensures !Candidate(hs, s[j..])
  {
    ResyncIsLeastCandidate(hs, s);
  }

  lemma {:induction false} SingleByteSkip(c: Settings, s: seq<byte>)
    requires !Syncs(c) && Step(c, s).Skip?
    ensures Step(c, s).n == 1
  {
  }

  /** Over every run: no later byte would have made a frame start inside a skipped piece, or would have
      changed an emitted one. */
  lemma {:induction false} OnlyGarbageIsSkipped(c: Settings, past: seq<byte>, buf: seq<byte>, chunks: seq<seq<byte>>,
                                                i: nat, j: nat)
    requires Regular(c) && i < |RunPieces(c, buf, |past|, chunks)|
    requires var p := RunPieces(c, buf, |past|, chunks)[i]; p.lo <= j < p.Hi()
    ensures var stream, p := past + buf + Concat(chunks), RunPieces(c, buf, |past|, chunks)[i];
            && p.Hi() <= |stream|
            && (p.fate.Skipped? ==> Step(c, stream[j..]).Skip?)
            && (p.fate.Emitted? ==> Step(c, stream[p.lo..]) == Emit(p.len))
  {
    hide Step, Cap, FeedAll, RunPieces, Tiles;
    RunAccounts(c, past, buf, chunks);
    var stream, p := past + buf + Concat(chunks), RunPieces(c, buf, |past|, chunks)[i];
    var had, more := stream[p.lo..p.seen], stream[p.seen..];
    assert Decided(c, stream, p);
    if p.fate.Skipped? {
      SkippedIsGarbage(c, had, j - p.lo);
      SkipStays(c, had[j - p.lo..], more);
      assert had[j - p.lo..] + more == stream[j..];
    } else if p.fate.Emitted? {
      EmitExtends(c, had, more);
      assert had + more == stream[p.lo..];
    }
  }

  lemma {:induction false} SkipStays(c: Settings, s: seq<byte>, t: seq<byte>)
    requires Regular(c) && Step(c, s).Skip?
    ensures Step(c, s + t).Skip?
  {
    hide *;
    if Syncs(c) {
      SkipExtends(c, s, t);
    } else {
      SingleByteSkipExtends(c, s, t);
    }
  }

  // ---- Frames separated by garbage ----

  datatype Burst = Burst(gap: seq<byte>, frame: Frame)

  ghost predicate ValidFrame(c: Settings, f: Frame) {
    Step(c, f) == Emit(|f|)
  }

  /** No header starts inside the gap, not even one completed by the frame after it. */
  ghost predicate CleanGap(c: Settings, b: Burst) {
    Syncs(c) && forall i :: 0 <= i < |b.gap| ==> !FullAt(SyncHeaders(c), b.gap + b.frame, i)
  }

  ghost predicate Recoverable(c: Settings, b: Burst) {
    ValidFrame(c, b.frame) && (b.gap == [] || CleanGap(c, b))
  }

  function Stream(bursts: seq<Burst>): seq<byte> {
    if bursts == [] then [] else bursts[0].gap + bursts[0].frame + Stream(bursts[1..])
  }

  function FramesOf(bursts: seq<Burst>): seq<Frame> {
    if bursts == [] then [] else [bursts[0].frame] + FramesOf(bursts[1..])
  }

  /** A frame starts with one of the headers. */
  lemma {:induction false} FrameStartsWithHeader(c: Settings, f: Frame) returns (h: seq<byte>)
    requires Syncs(c) && Step(c, f).Emit?
    ensures h in SyncHeaders(c) && h != [] && h <= f
  {
    if c.cfgs != [] {
      h := c.cfgs[FirstMatch(c.cfgs, f, 0)].header;
    } else {
      h := c.cfg.header;
    }
  }

  lemma {:induction false} OccursInOverlap(g: seq<byte>, h: seq<byte>, u: seq<byte>, k: nat)
    requires u <= h || h <= u
    requires k <= |u| && g <= u[k..] && k + |g| < |h|
    ensures OccursIn(g, h)
  {
    assert g <= h[k..];
  }

  /** Before a frame, a position where no header is completed cannot become one either. */
  lemma {:induction false} GapPositionNotCandidate(hs: set<seq<byte>>, b: Burst, rest: seq<byte>, g: seq<byte>, i: nat)
    requires NonContaining(hs) && g in hs && g <= b.frame
    requires i < |b.gap| && !FullAt(hs, b.gap + b.frame, i)
    ensures !Candidate(hs, (b.gap + b.frame + rest)[i..])
  {
    var u := (b.gap + b.frame + rest)[i..];
    var k := |b.gap| - i;
    assert g <= u[k..];
    assert u == (b.gap + b.frame)[i..] + rest;
    forall h | h in hs
      ensures !(h <= u) && !(u <= h)
    {
      if k + |g| < |h| && g != h && (h <= u || u <= h) {
        OccursInOverlap(g, h, u, k);
      }
    }
  }

  /** The splitter jumps over a clean gap straight to the frame behind it. */
  lemma {:induction false} GapIsSkipped(c: Settings, b: Burst, rest: seq<byte>)
    requires Regular(c) && Recoverable(c, b)
    ensures Drain(c, b.gap + b.frame + rest) == Drain(c, b.frame + rest)
  {
    hide *;
    RecoverableUnfolds(c, b);
    var s := b.gap + b.frame + rest;
    if b.gap == [] {
      assert s == b.frame + rest;
    } else {
      SyncHeadersRegular(c);
      var hs := SyncHeaders(c);
      var g := FrameStartsWithHeader(c, b.frame);
      assert s[|b.gap|..] == b.frame + rest;
      GapIsLeast(hs, b, rest, g);
      StepAtNonCandidate(c, s, |b.gap|);
      DrainSkips(c, s);
    }
  }

  lemma {:induction false} RecoverableUnfolds(c: Settings, b: Burst)
    requires Recoverable(c, b)
    ensures Step(c, b.frame) == Emit(|b.frame|)
    ensures b.gap != [] ==> Syncs(c) && forall i :: 0 <= i < |b.gap| ==> !FullAt(SyncHeaders(c), b.gap + b.frame, i)
  {
  }

  lemma {:induction false} GapIsLeast(hs: set<seq<byte>>, b: Burst, rest: seq<byte>, g: seq<byte>)
    requires NonContaining(hs) && g in hs && g <= b.frame
    requires forall i :: 0 <= i < |b.gap| ==> !FullAt(hs, b.gap + b.frame, i)
    ensures IsLeastCandidate(hs, b.gap + b.frame + rest, 0, |b.gap|)
  {
    var s := b.gap + b.frame + rest;
    forall i | 0 <= i < |b.gap|
      ensures !Candidate(hs, s[i..])
    {
      GapPositionNotCandidate(hs, b, rest, g, i);
    }
    assert g <= s[|b.gap|..];
  }

  /** Valid frames separated by garbage are all extracted, in order, with nothing else, and what
      follows them is handled as if it came first. */
  lemma {:induction false} AllFramesRecovered(c: Settings, bursts: seq<Burst>, tail: seq<byte>)
    requires Regular(c) && forall b :: b in bursts ==> Recoverable(c, b)
    ensures var d := Drain(c, tail);
            Drain(c, Stream(bursts) + tail) == Drained(FramesOf(bursts) + d.frames, d.rest)
    decreases |bursts|
  {
    hide *;
    BurstsUnfold(bursts);
    if bursts == [] {
      assert Stream(bursts) + tail == tail;
    } else {
      var b, rest := bursts[0], Stream(bursts[1..]) + tail;
      assert Stream(bursts) + tail == b.gap + b.frame + rest;
      GapIsSkipped(c, b, rest);
      FrameIsExtracted(c, b.frame, rest) by {
        RecoverableUnfolds(c, b);
      }
      AllFramesRecovered(c, bursts[1..], tail);
    }
  }

  lemma {:induction false} BurstsUnfold(bursts: seq<Burst>)
    ensures bursts == [] ==> Stream(bursts) == [] && FramesOf(bursts) == []
    ensures bursts != [] ==>
              && Stream(bursts) == bursts[0].gap + bursts[0].frame + Stream(bursts[1..])
              && FramesOf(bursts) == [bursts[0].frame] + FramesOf(bursts[1..])
  {
  }

  lemma {:induction false} FrameIsExtracted(c: Settings, f: Frame, rest: seq<byte>)
    requires Regular(c) && Step(c, f) == Emit(|f|)
    ensures Drain(c, f + rest) == Drained([f] + Drain(c, rest).frames, Drain(c, rest).rest)
  {
    hide Step;
    EmitExtends(c, f, rest);
    assert (f + rest)[..|f|] == f && (f + rest)[|f|..] == rest;
    DrainEmits(c, f + rest);
  }

  // ---- Where a cut gets the loop stuck ----

  /** The header a frame is cut off at. */
  function FrontHeader(c: Settings, f: Frame): seq<byte> {
    if c.cfgs == [] then c.cfg.header
    else
      var m := FirstMatch(c.cfgs, f, 0);
      if m < |c.cfgs| then c.cfgs[m].header else []
  }

  /** The first n bytes of a burst stop before its frame's header is complete, and end in the beginning
      of a header. */
  ghost predicate OpenHeader(c: Settings, b: Burst, n: nat) {
    && n <= |b.gap + b.frame| && n < |b.gap| + |FrontHeader(c, b.frame)|
    && exists j :: 0 <= j < n && PartialAt(SyncHeaders(c), (b.gap + b.frame)[..n], j)
  }

  /** The bytes received are some of the bursts and the beginning of the next, up to an open header. */
  ghost predicate CutsHeader(c: Settings, bursts: seq<Burst>, received: seq<byte>) {
    exists i: nat, n: nat :: i < |bursts| && OpenHeader(c, bursts[i], n)
                             && received == Stream(bursts[..i]) + (bursts[i].gap + bursts[i].frame)[..n]
  }

  /** Without a full header, the loop gets stuck exactly if some tail may become one. */
  lemma {:induction false} HeaderlessStuckIff(c: Settings, x: seq<byte>)
    requires c.cfgs != [] && forall j :: 0 <= j < |x| ==> !FullAt(Headers(c.cfgs), x, j)
    ensures StuckAfter(c, x) <==> exists j :: 0 <= j < |x| && PartialAt(Headers(c.cfgs), x, j)
    decreases |x|
  {
    hide Drain;
    var hs := Headers(c.cfgs);
    if x == [] {
      DrainStops(c, x);
    } else {
      HeaderlessStep(c, x);
      var q := FirstPartial(hs, x, 0);
      if q == 0 {
        DrainStops(c, x);
        assert x[0..] == x;
        assert PartialAt(hs, x, 0);
      } else {
        DrainSkips(c, x);
        var y := x[q..];
        forall j | 0 <= j < |y|
          ensures FullAt(hs, y, j) == FullAt(hs, x, q + j) && PartialAt(hs, y, j) == PartialAt(hs, x, q + j)
        {
          assert y[j..] == x[q + j..];
        }
        HeaderlessStuckIff(c, y);
        if j :| 0 <= j < |x| && PartialAt(hs, x, j) {
          assert j >= q && PartialAt(hs, y, j - q);
        }
      }
    }
  }

  lemma {:induction false} HeaderlessStep(c: Settings, x: seq<byte>)
    requires c.cfgs != [] && x != [] && forall j :: 0 <= j < |x| ==> !FullAt(Headers(c.cfgs), x, j)
    ensures var q := FirstPartial(Headers(c.cfgs), x, 0);
            Step(c, x) == if q == 0 then Stutter else Skip(q)
  {
    forall j | 0 <= j < |c.cfgs|
      ensures !Matches(c.cfgs[j], x)
    {
      MatchIsFull(c.cfgs, x, j);
    }
    assert FirstMatch(c.cfgs, x, 0) == |c.cfgs|;
    assert FirstFull(Headers(c.cfgs), x, 1) == |x|;
  }

  lemma {:induction false} FrontHeaderStands(c: Settings, f: Frame)
    requires c.cfgs != [] && Step(c, f).Emit?
    ensures var h := FrontHeader(c, f); h in SyncHeaders(c) && h != [] && h <= f
  {
  }

  /** Before its frame's header is complete, no header is complete in a burst. */
  lemma {:induction false} NoHeaderYet(c: Settings, b: Burst, n: nat, j: nat)
    requires c.cfgs != [] && Regular(c) && Recoverable(c, b)
    requires n < |b.gap| + |FrontHeader(c, b.frame)| && n <= |b.gap + b.frame| && j < n
    ensures !FullAt(SyncHeaders(c), (b.gap + b.frame)[..n], j)
  {
    hide Step, FrontHeader;
    var hs, x, h := SyncHeaders(c), (b.gap + b.frame)[..n], FrontHeader(c, b.frame);
    FrontHeaderStands(c, b.frame);
    if j < |b.gap| {
      FullStaysFullAt(hs, x, (b.gap + b.frame)[n..], j);
      assert x + (b.gap + b.frame)[n..] == b.gap + b.frame;
    } else {
      var k := j - |b.gap|;
      assert x[j..] == b.frame[k..n - |b.gap|] == h[k..n - |b.gap|];
      forall g | g in hs && g <= x[j..]
        ensures g != h && OccursIn(g, h)
      {
        assert g <= h[k..];
      }
    }
  }

  /** A frame of which the whole header has come waits. */
  lemma {:induction false} HeaderThenWait(c: Settings, f: Frame, m: nat)
    requires c.cfgs != [] && Regular(c) && Step(c, f) == Emit(|f|) && |FrontHeader(c, f)| <= m < |f|
    ensures Step(c, f[..m]).Wait?
  {
    hide Step, FrontHeader, SyncHeaders;
    var s, t := f[..m], f[m..];
    assert s + t == f;
    FrontHeaderStands(c, f);
    if Step(c, s).Emit? {
      EmitExtends(c, s, t);
    } else if Step(c, s).Skip? {
      SkipStays(c, s, t);
    } else if Step(c, s).Stutter? {
      HangsIffPartialHeader(c, s);
      HeaderNotOpen(c, FrontHeader(c, f), s);
    }
  }

  lemma {:induction false} HeaderNotOpen(c: Settings, g: seq<byte>, s: seq<byte>)
    requires c.cfgs != [] && Regular(c) && g in SyncHeaders(c) && g <= s
    ensures !exists h :: h in Headers(c.cfgs) && s < h
  {
    forall h | h in Headers(c.cfgs) && s < h
      ensures g != h && OccursIn(g, h)
    {
      assert g <= h[0..];
    }
  }

  /** Once its frame's header is complete, a burst does not get the loop stuck. */
  lemma {:induction false} NotStuckAfterHeader(c: Settings, b: Burst, m: nat)
    requires c.cfgs != [] && Regular(c) && Recoverable(c, b) && |FrontHeader(c, b.frame)| <= m < |b.frame|
    ensures !StuckAfter(c, b.gap + b.frame[..m])
  {
    hide Step, Drain, FrontHeader, FullAt, Candidate, SyncHeaders;
    var s, h := b.frame[..m], FrontHeader(c, b.frame);
    var x := b.gap + s;
    FrontHeaderStands(c, b.frame);
    HeaderThenWait(c, b.frame, m);
    HeaderNotOpen(c, h, s);
    DrainStops(c, s);
    if b.gap == [] {
      assert x == s;
    } else {
      forall i | 0 <= i < |b.gap|
        ensures !FullAt(SyncHeaders(c), b.gap + s, i)
      {
        FullStaysFullAt(SyncHeaders(c), b.gap + s, b.frame[m..], i);
        assert b.gap + s + b.frame[m..] == b.gap + b.frame;
      }
      SyncHeadersRegular(c);
      GapIsLeast(SyncHeaders(c), Burst(b.gap, s), [], h);
      assert b.gap + s + [] == x;
      StepAtNonCandidate(c, x, |b.gap|);
      DrainSkips(c, x);
      assert x[|b.gap|..] == s;
    }
  }

  lemma {:induction false} FullStaysFullAt(hs: set<seq<byte>>, s: seq<byte>, t: seq<byte>, i: nat)
    requires i <= |s|
    ensures FullAt(hs, s, i) ==> FullAt(hs, s + t, i)
  {
    if h :| h in hs && h <= s[i..] {
      assert h <= (s + t)[i..];
    }
  }

  lemma {:induction false} StuckInBurstIff(c: Settings, b: Burst, n: nat)
    requires c.cfgs != [] && Regular(c) && Recoverable(c, b) && n < |b.gap + b.frame|
    ensures StuckAfter(c, (b.gap + b.frame)[..n]) <==> OpenHeader(c, b, n)
  {
    hide Step, StuckAfter, FrontHeader, Recoverable, FullAt, PartialAt;
    var x := (b.gap + b.frame)[..n];
    assert SyncHeaders(c) == Headers(c.cfgs);
    if n < |b.gap| + |FrontHeader(c, b.frame)| {
      forall j | 0 <= j < n
        ensures !FullAt(SyncHeaders(c), x, j)
      {
        NoHeaderYet(c, b, n, j);
      }
      HeaderlessStuckIff(c, x);
    } else {
      var m := n - |b.gap|;
      assert x == b.gap + b.frame[..m];
      NotStuckAfterHeader(c, b, m);
    }
  }

  /** A beginning of the stream ends within some burst, or is all of it. */
  lemma {:induction false} EndsWithin(bursts: seq<Burst>, received: seq<byte>) returns (i: nat, n: nat)
    requires received <= Stream(bursts)
    ensures i <= |bursts|
    ensures if i == |bursts| then received == Stream(bursts)
            else n < |bursts[i].gap + bursts[i].frame|
                 && received == Stream(bursts[..i]) + (bursts[i].gap + bursts[i].frame)[..n]
  {
    if bursts == [] {
      return 0, 0;
    }
    var first := bursts[0].gap + bursts[0].frame;
    if |received| < |first| {
      assert Stream(bursts[..0]) == [];
      return 0, |received|;
    }
    assert received == first + received[|first|..];
    i, n := EndsWithin(bursts[1..], received[|first|..]);
    i := i + 1;
    assert bursts[..i][1..] == bursts[1..][..i - 1];
  }

  lemma {:induction false} StuckIffCutsHeader(c: Settings, bursts: seq<Burst>, received: seq<byte>)
    requires c.cfgs != [] && Regular(c) && received <= Stream(bursts)
    requires forall b :: b in bursts ==> Recoverable(c, b)
    ensures StuckAfter(c, received) <==> CutsHeader(c, bursts, received)
  {
    hide Step, Drain, StuckAfter, PartialAt, Recoverable, Stream, FrontHeader;
    var i, n := EndsWithin(bursts, received);
    if i == |bursts| {
      AllFramesRecovered(c, bursts, []);
      assert received == Stream(bursts) + [];
      NothingStuck(c, received);
    } else {
      StuckLikeItsEnd(c, bursts, i, n);
      StuckInBurstIff(c, bursts[i], n);
    }
    if i': nat, n': nat :| i' < |bursts| && OpenHeader(c, bursts[i'], n')
                           && received == Stream(bursts[..i']) + (bursts[i'].gap + bursts[i'].frame)[..n']
    {
      OpenHeaderWithin(c, bursts[i'], n');
      StuckLikeItsEnd(c, bursts, i', n');
      StuckInBurstIff(c, bursts[i'], n');
    }
  }

  lemma {:induction false} NothingStuck(c: Settings, received: seq<byte>)
    requires Drain(c, received).rest == Drain(c, []).rest
    ensures !StuckAfter(c, received)
  {
  }

  lemma {:induction false} OpenHeaderWithin(c: Settings, b: Burst, n: nat)
    requires c.cfgs != [] && Recoverable(c, b) && OpenHeader(c, b, n)
    ensures n < |b.gap + b.frame|
  {
    FrontHeaderStands(c, b.frame);
  }

  /** The bursts received in full make no difference. */
  lemma {:induction false} StuckLikeItsEnd(c: Settings, bursts: seq<Burst>, i: nat, n: nat)
    requires Regular(c) && i < |bursts| && n <= |bursts[i].gap + bursts[i].frame|
    requires forall b :: b in bursts ==> Recoverable(c, b)
    ensures var x := (bursts[i].gap + bursts[i].frame)[..n];
            StuckAfter(c, Stream(bursts[..i]) + x) == StuckAfter(c, x)
  {
    hide Drain, Recoverable, Stream;
    AllFramesRecovered(c, bursts[..i], (bursts[i].gap + bursts[i].frame)[..n]);
  }

  lemma {:induction false} ConcatGrows(chunks: seq<seq<byte>>, k: nat)
    requires k <= |chunks|
    ensures Concat(chunks[..k]) <= Concat(chunks)
  {
    if k > 0 {
      ConcatGrows(chunks[1..], k - 1);
      assert chunks[..k][1..] == chunks[1..][..k - 1];
    }
  }

  /** However the stream is cut into chunks, the run delivers exactly the valid frames and leaves nothing.
      With several headers the source's loop gets stuck on the way exactly if some chunk ends in an open header. */
  lemma {:induction false} ChunkedRecovery(c: Settings, bursts: seq<Burst>, chunks: seq<seq<byte>>)
    requires Regular(c) && Fits(c)
    requires forall b :: b in bursts ==> Recoverable(c, b)
    requires Concat(chunks) == Stream(bursts)
    ensures FeedAll(c, [], chunks).frames == FramesOf(bursts) && FeedAll(c, [], chunks).buf == []
    ensures FeedAll(c, [], chunks).hangs <==>
            c.cfgs != [] && exists k :: 0 < k <= |chunks| && CutsHeader(c, bursts, Concat(chunks[..k]))
  {
    hide *;
    EmptyIsQuiet(c);
    SegmentationInvariance(c, chunks, chunks);
    RunIsOneDrain(c, [], chunks);
    assert [] + Concat(chunks) == Stream(bursts) + [];
    AllFramesRecovered(c, bursts, []);
    QuietDrains(c, []);
    if c.cfgs != [] {
      forall k | 0 < k <= |chunks|
        ensures StuckAfter(c, Concat(chunks[..k])) == CutsHeader(c, bursts, Concat(chunks[..k]))
      {
        ConcatGrows(chunks, k);
        StuckIffCutsHeader(c, bursts, Concat(chunks[..k]));
      }
    }
  }
}
