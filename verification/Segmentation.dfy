/** Cutting the stream into chunks does not change what is extracted from it. */
module Segmentation {
  import opened Bytes
  import opened Framing

  // ---- A decision survives the arrival of more bytes ----

  lemma {:induction false} PrefixDigits(s: seq<byte>, t: seq<byte>, lo: nat, hi: nat)
    requires lo <= hi <= |s|
    ensures (s + t)[lo..hi] == s[lo..hi]
  {
  }

  lemma {:induction false} PrefixStarts(h: seq<byte>, s: seq<byte>, t: seq<byte>)
    requires h <= s
    ensures h <= s + t
  {
  }

  /** The first matching configuration stays the same when bytes are appended. */
  lemma {:induction false} FirstMatchExtends(cfgs: seq<FramingConfig>, s: seq<byte>, t: seq<byte>)
    requires NonContaining(Headers(cfgs))
    requires FullAt(Headers(cfgs), s, 0)
    ensures FirstMatch(cfgs, s + t, 0) == FirstMatch(cfgs, s, 0)
    ensures FullAt(Headers(cfgs), s + t, 0)
  {
    var hs := Headers(cfgs);
    var h :| h in hs && h <= s[0..];
    assert s[0..] == s && (s + t)[0..] == s + t;
    PrefixStarts(h, s, t);
    forall j | 0 <= j < |cfgs|
      ensures Matches(cfgs[j], s + t) == Matches(cfgs[j], s)
    {
      var g := cfgs[j].header;
      if Matches(cfgs[j], s + t) {
        assert g in hs && g <= s + t;
        if g != h {
          ComparablePrefixes(g, h, s + t);
        }
      }
    }
    SameFirstMatch(cfgs, s + t, s, 0);
  }

  lemma {:induction false} ComparablePrefixes(g: seq<byte>, h: seq<byte>, s: seq<byte>)
    requires g <= s && h <= s && g != h
    ensures OccursIn(g, h) || OccursIn(h, g)
  {
    if |g| < |h| {
      assert g <= h[0..];
    } else {
      assert h <= g[0..];
    }
  }

  lemma {:induction false} SameFirstMatch(cfgs: seq<FramingConfig>, s: seq<byte>, t: seq<byte>, k: nat)
    requires k <= |cfgs|
    requires forall j :: 0 <= j < |cfgs| ==> Matches(cfgs[j], s) == Matches(cfgs[j], t)
    ensures FirstMatch(cfgs, s, k) == FirstMatch(cfgs, t, k)
    decreases |cfgs| - k
  {
    if k < |cfgs| {
      SameFirstMatch(cfgs, s, t, k + 1);
    }
  }

  lemma {:induction false} LeastCandidateUnique(hs: set<seq<byte>>, s: seq<byte>, from: nat, p: nat, q: nat)
    requires IsLeastCandidate(hs, s, from, p) && IsLeastCandidate(hs, s, from, q)
    ensures p == q
  {
  }

  /** Positions passed over before more bytes arrived are passed over afterwards too. */
  lemma {:induction false} LeastCandidateExtends(hs: set<seq<byte>>, s: seq<byte>, t: seq<byte>, from: nat, p: nat,
                                             q: nat)
    requires IsLeastCandidate(hs, s, from, p) && IsLeastCandidate(hs, s + t, from, q)
    ensures p <= q
    ensures IsLeastCandidate(hs, (s + t)[p..], 0, q - p)
  {
    forall j | from <= j < p
      ensures !Candidate(hs, (s + t)[j..])
    {
      NotCandidateExtends(hs, s[j..], t);
      assert s[j..] + t == (s + t)[j..];
    }
    var u := (s + t)[p..];
    assert u[q - p..] == (s + t)[q..];
    forall j | 0 <= j < q - p
      ensures !Candidate(hs, u[j..])
    {
      assert u[j..] == (s + t)[p + j..];
    }
  }

  /** The headers a settings value resynchronises on. */
  ghost function SyncHeaders(c: Settings): set<seq<byte>> {
    if c.cfgs != [] then Headers(c.cfgs) else {c.cfg.header}
  }

  predicate Syncs(c: Settings) {
    c.cfgs != [] || (c.cfg.mode == HeaderLength && c.cfg.header != [] && c.cfg.HeaderParamsOk())
  }

  lemma {:induction false} SyncHeadersRegular(c: Settings)
    requires Regular(c)
    ensures NonContaining(SyncHeaders(c))
  {
  }

  /** Where no header could start, the splitter skips to the least place where one could. */
  lemma {:induction false} StepAtNonCandidate(c: Settings, u: seq<byte>, p: nat)
    requires Regular(c) && Syncs(c) && IsLeastCandidate(SyncHeaders(c), u, 0, p) && p > 0
    ensures Step(c, u) == Skip(p)
  {
    var hs := SyncHeaders(c);
    assert !Candidate(hs, u[0..]) && u[0..] == u;
    ResyncIsLeastCandidate(hs, u);
    LeastCandidateUnique(hs, u, 0, p, ResyncPoint(hs, u));
    if c.cfgs != [] {
      forall j | 0 <= j < |c.cfgs|
        ensures !Matches(c.cfgs[j], u)
      {
        assert c.cfgs[j].header != [] ==> c.cfgs[j].header in hs;
      }
    } else {
      assert c.cfg.header in hs;
    }
  }

  /** Whether a header stands at the front, and whether its length is legal, does not change. */
  lemma {:induction false} RejectionExtends(c: Settings, s: seq<byte>, t: seq<byte>)
    requires Regular(c) && Syncs(c) && Step(c, s).Skip?
    requires FullAt(SyncHeaders(c), s, 0)
    ensures Step(c, s + t) == Resynced(SyncHeaders(c), s + t, Stutter)
  {
    assert s[0..] == s;
    if c.cfgs != [] {
      FirstMatchExtends(c.cfgs, s, t);
      var m := FirstMatch(c.cfgs, s, 0);
      if m < |c.cfgs| {
        PrefixDigits(s, t, c.cfgs[m].lenOffset, c.cfgs[m].LenFieldEnd());
      }
    } else {
      PrefixDigits(s, t, c.cfg.lenOffset, c.cfg.LenFieldEnd());
    }
  }

  lemma {:induction false} SkipIsResync(c: Settings, s: seq<byte>)
    requires Syncs(c) && Step(c, s).Skip?
    ensures Step(c, s) == Skip(ResyncPoint(SyncHeaders(c), s))
  {
  }

  lemma {:induction false} ResyncedMoves(hs: set<seq<byte>>, s: seq<byte>)
    requires s != [] && ResyncPoint(hs, s) > 0
    ensures Resynced(hs, s, Stutter) == Skip(ResyncPoint(hs, s))
  {
  }

  lemma {:induction false} NotFullStaysNotFull(hs: set<seq<byte>>, s: seq<byte>, t: seq<byte>, p: nat)
    requires IsLeastCandidate(hs, s, 0, p) && p > 0
    ensures !FullAt(hs, s + t, 0)
  {
    assert s[0..] == s && (s + t)[0..] == s + t;
    NotCandidateExtends(hs, s, t);
  }

  /** A resynchronising step on s skips at least as far once t has arrived. */
  lemma {:induction false} SkipExtends(c: Settings, s: seq<byte>, t: seq<byte>)
    requires Regular(c) && Syncs(c) && Step(c, s).Skip?
    ensures Step(c, s + t).Skip? && Step(c, s).n <= Step(c, s + t).n
    ensures var p, q := Step(c, s).n, Step(c, s + t).n;
            IsLeastCandidate(SyncHeaders(c), (s + t)[p..], 0, q - p)
  {
    hide *;
    var hs := SyncHeaders(c);
    SyncHeadersRegular(c);
    var p, q := ResyncPoint(hs, s), ResyncPoint(hs, s + t);
    ResyncIsLeastCandidate(hs, s);
    ResyncIsLeastCandidate(hs, s + t);
    SkipIsResync(c, s);
    if FullAt(hs, s, 0) {
      FullStaysFull(hs, s, t);
      RejectionExtends(c, s, t);
      LeastCandidateExtends(hs, s, t, 1, p, q);
      ResyncedMoves(hs, s + t);
    } else {
      NotFullStaysNotFull(hs, s, t, p);
      LeastCandidateExtends(hs, s, t, 0, p, q);
      StepAtNonCandidate(c, s + t, q);
    }
  }

  lemma {:induction false} FullStaysFull(hs: set<seq<byte>>, s: seq<byte>, t: seq<byte>)
    requires FullAt(hs, s, 0)
    ensures FullAt(hs, s + t, 0)
  {
    var h :| h in hs && h <= s[0..];
    assert h <= (s + t)[0..];
  }

  /** Without a header to look for, one byte is skipped whatever follows. */
  lemma {:induction false} SingleByteSkipExtends(c: Settings, s: seq<byte>, t: seq<byte>)
    requires !Syncs(c) && Step(c, s).Skip?
    ensures Step(c, s + t) == Step(c, s)
  {
    if c.cfg.mode == Tlv {
      PrefixDigits(s, t, c.cfg.tagBytes, c.cfg.TlvHeadLen());
    }
  }

  /** Discarding what a shorter buffer showed to be garbage loses nothing of the longer one. */
  lemma {:induction false} DrainAfterSkip(c: Settings, s: seq<byte>, t: seq<byte>)
    requires Regular(c) && Step(c, s).Skip?
    ensures Drain(c, s + t) == Drain(c, (s + t)[Step(c, s).n..])
  {
    hide *;
    var p := Step(c, s).n;
    if Syncs(c) {
      SkipExtends(c, s, t);
      var q := Step(c, s + t).n;
      DrainSkips(c, s + t);
      if p < q {
        var u := (s + t)[p..];
        StepAtNonCandidate(c, u, q - p);
        DrainSkips(c, u);
        assert u[q - p..] == (s + t)[q..];
      }
    } else {
      SingleByteSkipExtends(c, s, t);
      DrainSkips(c, s + t);
    }
  }

  /** A complete frame at the front of the buffer is extracted whatever follows it. */
  lemma {:induction false} EmitExtends(c: Settings, s: seq<byte>, t: seq<byte>)
    requires Regular(c) && Step(c, s).Emit?
    ensures Step(c, s + t) == Step(c, s)
  {
    if c.cfgs != [] {
      var m := FirstMatch(c.cfgs, s, 0);
      assert s[0..] == s && c.cfgs[m].header in Headers(c.cfgs);
      FirstMatchExtends(c.cfgs, s, t);
      PrefixDigits(s, t, c.cfgs[m].lenOffset, c.cfgs[m].LenFieldEnd());
    } else if c.cfg.mode == Tlv {
      PrefixDigits(s, t, c.cfg.tagBytes, c.cfg.TlvHeadLen());
    } else {
      PrefixDigits(s, t, c.cfg.lenOffset, c.cfg.LenFieldEnd());
    }
  }

  /** Draining a stream in two pieces is draining it at once. */
  lemma {:induction false} DrainSplits(c: Settings, s: seq<byte>, t: seq<byte>)
    requires Regular(c)
    ensures var d := Drain(c, s);
            var e := Drain(c, d.rest + t);
            Drain(c, s + t) == Drained(d.frames + e.frames, e.rest)
    decreases |s|
  {
    hide *;
    var v := Step(c, s);
    if v.Skip? {
      DrainAfterSkip(c, s, t);
      DrainSkips(c, s);
      assert (s + t)[v.n..] == s[v.n..] + t;
      DrainSplits(c, s[v.n..], t);
    } else if v.Emit? {
      EmitExtends(c, s, t);
      DrainEmits(c, s);
      DrainEmits(c, s + t);
      assert (s + t)[v.n..] == s[v.n..] + t && (s + t)[..v.n] == s[..v.n];
      DrainSplits(c, s[v.n..], t);
    } else {
      DrainStops(c, s);
    }
  }

  lemma {:induction false} DrainStops(c: Settings, s: seq<byte>)
    requires Step(c, s).Wait? || Step(c, s).Stutter?
    ensures Drain(c, s) == Drained([], s)
  {
    hide Step;
  }

  lemma {:induction false} DrainSkips(c: Settings, s: seq<byte>)
    requires Step(c, s).Skip?
    ensures Drain(c, s) == Drain(c, s[Step(c, s).n..])
  {
    hide Step;
  }

  lemma {:induction false} DrainEmits(c: Settings, s: seq<byte>)
    requires Step(c, s).Emit?
    ensures var n := Step(c, s).n;
            var d := Drain(c, s[n..]);
            Drain(c, s) == Drained([s[..n]] + d.frames, d.rest)
  {
    hide Step;
  }
}
