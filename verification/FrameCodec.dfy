/** The incremental splitter: a receive buffer with a lazily advanced cursor, proved to do what
    erasing every frame at once would do. */
module FrameCodec {
  import opened Bytes
  import opened Framing
  import opened Segmentation
  import opened Splitting

  /** Does head, which must not be empty, stand in buf at position pos? */
  method StartsWith(buf: seq<byte>, pos: nat, head: seq<byte>) returns (yes: bool)
    requires pos <= |buf|
    ensures yes <==> head != [] && head <= buf[pos..]
  {
    if head == [] || pos + |head| > |buf| {
      return false;
    }
    for i := 0 to |head|
      invariant forall j :: 0 <= j < i ==> buf[pos + j] == head[j]
    {
      if buf[pos + i] != head[i] {
        assert buf[pos..][i] != head[i];
        return false;
      }
    }
    return true;
  }

  method LongestFrameAllowed(c: Settings) returns (maxLen: int32)
    ensures maxLen == MaxFrameLen(c)
  {
    maxLen := c.cfg.maxFrameLen;
    for k := 0 to |c.cfgs|
      invariant MaxFrom(maxLen, c.cfgs, k) == MaxFrameLen(c)
    {
      if maxLen < c.cfgs[k].maxFrameLen {
        maxLen := c.cfgs[k].maxFrameLen;
      }
    }
  }

  // ---- The search loops find what the specification names ----

  lemma {:induction false} FirstFullIs(hs: set<seq<byte>>, s: seq<byte>, i: nat, p: nat)
    requires i <= p <= |s| && (p < |s| ==> FullAt(hs, s, p))
    requires forall j :: i <= j < p ==> !FullAt(hs, s, j)
    ensures FirstFull(hs, s, i) == p
  {
  }

  lemma {:induction false} FirstPartialIs(hs: set<seq<byte>>, s: seq<byte>, i: nat, p: nat)
    requires i <= p <= |s| && (p < |s| ==> PartialAt(hs, s, p))
    requires forall j :: i <= j < p ==> !PartialAt(hs, s, j)
    ensures FirstPartial(hs, s, i) == p
  {
  }

  /** The last keep bytes of s are the first keep bytes of h. */
  predicate TailMatches(s: seq<byte>, h: seq<byte>, keep: nat) {
    keep <= |s| && keep <= |h| && s[|s| - keep..] == h[..keep]
  }

  ghost predicate NoLongerTail(s: seq<byte>, h: seq<byte>, keep: nat) {
    forall n: nat :: keep < n < |h| ==> !TailMatches(s, h, n)
  }

  lemma {:induction false} PartialIsTail(s: seq<byte>, h: seq<byte>, keep: nat)
    requires keep <= |s|
    ensures s[|s| - keep..] < h <==> keep < |h| && TailMatches(s, h, keep)
  {
  }

  function Moved(v: Verdict): nat {
    match v
    case Skip(n) => n
    case Emit(n) => n
    case _ => 0
  }

  function Emitted(v: Verdict, s: seq<byte>): (out: seq<Frame>)
    requires v.Emit? ==> v.n <= |s|
  {
    if v.Emit? then [s[..v.n]] else []
  }

  lemma {:induction false} FirstMatchIs(cfgs: seq<FramingConfig>, s: seq<byte>, k: nat)
    requires k <= |cfgs| && (k < |cfgs| ==> Matches(cfgs[k], s))
    requires forall j :: 0 <= j < k ==> !Matches(cfgs[j], s)
    ensures FirstMatch(cfgs, s, 0) == k
  {
  }

  /** Of the drain of s, out has been extracted and p is still to be drained. */
  ghost predicate Remaining(c: Settings, s: seq<byte>, out: seq<Frame>, p: seq<byte>) {
    Drain(c, s) == Drained(out + Drain(c, p).frames, Drain(c, p).rest)
  }

  /** One decision at position at of the buffer. */
  lemma {:induction false} Progress(c: Settings, s: seq<byte>, out: seq<Frame>, buf: seq<byte>, at: nat)
    requires at <= |buf| && Remaining(c, s, out, buf[at..])
    ensures var v := Step(c, buf[at..]);
            && at + Moved(v) <= |buf|
            && (v.Skip? || v.Emit? ==> Moved(v) > 0)
            && Remaining(c, s, out + Emitted(v, buf[at..]), buf[at + Moved(v)..])
  {
    hide Step;
    var p := buf[at..];
    var v := Step(c, p);
    assert buf[at + Moved(v)..] == p[Moved(v)..];
    if v.Emit? {
      var d := Drain(c, p[v.n..]);
      assert out + ([p[..v.n]] + d.frames) == (out + [p[..v.n]]) + d.frames;
    }
  }

  lemma {:induction false} NothingExtracted(c: Settings, s: seq<byte>)
    ensures Remaining(c, s, [], s)
  {
    hide Step;
    assert [] + Drain(c, s).frames == Drain(c, s).frames;
  }

  lemma {:induction false} NothingRemains(c: Settings, s: seq<byte>, out: seq<Frame>, p: seq<byte>)
    requires Remaining(c, s, out, p) && (Step(c, p).Wait? || Step(c, p).Stutter?)
    ensures Drain(c, s) == Drained(out, p)
  {
    hide Step;
    assert out + [] == out;
  }

  class FrameSplitter {
    var cfg: FramingConfig
    var cfgs: seq<FramingConfig>
    var buf: seq<byte>
    var head: nat

    ghost predicate Valid()
      reads this
    {
      head <= |buf|
    }

    function Config(): Settings
      reads this
    {
      Settings(cfg, cfgs)
    }

    /** The bytes received and not yet consumed. */
    ghost function Pending(): seq<byte>
      requires Valid()
      reads this
    {
      buf[head..]
    }

    constructor (config: FramingConfig)
      ensures Valid() && Config() == Settings(config, []) && Pending() == [] && head == 0
    {
      cfg := config;
      cfgs := [];
      buf := [];
      head := 0;
    }

    /** Back to one configuration; what was received is kept only while the frame structure stays. */
    method SetConfig(config: FramingConfig)
      requires Valid()
      modifies this
      ensures Valid() && Config() == Settings(config, [])
      ensures Pending()
           == if config.mode == old(cfg).mode && config.header == old(cfg).header then old(Pending()) else []
    {
      if config.mode != cfg.mode || config.header != cfg.header {
        buf := [];
        head := 0;
      }
      cfg := config;
      cfgs := [];
    }

    method SetConfigs(configs: seq<FramingConfig>)
      modifies this
      ensures Valid() && Pending() == [] && head == 0
      ensures Config() == Settings(if configs != [] then configs[0] else old(cfg), configs)
    {
      buf := [];
      head := 0;
      cfgs := configs;
      if cfgs != [] {
        cfg := cfgs[0];
      }
    }

    method Reset()
      modifies this
      ensures Valid() && Pending() == [] && head == 0 && Config() == old(Config())
    {
      buf := [];
      head := 0;
    }

    /** The first full header behind the cursor, or the end of the buffer. */
    method NextHeader() returns (i: nat)
      requires Valid() && Pending() != []
      ensures i <= |buf| && head < i && i - head == FirstFull({cfg.header}, Pending(), 1)
      requires cfg.header != []
    {
      ghost var hs, s := {cfg.header}, Pending();
      i := head + 1;
      while i < |buf|
        invariant head < i <= |buf|
        invariant forall j :: 1 <= j < i - head ==> !FullAt(hs, s, j)
      {
        var found := StartsWith(buf, i, cfg.header);
        assert buf[i..] == s[i - head..];
        if found {
          assert FullAt(hs, s, i - head);
          FirstFullIs(hs, s, 1, i - head);
          return;
        }
        i := i + 1;
      }
      FirstFullIs(hs, s, 1, |s|);
    }

    /** The length of the longest tail of the buffer that is a proper prefix of header, but at least floor. */
    method LongestTail(header: seq<byte>, floor: nat) returns (keep: nat)
      requires Valid() && header != []
      ensures floor <= keep
      ensures keep > floor ==> keep < |header| && TailMatches(Pending(), header, keep)
      ensures NoLongerTail(Pending(), header, keep)
    {
      ghost var s := Pending();
      var avail := |buf| - head;
      keep := if avail < |header| - 1 then avail else |header| - 1;
      while keep > floor
        invariant NoLongerTail(s, header, keep)
      {
        assert s[avail - keep..] == buf[|buf| - keep..];
        if buf[|buf| - keep..] == header[..keep] {
          return;
        }
        keep := keep - 1;
      }
      keep := floor;
    }

    /** Drops bytes after the front of the buffer until a header stands, or may come to stand, there. */
    method Resync() returns (discarded: nat)
      requires Valid() && Pending() != []
      modifies `head
      ensures Valid()
      ensures var p := if cfg.mode == HeaderLength && cfg.header != []
                       then ResyncPoint({cfg.header}, old(Pending())) else 1;
              head == old(head) + p && discarded == p
    {
      hide FirstFull, FirstPartial, TailMatches, NoLongerTail;
      if cfg.mode == HeaderLength && cfg.header != [] {
        var avail := |buf| - head;
        var i := NextHeader();
        if i < |buf| {
          discarded := i - head;
          head := i;
          return;
        }
        var keep := LongestTail(cfg.header, 0);
        OneHeaderTail(cfg.header, Pending(), keep);
        head := |buf| - keep;
        return avail - keep;
      }
      head := head + 1;
      return 1;
    }

    /** The same for several headers: the nearest full one, else the longest tail that may become one.
        Reports at least one byte even when the cursor has not moved. */
    method ResyncMulti() returns (discarded: nat)
      requires Valid() && Pending() != []
      modifies `head
      ensures Valid()
      ensures var p := ResyncPoint(Headers(cfgs), old(Pending()));
              head == old(head) + p && discarded == if p == 0 then 1 else p
    {
      ghost var hs, s := Headers(cfgs), Pending();
      var avail := |buf| - head;
      var i := head + 1;
      while i < |buf|
        invariant head < i <= |buf| && head == old(head)
        invariant forall j :: 1 <= j < i - head ==> !FullAt(hs, s, j)
      {
        var found := AnyHeaderAt(i);
        if found {
          FirstFullIs(hs, s, 1, i - head);
          discarded := i - head;
          head := i;
          return;
        }
        i := i + 1;
      }
      FirstFullIs(hs, s, 1, |s|);
      var maxKeep := 0;
      for k := 0 to |cfgs|
        invariant head == old(head)
        invariant maxKeep > 0 ==> exists h :: h in hs && maxKeep < |h| && TailMatches(s, h, maxKeep)
        invariant forall m :: 0 <= m < k ==> NoLongerTail(s, cfgs[m].header, maxKeep)
      {
        if cfgs[k].header != [] {
          assert cfgs[k].header in hs;
          maxKeep := LongestTail(cfgs[k].header, maxKeep);
        }
      }
      TailIsFirstPartial(hs, s, maxKeep);
      if maxKeep == 0 {
        head := |buf|;
        return avail;
      }
      var discard := avail - maxKeep;
      head := |buf| - maxKeep;
      return if discard == 0 then 1 else discard;
    }

    /** Does any of the headers stand at position i? */
    method AnyHeaderAt(i: nat) returns (found: bool)
      requires Valid() && head <= i <= |buf|
      ensures found <==> FullAt(Headers(cfgs), Pending(), i - head)
    {
      assert buf[i..] == Pending()[i - head..];
      for k := 0 to |cfgs|
        invariant forall m :: 0 <= m < k ==> !(cfgs[m].header != [] && cfgs[m].header <= buf[i..])
      {
        var yes := StartsWith(buf, i, cfgs[k].header);
        if yes {
          assert cfgs[k].header in Headers(cfgs);
          return true;
        }
      }
      return false;
    }

    /** One decision about the front of the buffer; a complete frame is appended to out. */
    method TryExtract(out: seq<Frame>) returns (more: bool, out': seq<Frame>)
      requires Valid()
      modifies `head
      ensures Valid()
      ensures var v := Step(Config(), old(Pending()));
              && more == !v.Wait?
              && head == old(head) + Moved(v)
              && out' == out + Emitted(v, old(Pending()))
    {
      if cfgs != [] {
        more, out' := TryMulti(out);
      } else if cfg.mode == Tlv {
        more, out' := TryTlv(out);
      } else {
        more, out' := TryHeader(out);
      }
    }

    method TryMulti(out: seq<Frame>) returns (more: bool, out': seq<Frame>)
      requires Valid() && cfgs != []
      modifies `head
      ensures Valid()
      ensures var v := StepMulti(cfgs, old(Pending()));
              && more == !v.Wait?
              && head == old(head) + Moved(v)
              && out' == out + Emitted(v, old(Pending()))
    {
      ghost var s := Pending();
      var avail := |buf| - head;
      if avail == 0 {
        return false, out;
      }
      for k := 0 to |cfgs|
        invariant head == old(head)
        invariant forall j :: 0 <= j < k ==> !Matches(cfgs[j], s)
      {
        var c := cfgs[k];
        var starts := StartsWith(buf, head, c.header);
        if starts && c.HeaderParamsOk() {
          FirstMatchIs(cfgs, s, k);
          if avail < c.LenFieldEnd() {
            return false, out;
          }
          var total := ReadTotal(c);
          if !c.LegalTotal(total) {
            var _ := ResyncMulti();
            return true, out;
          }
          if avail < total {
            return false, out;
          }
          assert buf[head..head + total] == s[..total];
          out' := out + [buf[head..head + total]];
          head := head + total;
          return true, out';
        }
      }
      FirstMatchIs(cfgs, s, |cfgs|);
      var discarded := ResyncMulti();
      return discarded > 0, out;
    }

    method TryTlv(out: seq<Frame>) returns (more: bool, out': seq<Frame>)
      requires Valid() && cfg.mode == Tlv
      modifies `head
      ensures Valid()
      ensures var v := StepTlv(cfg, old(Pending()));
              && more == !v.Wait?
              && head == old(head) + Moved(v)
              && out' == out + Emitted(v, old(Pending()))
    {
      var avail := |buf| - head;
      if !cfg.TlvParamsOk() || avail < cfg.TlvHeadLen() {
        return false, out;
      }
      var hl := cfg.TlvHeadLen();
      var len := ReadUint(buf, head + cfg.tagBytes, cfg.lenBytes, cfg.bigEndian);
      assert buf[head + cfg.tagBytes..head + hl] == Pending()[cfg.tagBytes..hl];
      if cfg.lenIncludesHeader {
        len := if len > hl then len - hl else 0;
      }
      if len > AsUint64(cfg.maxFrameLen) {
        var _ := Resync();
        return true, out;
      }
      if avail < hl + len {
        return false, out;
      }
      assert buf[head..head + hl + len] == Pending()[..hl + len];
      out' := out + [buf[head..head + hl + len]];
      head := head + hl + len;
      return true, out';
    }

    method TryHeader(out: seq<Frame>) returns (more: bool, out': seq<Frame>)
      requires Valid() && cfg.mode == HeaderLength && cfgs == []
      modifies `head
      ensures Valid()
      ensures var v := StepHeader(cfg, old(Pending()));
              && more == !v.Wait?
              && head == old(head) + Moved(v)
              && out' == out + Emitted(v, old(Pending()))
    {
      var avail := |buf| - head;
      if avail == 0 || !cfg.HeaderParamsOk() {
        return false, out;
      }
      var starts := StartsWith(buf, head, cfg.header);
      if !starts {
        var discarded := Resync();
        return discarded > 0, out;
      }
      if avail < cfg.LenFieldEnd() {
        return false, out;
      }
      var total := ReadTotal(cfg);
      if !cfg.LegalTotal(total) {
        var _ := Resync();
        return true, out;
      }
      if avail < total {
        return false, out;
      }
      assert buf[head..head + total] == Pending()[..total];
      out' := out + [buf[head..head + total]];
      head := head + total;
      return true, out';
    }

    /** The frame length announced at the front of the buffer. */
    method ReadTotal(c: FramingConfig) returns (total: nat)
      requires Valid() && c.HeaderParamsOk() && |Pending()| >= c.LenFieldEnd()
      ensures total == c.HeaderTotal(Pending())
    {
      var len := ReadUint(buf, head + c.lenOffset, c.lenBytesHeader, c.bigEndianHeader);
      assert buf[head + c.lenOffset..head + c.LenFieldEnd()] == Pending()[c.lenOffset..c.LenFieldEnd()];
      total := if c.lenIncludesAll then len else c.LenFieldEnd() + len;
    }

    /** Appends data and extracts what can be extracted. hung reports that the source's loop would
        repeat the same decision for ever; it then never returns. */
    method Feed(data: seq<byte>) returns (out: seq<Frame>, hung: bool)
      requires Valid()
      modifies this
      ensures Valid() && Config() == old(Config())
      ensures var f := FeedSpec(Config(), old(Pending()), data);
              && out == f.frames && hung == f.hangs
              && (!hung ==> head == 0 && buf == f.buf)
    {
      hide Step, Drain, Clip, Cap;
      ghost var s := Pending() + data;
      buf := buf + data;
      assert Pending() == s;
      out, hung := ExtractAll();
      if !hung {
        Trim();
      }
    }

    /** Moves what is left to the front of the buffer and keeps no more than the cap allows. */
    method Trim()
      requires Valid()
      modifies `buf, `head
      ensures head == 0 && buf == Clip(Cap(Config()), old(Pending()))
    {
      if head > 0 {
        buf := buf[head..];
        head := 0;
      }
      var cap := CurrentCap();
      if |buf| > cap {
        buf := buf[|buf| - cap..];
      }
    }

    method CurrentCap() returns (cap: nat)
      ensures cap == Cap(Config())
    {
      var maxLen := LongestFrameAllowed(Config());
      cap := (AsUint64(maxLen) * 2 + 1024) % TWO_64;
    }

    /** The extraction loop: the cursor runs to where nothing more can be decided. */
    method ExtractAll() returns (out: seq<Frame>, hung: bool)
      requires Valid()
      modifies `head
      ensures Valid()
      ensures var d := Drain(Config(), old(Pending()));
              out == d.frames && Pending() == d.rest && hung == Step(Config(), d.rest).Stutter?
    {
      hide Step, Drain, Remaining;
      ghost var c, s := Config(), Pending();
      out, hung := [], false;
      var more := true;
      NothingExtracted(c, s);
      while more
        invariant head <= |buf|
        invariant Remaining(c, s, out, buf[head..])
        invariant more ==> !hung
        invariant !more ==> if hung then Step(c, buf[head..]).Stutter? else Step(c, buf[head..]).Wait?
        decreases |buf| - head, more
      {
        var before := head;
        ghost var v := Step(c, buf[head..]);
        Progress(c, s, out, buf, head);
        more, out := TryExtract(out);
        if more && head == before {
          assert v.Stutter?;
          more, hung := false, true;
        }
      }
      NothingRemains(c, s, out, buf[head..]);
    }
  }

  /** The longest tail that is a proper prefix of a header starts at the first partial position. */
  lemma {:induction false} TailIsFirstPartial(hs: set<seq<byte>>, s: seq<byte>, keep: nat)
    requires keep <= |s|
    requires keep > 0 ==> exists h :: h in hs && keep < |h| && TailMatches(s, h, keep)
    requires forall h :: h in hs ==> NoLongerTail(s, h, keep)
    ensures FirstPartial(hs, s, 0) == |s| - keep
  {
    forall j, h | 0 <= j < |s| - keep && h in hs
      ensures !(s[j..] < h)
    {
      PartialIsTail(s, h, |s| - j);
    }
    if keep > 0 {
      var h :| h in hs && keep < |h| && TailMatches(s, h, keep);
      PartialIsTail(s, h, keep);
      assert PartialAt(hs, s, |s| - keep);
    }
    FirstPartialIs(hs, s, 0, |s| - keep);
  }

  lemma {:induction false} OneHeaderTail(h: seq<byte>, s: seq<byte>, keep: nat)
    requires keep > 0 ==> keep < |h| && TailMatches(s, h, keep)
    requires NoLongerTail(s, h, keep)
    ensures keep <= |s| && FirstPartial({h}, s, 0) == |s| - keep
  {
    hide FirstPartial, NoLongerTail;
    TailIsFirstPartial({h}, s, keep);
  }
}
