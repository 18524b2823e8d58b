/** One splitter per captured TCP flow: mirrored flows do not disturb one another. */
module Flows {
  import opened Bytes
  import opened Framing
  import opened Splitting
  import opened FrameCodec
  import opened Ethernet

  const MAX_FLOWS: nat := 32

  // ---- What one packet does to the buffers of all flows ----

  type Buffers = map<string, seq<byte>>

  /** The flows known when a packet of flow k is handled: a new flow beyond the limit drops all others. */
  function Admit(flows: Buffers, k: string): (r: Buffers)
    ensures k in r
  {
    if k in flows then flows
    else (if |flows| >= MAX_FLOWS then map[] else flows)[k := []]
  }

  ghost function Handle(c: Settings, flows: Buffers, p: CapPacket): (Buffers, Fed) {
    if !p.tcp then (flows, Fed([p.payload], [], false))
    else
      var known := Admit(flows, p.flowKey);
      var f := FeedSpec(c, known[p.flowKey], p.payload);
      (known[p.flowKey := f.buf], f)
  }

  class FlowSplitters {
    var cfg: FramingConfig
    var cfgs: seq<FramingConfig>
    var flows: map<string, FrameSplitter>
    ghost var repr: set<FrameSplitter>  // the splitters of all flows
    ghost var owner: map<FrameSplitter, string>  // the flow each of them serves
    ghost var view: Buffers             // what each of them keeps

    function Config(): Settings
      reads this
    {
      Settings(if cfgs != [] then cfgs[0] else cfg, cfgs)
    }

    ghost predicate Valid()
      reads this, repr
    {
      |flows| <= MAX_FLOWS && Served(flows, view, owner, repr, Config())
    }

    constructor (config: FramingConfig)
      ensures Valid() && view == map[] && Config() == Settings(config, []) && repr == {}
    {
      cfg := config;
      cfgs := [];
      flows := map[];
      repr := {};
      owner := map[];
      view := map[];
    }

    method SetConfig(config: FramingConfig)
      modifies this
      ensures Valid() && view == map[] && Config() == Settings(config, []) && repr == {}
    {
      cfg := config;
      cfgs := [];
      Reset();
    }

    method SetConfigs(configs: seq<FramingConfig>)
      modifies this
      ensures Valid() && view == map[] && repr == {}
      ensures Config() == Settings(if configs != [] then configs[0] else old(cfg), configs)
    {
      cfgs := configs;
      if configs != [] {
        cfg := configs[0];
      }
      Reset();
    }

    method Reset()
      modifies this
      ensures Valid() && view == map[] && repr == {}
      ensures Config() == old(Config()) && cfg == old(cfg) && cfgs == old(cfgs)
    {
      flows := map[];
      repr := {};
      owner := map[];
      view := map[];
    }

    /** The frames one captured packet yields. UDP datagrams are frames themselves. */
    method Feed(p: CapPacket) returns (out: seq<Frame>, hung: bool)
      requires Valid()
      modifies this, repr
      ensures Config() == old(Config()) && fresh(repr - old(repr))
      ensures var r := Handle(Config(), old(view), p);
              && out == r.1.frames && hung == r.1.hangs
              && (!hung ==> Valid() && view == r.0)
    {
      hide FeedSpec, Served;
      if !p.tcp {
        return [p.payload], false;
      }
      AdmitFlow(p.flowKey);
      out, hung := FeedFlow(p.flowKey, p.payload);
    }

    method FeedFlow(k: string, data: seq<byte>) returns (out: seq<Frame>, hung: bool)
      requires Valid() && k in flows
      modifies this`view, repr
      ensures Config() == old(Config())
      ensures var f := FeedSpec(Config(), old(view)[k], data);
              && out == f.frames && hung == f.hangs
              && (!hung ==> Valid() && view == old(view)[k := f.buf])
    {
      hide FeedSpec;
      var sp := flows[k];
      assert sp.Pending() == sp.buf;
      out, hung := sp.Feed(data);
      view := view[k := sp.buf];
    }

    /** Makes sure flow k has a splitter; a new flow beyond the limit first drops all the others. */
    method AdmitFlow(k: string)
      requires Valid()
      modifies this`flows, this`repr, this`owner, this`view
      ensures Valid() && k in flows && fresh(repr - old(repr))
      ensures view == Admit(old(view), k)
    {
      if k in flows {
        return;
      }
      if |flows| >= MAX_FLOWS {
        flows, view := map[], map[];
      }
      AddFlow(k);
    }

    method AddFlow(k: string)
      requires Valid() && k !in flows && |flows| < MAX_FLOWS
      modifies this`flows, this`repr, this`owner, this`view
      ensures Valid() && k in flows && repr == old(repr) + {flows[k]} && fresh(flows[k])
      ensures view == old(view)[k := []]
    {
      hide Served, Serves;
      var sp := NewSplitter();
      NewKey(flows, k, sp);
      ServedToo(flows, view, owner, repr, Config(), k, sp);
      flows := flows[k := sp];
      repr := repr + {sp};
      owner := owner[sp := k];
      view := view[k := []];
    }

    method NewSplitter() returns (sp: FrameSplitter)
      ensures fresh(sp) && Serves(sp, Config(), [])
    {
      sp := new FrameSplitter(cfg);
      if cfgs != [] {
        sp.SetConfigs(cfgs);
      }
      assert sp.Pending() == sp.buf;
    }
  }

  ghost predicate Serves(sp: FrameSplitter, c: Settings, kept: seq<byte>)
    reads sp
  {
    sp.Valid() && sp.head == 0 && sp.Config() == c && sp.buf == kept
  }

  /** Each flow has a splitter of its own, configured by c, that keeps what view says. */
  ghost predicate Served(flows: map<string, FrameSplitter>, view: Buffers, owner: map<FrameSplitter, string>,
                         repr: set<FrameSplitter>, c: Settings)
    reads repr
  {
    && view.Keys == flows.Keys
    && (forall k :: k in flows ==> flows[k] in repr && Serves(flows[k], c, view[k]))
    && (forall k :: k in flows ==> flows[k] in owner && owner[flows[k]] == k)
  }

  lemma {:induction false} ServedToo(flows: map<string, FrameSplitter>, view: Buffers,
                                     owner: map<FrameSplitter, string>, repr: set<FrameSplitter>,
                                     c: Settings, k: string, sp: FrameSplitter)
    requires Served(flows, view, owner, repr, c) && k !in flows && sp !in repr && Serves(sp, c, [])
    ensures Served(flows[k := sp], view[k := []], owner[sp := k], repr + {sp}, c)
  {
  }

  lemma {:induction false} NewKey<V>(m: map<string, V>, k: string, v: V)
    requires k !in m
    ensures |m[k := v]| == |m| + 1
  {
    assert m[k := v].Keys == m.Keys + {k};
  }

  // ---- One packet, spelled out ----

  /** A UDP payload is one frame, empty or not, and touches no flow. A TCP packet changes its own flow alone, which
      yields what its splitter yields, a new one if need be; except that a new flow beyond 32 drops all the others. */
  lemma {:induction false} PacketOutcome(c: Settings, flows: Buffers, p: CapPacket)
    ensures var r := Handle(c, flows, p);
            && (!p.tcp ==> r.0 == flows && r.1.frames == [p.payload] && !r.1.hangs)
            && (p.tcp ==>
                  var had := p.flowKey in flows;
                  var fed := FeedSpec(c, if had then flows[p.flowKey] else [], p.payload);
                  && r.1 == fed
                  && p.flowKey in r.0 && r.0[p.flowKey] == fed.buf
                  && forall k :: k != p.flowKey ==>
                       && (k in r.0 <==> k in flows && (had || |flows| < 32))
                       && (k in r.0 ==> r.0[k] == flows[k]))
  {
    hide FeedSpec;
  }

  /** What every packet of a capture yields. */
  ghost function Yields(c: Settings, flows: Buffers, packets: seq<CapPacket>): (r: seq<Fed>)
    ensures |r| == |packets|
    decreases |packets|
  {
    if packets == [] then []
    else
      var r := Handle(c, flows, packets[0]);
      [r.1] + Yields(c, r.0, packets[1..])
  }

  /** In every capture each UDP packet yields its payload as one frame, and without the UDP packets the others
      yield the same. */
  lemma {:induction false} DatagramsAreFrames(c: Settings, flows: Buffers, packets: seq<CapPacket>)
    ensures forall i :: 0 <= i < |packets| && !packets[i].tcp ==>
              Yields(c, flows, packets)[i].frames == [packets[i].payload] && !Yields(c, flows, packets)[i].hangs
    ensures Yields(c, flows, Segments(packets)) == OfSegments(packets, Yields(c, flows, packets))
    decreases |packets|
  {
    hide Handle;
    if packets != [] {
      var p, r := packets[0], Handle(c, flows, packets[0]);
      PacketOutcome(c, flows, p);
      DatagramsAreFrames(c, r.0, packets[1..]);
      var all := Yields(c, flows, packets);
      assert all[1..] == Yields(c, r.0, packets[1..]);
      forall i | 0 <= i < |packets| && !packets[i].tcp
        ensures all[i].frames == [packets[i].payload] && !all[i].hangs
      {
        assert i > 0 ==> all[i] == all[1..][i - 1] && packets[i] == packets[1..][i - 1];
      }
      var rest := Segments(packets[1..]);
      if p.tcp {
        assert ([p] + rest)[1..] == rest;
      } else {
        assert [] + rest == rest;
      }
    }
  }

  function Segments(packets: seq<CapPacket>): seq<CapPacket> {
    if packets == [] then [] else (if packets[0].tcp then [packets[0]] else []) + Segments(packets[1..])
  }

  ghost function OfSegments(packets: seq<CapPacket>, feds: seq<Fed>): seq<Fed>
    requires |packets| == |feds|
    decreases |packets|
  {
    if packets == [] then []
    else (if packets[0].tcp then [feds[0]] else []) + OfSegments(packets[1..], feds[1..])
  }

  // ---- Whole captures ----

  /** What the packets of flow k yield, one entry for each, when all flows are captured together. */
  ghost function Captured(c: Settings, flows: Buffers, packets: seq<CapPacket>, k: string): seq<Fed>
    decreases |packets|
  {
    if packets == [] then []
    else
      var p := packets[0];
      var r := Handle(c, flows, p);
      (if p.tcp && p.flowKey == k then [r.1] else []) + Captured(c, r.0, packets[1..], k)
  }

  /** What is kept of flow k. */
  function Held(flows: Buffers, k: string): seq<byte> {
    if k in flows then flows[k] else []
  }

  /** What flow k alone would yield. Of the other packets only the flow keys are known, and the only
      thing they can do is to drop what flow k has kept, when too many flows are open. */
  ghost function Alone(c: Settings, buf: seq<byte>, open: set<string>, packets: seq<CapPacket>, k: string): seq<Fed>
    decreases |packets|
  {
    if packets == [] then []
    else
      var p := packets[0];
      var drop := p.tcp && p.flowKey !in open && |open| >= 32;
      var open' := if !p.tcp then open else (if drop then {} else open) + {p.flowKey};
      var kept := if drop then [] else buf;
      if p.tcp && p.flowKey == k then
        var f := FeedSpec(c, kept, p.payload);
        [f] + Alone(c, f.buf, open', packets[1..], k)
      else Alone(c, kept, open', packets[1..], k)
  }

  /** The source does not return from some packet of the capture. */
  ghost predicate CaptureStuck(c: Settings, flows: Buffers, packets: seq<CapPacket>)
    decreases |packets|
  {
    packets != []
    && (Handle(c, flows, packets[0]).1.hangs || CaptureStuck(c, Handle(c, flows, packets[0]).0, packets[1..]))
  }

  ghost predicate SomeHangs(feds: seq<Fed>) {
    exists i :: 0 <= i < |feds| && feds[i].hangs
  }

  lemma {:induction false} SomeHangsJoin(a: seq<Fed>, b: seq<Fed>)
    ensures SomeHangs(a + b) <==> SomeHangs(a) || SomeHangs(b)
  {
    if i :| 0 <= i < |a| && a[i].hangs {
      assert (a + b)[i].hangs;
    }
    if i :| 0 <= i < |b| && b[i].hangs {
      assert (a + b)[|a| + i].hangs;
    }
  }

  /** Some packet of flow k hangs, when all flows are captured together. */
  ghost predicate FlowHangs(c: Settings, flows: Buffers, packets: seq<CapPacket>, k: string) {
    SomeHangs(Captured(c, flows, packets, k))
  }

  lemma {:induction false} CaptureStuckIff(c: Settings, flows: Buffers, packets: seq<CapPacket>)
    ensures CaptureStuck(c, flows, packets) <==> exists k :: FlowHangs(c, flows, packets, k)
    decreases |packets|
  {
    hide Handle, SomeHangs, FlowHangs;
    if packets == [] {
      forall k
        ensures !FlowHangs(c, flows, packets, k)
      {
        FlowHangsUnfolds(c, flows, packets, k);
      }
    } else {
      var p, r := packets[0], Handle(c, flows, packets[0]);
      CaptureStuckIff(c, r.0, packets[1..]);
      forall k
        ensures FlowHangs(c, flows, packets, k) <==>
                (p.tcp && p.flowKey == k && r.1.hangs) || FlowHangs(c, r.0, packets[1..], k)
      {
        FlowHangsUnfolds(c, flows, packets, k);
      }
      DatagramsEnd(c, flows, p);
      if r.1.hangs {
        assert FlowHangs(c, flows, packets, p.flowKey);
      }
    }
  }

  lemma {:induction false} FlowHangsUnfolds(c: Settings, flows: Buffers, packets: seq<CapPacket>, k: string)
    ensures FlowHangs(c, flows, packets, k) <==>
            && packets != []
            && var p, r := packets[0], Handle(c, flows, packets[0]);
               (p.tcp && p.flowKey == k && r.1.hangs) || FlowHangs(c, r.0, packets[1..], k)
  {
    hide Handle, SomeHangs;
    NoneHangs();
    if packets != [] {
      var p, r := packets[0], Handle(c, flows, packets[0]);
      SomeHangsJoin(if p.tcp && p.flowKey == k then [r.1] else [], Captured(c, r.0, packets[1..], k));
      OneHangs(r.1);
    }
  }

  lemma {:induction false} NoneHangs()
    ensures !SomeHangs([])
  {
  }

  lemma {:induction false} OneHangs(f: Fed)
    ensures SomeHangs([f]) <==> f.hangs
  {
    assert [f][0] == f;
  }

  lemma {:induction false} DatagramsEnd(c: Settings, flows: Buffers, p: CapPacket)
    ensures Handle(c, flows, p).1.hangs ==> p.tcp
  {
    hide FeedSpec;
  }

  /** The frames of one flow never depend on the bytes of another, as long as the source returns from the
      other flow's packets; it does not return from some packet exactly if some flow hangs on its own. */
  lemma {:induction false} FlowsDoNotInterfere(c: Settings, flows: Buffers, packets: seq<CapPacket>, k: string)
    ensures Captured(c, flows, packets, k) == Alone(c, Held(flows, k), flows.Keys, packets, k)
    ensures CaptureStuck(c, flows, packets) <==> exists j :: HangsAlone(c, flows, packets, j)
  {
    hide FlowHangs, CaptureStuck, HangsAlone;
    forall j
      ensures FlowHangs(c, flows, packets, j) == HangsAlone(c, flows, packets, j)
    {
      HangsAloneToo(c, flows, packets, j);
    }
    CaptureStuckIff(c, flows, packets);
    FlowAlone(c, flows, packets, k);
  }

  /** Flow k alone would hang on one of its packets. */
  ghost predicate HangsAlone(c: Settings, flows: Buffers, packets: seq<CapPacket>, k: string) {
    SomeHangs(Alone(c, Held(flows, k), flows.Keys, packets, k))
  }

  lemma {:induction false} HangsAloneToo(c: Settings, flows: Buffers, packets: seq<CapPacket>, k: string)
    ensures FlowHangs(c, flows, packets, k) == HangsAlone(c, flows, packets, k)
  {
    hide SomeHangs, Held;
    FlowAlone(c, flows, packets, k);
  }

  lemma {:induction false} FlowAlone(c: Settings, flows: Buffers, packets: seq<CapPacket>, k: string)
    ensures Captured(c, flows, packets, k) == Alone(c, Held(flows, k), flows.Keys, packets, k)
    decreases |packets|
  {
    hide FeedSpec, Handle, Held;
    if packets != [] {
      HandledForFlow(c, flows, packets[0], k);
      FlowAlone(c, Handle(c, flows, packets[0]).0, packets[1..], k);
    }
  }

  /** What one packet does to flow k, told by the flow keys and what flow k has kept. */
  lemma {:induction false} HandledForFlow(c: Settings, flows: Buffers, p: CapPacket, k: string)
    ensures var r := Handle(c, flows, p);
            var drop := p.tcp && p.flowKey !in flows.Keys && |flows.Keys| >= 32;
            var kept := if drop then [] else Held(flows, k);
            var f := FeedSpec(c, kept, p.payload);
            && r.0.Keys == (if !p.tcp then flows.Keys else (if drop then {} else flows.Keys) + {p.flowKey})
            && Held(r.0, k) == (if p.tcp && p.flowKey == k then f.buf else kept)
            && (p.tcp && p.flowKey == k ==> r.1 == f)
  {
    hide FeedSpec;
    assert |flows.Keys| == |flows|;
  }

  /** A fresh splitter fed one payload after the other. */
  ghost function FeedEach(c: Settings, buf: seq<byte>, payloads: seq<seq<byte>>): seq<Fed>
    decreases |payloads|
  {
    if payloads == [] then []
    else
      var f := FeedSpec(c, buf, payloads[0]);
      [f] + FeedEach(c, f.buf, payloads[1..])
  }

  function PayloadsOf(packets: seq<CapPacket>, k: string): seq<seq<byte>> {
    if packets == [] then []
    else (if packets[0].tcp && packets[0].flowKey == k then [packets[0].payload] else []) + PayloadsOf(packets[1..], k)
  }

  function KeysOf(packets: seq<CapPacket>): set<string> {
    set p | p in packets && p.tcp :: p.flowKey
  }

  /** While no more flows occur than the limit, every flow yields what a fresh splitter yields. The source
      returns from every packet with one configuration; with several headers, exactly unless a packet ends
      where its flow's payloads so far leave the beginning of a header. */
  lemma {:induction false} FewFlows(c: Settings, packets: seq<CapPacket>, k: string)
    requires |KeysOf(packets)| <= 32
    ensures Captured(c, map[], packets, k) == FeedEach(c, [], PayloadsOf(packets, k))
    ensures c.cfgs == [] ==> !CaptureStuck(c, map[], packets)
    ensures Regular(c) && Fits(c) ==>
              (CaptureStuck(c, map[], packets) <==> exists j :: FlowStuck(c, packets, j))
  {
    hide CaptureStuck, FlowHangs, FlowStuck, KeysOf, Fits, Regular;
    forall j
      ensures c.cfgs == [] ==> !FlowHangs(c, map[], packets, j)
      ensures Regular(c) && Fits(c) ==> FlowHangs(c, map[], packets, j) == FlowStuck(c, packets, j)
    {
      FewFlowsHang(c, packets, j);
    }
    CaptureStuckIff(c, map[], packets);
    FewFlowsAlone(c, packets, k);
  }

  lemma {:induction false} FewFlowsHang(c: Settings, packets: seq<CapPacket>, k: string)
    requires |KeysOf(packets)| <= 32
    ensures c.cfgs == [] ==> !FlowHangs(c, map[], packets, k)
    ensures Regular(c) && Fits(c) ==> FlowHangs(c, map[], packets, k) == FlowStuck(c, packets, k)
  {
    hide SomeHangs, KeysOf, PayloadsOf, FlowStuck, Fits, Regular;
    FewFlowsAlone(c, packets, k);
    FeedEachHangs(c, [], PayloadsOf(packets, k));
    if c.cfgs == [] {
      SingleRunEnds(c, [], PayloadsOf(packets, k));
    }
    if Regular(c) && Fits(c) {
      FlowStuckIff(c, packets, k);
    }
  }

  /** Some packet of flow k ends where the flow's payloads so far leave the beginning of a header. */
  ghost predicate FlowStuck(c: Settings, packets: seq<CapPacket>, k: string) {
    var payloads := PayloadsOf(packets, k);
    exists n :: 0 < n <= |payloads| && StuckAfter(c, Concat(payloads[..n]))
  }

  lemma {:induction false} FlowStuckIff(c: Settings, packets: seq<CapPacket>, k: string)
    requires Regular(c) && Fits(c)
    ensures FeedAll(c, [], PayloadsOf(packets, k)).hangs <==> FlowStuck(c, packets, k)
  {
    hide StuckAfter, Regular, Fits;
    SegmentationInvariance(c, PayloadsOf(packets, k), PayloadsOf(packets, k));
  }

  lemma {:induction false} FeedEachHangs(c: Settings, buf: seq<byte>, payloads: seq<seq<byte>>)
    ensures SomeHangs(FeedEach(c, buf, payloads)) <==> FeedAll(c, buf, payloads).hangs
    decreases |payloads|
  {
    hide FeedSpec, SomeHangs;
    NoneHangs();
    if payloads != [] {
      var f := FeedSpec(c, buf, payloads[0]);
      FeedEachHangs(c, f.buf, payloads[1..]);
      SomeHangsJoin([f], FeedEach(c, f.buf, payloads[1..]));
      OneHangs(f);
    }
  }

  lemma {:induction false} SingleRunEnds(c: Settings, buf: seq<byte>, payloads: seq<seq<byte>>)
    requires c.cfgs == []
    ensures !FeedAll(c, buf, payloads).hangs
    decreases |payloads|
  {
    hide Drain, Step, Cap;
    if payloads != [] {
      SingleNeverHangs(c, Drain(c, buf + payloads[0]).rest);
      SingleRunEnds(c, FeedSpec(c, buf, payloads[0]).buf, payloads[1..]);
    }
  }

  lemma {:induction false} FewFlowsAlone(c: Settings, packets: seq<CapPacket>, k: string)
    requires |KeysOf(packets)| <= 32
    ensures Captured(c, map[], packets, k) == FeedEach(c, [], PayloadsOf(packets, k))
  {
    hide Captured, Alone, FeedEach, PayloadsOf, KeysOf;
    var none: Buffers := map[];
    assert none.Keys == {} && Held(none, k) == [];
    FlowAlone(c, none, packets, k);
    assert {} + KeysOf(packets) == KeysOf(packets);
    NothingDropped(c, [], {}, packets, k);
  }

  lemma {:induction false} NothingDropped(c: Settings, buf: seq<byte>, open: set<string>, packets: seq<CapPacket>,
                                          k: string)
    requires |open + KeysOf(packets)| <= 32
    ensures Alone(c, buf, open, packets, k) == FeedEach(c, buf, PayloadsOf(packets, k))
    decreases |packets|
  {
    hide FeedSpec, KeysOf, PayloadsOf;
    if packets == [] {
      assert PayloadsOf(packets, k) == [] by { NoPayloads(k); }
    } else {
      var p := packets[0];
      var open' := if p.tcp then open + {p.flowKey} else open;
      KeyAdmitted(open, packets);
      var kept := if p.tcp && p.flowKey == k then FeedSpec(c, buf, p.payload).buf else buf;
      NothingDropped(c, kept, open', packets[1..], k);
      PayloadsUnfold(packets, k);
      var rest := PayloadsOf(packets[1..], k);
      FeedEachOne(c, buf, p.payload, rest);
      assert [] + rest == rest;
    }
  }

  lemma {:induction false} NoPayloads(k: string)
    ensures PayloadsOf([], k) == []
  {
  }

  lemma {:induction false} KeysUnfold(packets: seq<CapPacket>)
    requires packets != []
    ensures KeysOf(packets) == KeysOf(packets[1..]) + if packets[0].tcp then {packets[0].flowKey} else {}
  {
    assert packets == [packets[0]] + packets[1..];
  }

  /** As long as all keys together stay under the limit, the next one is admitted without a drop. */
  lemma {:induction false} KeyAdmitted(open: set<string>, packets: seq<CapPacket>)
    requires packets != [] && |open + KeysOf(packets)| <= 32
    ensures var p := packets[0];
            var open' := if p.tcp then open + {p.flowKey} else open;
            && open' + KeysOf(packets[1..]) == open + KeysOf(packets)
            && (p.tcp && p.flowKey !in open ==> |open| < 32)
  {
    hide KeysOf;
    var p, all := packets[0], open + KeysOf(packets);
    KeysUnfold(packets);
    if p.tcp && p.flowKey !in open {
      Smaller(open + {p.flowKey}, all);
    }
  }

  lemma {:induction false} PayloadsUnfold(packets: seq<CapPacket>, k: string)
    requires packets != []
    ensures var p := packets[0];
            var mine := if p.tcp && p.flowKey == k then [p.payload] else [];
            PayloadsOf(packets, k) == mine + PayloadsOf(packets[1..], k)
  {
  }

  lemma {:induction false} FeedEachOne(c: Settings, buf: seq<byte>, first: seq<byte>, rest: seq<seq<byte>>)
    ensures var f := FeedSpec(c, buf, first);
            FeedEach(c, buf, [first] + rest) == [f] + FeedEach(c, f.buf, rest)
  {
    hide FeedSpec;
    assert ([first] + rest)[1..] == rest;
  }

  lemma {:induction false} Smaller(a: set<string>, b: set<string>)
    requires a <= b
    ensures |a| <= |b|
  {
    if a != {} {
      var x :| x in a;
      Smaller(a - {x}, b - {x});
    }
  }
}
