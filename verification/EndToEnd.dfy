/** From a sender over an arbitrarily cut byte stream to the tag slots. */
module EndToEnd {
  import opened Bytes
  import opened Framing
  import opened Values
  import opened Fields
  import opened Splitting
  import opened Conservation
  import opened FrameEncoder
  import opened RoundTrip
  import opened FieldCodec
  import opened SimulatedDevice
  import opened SlotCache

  // ---- Any sender ----

  /** How the data source configures its splitter. */
  function LineOf(cfg: SourceConfig): Settings {
    if |cfg.framings| > 1 then Settings(cfg.framings[0], cfg.framings) else Settings(cfg.framing, [])
  }

  /** A single protocol of either kind, or a group of protocols with headers of their own; every field has
      a slot of its own. */
  ghost predicate Arranged(cfg: SourceConfig) {
    && cfg.Sound() && |cfg.framings| != 1
    && (cfg.framings != [] ==> cfg.framing == cfg.framings[0] && TellApart(cfg.framings))
    && forall i, j :: 0 <= i < j < |cfg.fields| ==> cfg.fields[i].address != cfg.fields[j].address
  }

  /** And the splitter can handle them. */
  ghost predicate Wired(cfg: SourceConfig) {
    && Arranged(cfg) && Fits(LineOf(cfg)) && (cfg.framings != [] ==> ProperGroup(cfg.framings))
  }

  /** What a letter says about a field. */
  function LetterReading(cfg: SourceConfig, l: Letter, f: TagField): Option<TagValue> {
    if Drives(cfg, l.k, l.m, f) then FieldValue(cfg.fl, f, l.m.payload) else None
  }

  /** What the last letter that says anything about the field says. */
  function LastReading(cfg: SourceConfig, letters: seq<Letter>, f: TagField): Option<TagValue>
    decreases |letters|
  {
    if letters == [] then None
    else
      var r := LetterReading(cfg, letters[|letters| - 1], f);
      if r.Some? then r else LastReading(cfg, letters[..|letters| - 1], f)
  }

  /** The slots of a data source that has been connected and then pumped everything split from the chunks. */
  ghost function SlotsAfter(cfg: SourceConfig, chunks: seq<seq<byte>>): Slots
    requires cfg.Sound()
  {
    Pump(cfg, Connected(cfg), FeedAll(LineOf(cfg), [], chunks).frames).slots
  }

  /** The data source finds the letter in the frame. */
  ghost predicate Understood(cfg: SourceConfig, l: Letter, frame: Frame)
    requires cfg.Sound()
  {
    Structure(cfg, frame) == Some((l.k, l.m))
  }

  lemma {:induction false} UnderstoodIf(cfg: SourceConfig, l: Letter, frame: Frame)
    requires Arranged(cfg) && l.k < |cfg.InUse()| && Decode(cfg.InUse()[l.k], frame) == Some(l.m)
    ensures Understood(cfg, l, frame)
  {
    hide Decode, NonContaining;
    if cfg.framings != [] {
      DecodedByItsHeader(cfg.framings, frame, l.k);
    }
  }

  lemma {:induction false} DeliveredIsUnderstood(cfg: SourceConfig, l: Letter, frame: Frame)
    requires Wired(cfg) && Delivers(LineOf(cfg), l, frame)
    ensures Understood(cfg, l, frame)
  {
    hide Decode, LetterFrame, Carries, TellApart, Fits, Understood;
    assert cfg.InUse() == Active(LineOf(cfg));
    UnderstoodIf(cfg, l, frame);
  }

  /** With one field per address, what the frame says for the address is what it says for the field. */
  lemma {:induction false} OnlyField(cfg: SourceConfig, frame: Frame, i: nat, n: nat)
    requires cfg.Sound() && i < |cfg.fields| && n <= |cfg.fields|
    requires forall j, k :: 0 <= j < k < |cfg.fields| ==> cfg.fields[j].address != cfg.fields[k].address
    ensures LastIn(cfg, frame, cfg.fields[i].address, n) == if i < n then Reading(cfg, frame, cfg.fields[i]) else None
    decreases n
  {
    hide Reading;
    if n > 0 {
      OnlyField(cfg, frame, i, n - 1);
    }
  }

  lemma {:induction false} LatestIsLastReading(cfg: SourceConfig, letters: seq<Letter>, frames: seq<Frame>, i: nat)
    requires Arranged(cfg) && i < |cfg.fields| && |frames| == |letters|
    requires forall j :: 0 <= j < |letters| ==> Understood(cfg, letters[j], frames[j])
    ensures Latest(cfg, frames, cfg.fields[i].address) == LastReading(cfg, letters, cfg.fields[i])
    decreases |letters|
  {
    hide FieldValue, Structure, LastIn, TellApart;
    if letters != [] {
      var n := |letters| - 1;
      assert Reading(cfg, frames[n], cfg.fields[i]) == LetterReading(cfg, letters[n], cfg.fields[i]);
      OnlyField(cfg, frames[n], i, |cfg.fields|);
      LatestIsLastReading(cfg, letters[..n], frames[..n], i);
    }
  }

  lemma {:induction false} PumpedSlots(cfg: SourceConfig, frames: seq<Frame>, a: int32)
    requires cfg.Sound()
    ensures Lookup(Pump(cfg, Connected(cfg), frames).slots, a) == Latest(cfg, frames, a)
  {
    hide Pump, Latest;
    FreshMeans(cfg);
    PumpKeeps(cfg, Connected(cfg), frames, [], [], [], []);
    assert [] + frames == frames;
  }

  lemma {:induction false} WiredLine(cfg: SourceConfig)
    requires Wired(cfg)
    ensures var c := LineOf(cfg);
            && Arranged(cfg) && Fits(c) && (c.cfgs == [] || ProperGroup(c.cfgs)) && c.cfgs == cfg.framings
  {
  }

  /** Whatever list of messages is sent, and however the line cuts it: once all has been split and pumped,
      the slot of each field shows what the last message with a value for the field says. The source's
      splitter gets stuck on the way exactly if a group is sent and some chunk ends inside a header. */
  lemma {:induction false} SlotsShowLastReading(cfg: SourceConfig, letters: seq<Letter>, chunks: seq<seq<byte>>, i: nat)
    requires Wired(cfg) && i < |cfg.fields|
    requires forall l :: l in letters ==> Sendable(LineOf(cfg), l)
    requires Concat(chunks) == Stream(LetterBursts(LineOf(cfg), letters))
    ensures Lookup(SlotsAfter(cfg, chunks), cfg.fields[i].address) == LastReading(cfg, letters, cfg.fields[i])
    ensures FeedAll(LineOf(cfg), [], chunks).hangs <==>
            cfg.framings != []
            && exists k :: 0 < k <= |chunks| && CutInHeader(LineOf(cfg), letters, Concat(chunks[..k]))
  {
    hide Wired, LastReading, Latest, Pump, Connected, Sendable, Delivers, FeedAll, Stream, Fits, ProperGroup,
         CutInHeader, Understood, TellApart;
    WiredLine(cfg);
    StreamRoundTrip(LineOf(cfg), letters, chunks);
    var frames := FeedAll(LineOf(cfg), [], chunks).frames;
    forall j | 0 <= j < |letters|
      ensures Understood(cfg, letters[j], frames[j])
    {
      DeliveredIsUnderstood(cfg, letters[j], frames[j]);
    }
    LatestIsLastReading(cfg, letters, frames, i);
    PumpedSlots(cfg, frames, cfg.fields[i].address);
  }

  // ---- The simulated device ----

  /** The fields of configuration k, in order. */
  function FieldsOf(fields: seq<TagField>, k: nat): (r: seq<TagField>)
    ensures forall f :: f in r <==> f in fields && f.framingIndex == k
  {
    if fields == [] then []
    else
      assert fields == [fields[0]] + fields[1..];
      (if fields[0].framingIndex == k then [fields[0]] else []) + FieldsOf(fields[1..], k)
  }

  /** One generator for every configuration with fields, as the device has. */
  ghost predicate Simulates(cfg: SourceConfig) {
    && Arranged(cfg) && Faithful(cfg.fl)
    && (forall f :: f in cfg.fields ==> Simulable(f) && 0 <= f.framingIndex < |cfg.InUse()|)
    && (forall k: nat :: k < |cfg.InUse()| ==> GeneratorOk(cfg, k))
    && (cfg.framing.mode == Tlv ==>
          forall i, j :: 0 <= i < j < |cfg.fields| ==> cfg.fields[i].tagId != cfg.fields[j].tagId)
  }

  ghost predicate GeneratorOk(cfg: SourceConfig, k: nat)
    requires k < |cfg.InUse()|
  {
    && Encodable(cfg.InUse()[k], FieldsOf(cfg.fields, k))
    && (cfg.InUse()[k].mode == FrameMode.HeaderLength ==> NonOverlapping(FieldsOf(cfg.fields, k)))
  }

  /** The frames generator k sends in cycle c; without fields there is no generator. */
  ghost function Generated(cfg: SourceConfig, c: nat, k: nat): seq<Frame>
    requires Simulates(cfg) && k < |cfg.InUse()|
  {
    assert GeneratorOk(cfg, k);
    var fields := FieldsOf(cfg.fields, k);
    if fields == [] then [] else CycleFrames(cfg.fl, cfg.InUse()[k], fields, c)
  }

  /** The messages in these frames. */
  ghost function Messages(cfg: SourceConfig, c: nat, k: nat): seq<Letter>
    requires Simulates(cfg) && k < |cfg.InUse()|
  {
    assert GeneratorOk(cfg, k);
    var fields := FieldsOf(cfg.fields, k);
    if fields == [] then []
    else if cfg.InUse()[k].mode == Tlv then
      seq(|fields|, i requires 0 <= i < |fields| =>
        Letter(k, Message(fields[i].tagId, Zeros(fields[i].offset) + FieldBytes(cfg.fl, fields[i], c))))
    else [Letter(k, Message(-1, Layout(fields, CycleVals(cfg.fl, fields, c), |fields|)))]
  }

  /** The frames the generators from k on send in cycle c. */
  ghost function DeviceFrames(cfg: SourceConfig, c: nat, k: nat): seq<Frame>
    requires Simulates(cfg) && k <= |cfg.InUse()|
    decreases |cfg.InUse()| - k
  {
    if k == |cfg.InUse()| then [] else Generated(cfg, c, k) + DeviceFrames(cfg, c, k + 1)
  }

  ghost function DeviceLetters(cfg: SourceConfig, c: nat, k: nat): seq<Letter>
    requires Simulates(cfg) && k <= |cfg.InUse()|
    decreases |cfg.InUse()| - k
  {
    if k == |cfg.InUse()| then [] else Messages(cfg, c, k) + DeviceLetters(cfg, c, k + 1)
  }

  /** The messages of whole cycles. */
  ghost function RunLetters(cfg: SourceConfig, cycles: seq<nat>): seq<Letter>
    requires Simulates(cfg)
    decreases |cycles|
  {
    if cycles == [] then []
    else RunLetters(cfg, cycles[..|cycles| - 1]) + DeviceLetters(cfg, cycles[|cycles| - 1], 0)
  }

  ghost function RunFrames(cfg: SourceConfig, cycles: seq<nat>): seq<Frame>
    requires Simulates(cfg)
    decreases |cycles|
  {
    if cycles == [] then []
    else RunFrames(cfg, cycles[..|cycles| - 1]) + DeviceFrames(cfg, cycles[|cycles| - 1], 0)
  }

  // ---- The frames of the device carry its messages ----

  /** The frame is the encoded message of the letter. */
  ghost predicate Sends(frs: seq<FramingConfig>, l: Letter, f: Frame) {
    l.k < |frs| && Usable(frs[l.k]) && Encodes(frs[l.k], l.m) && f == Encode(frs[l.k], l.m)
  }

  ghost predicate Carry(frs: seq<FramingConfig>, letters: seq<Letter>, frames: seq<Frame>) {
    |letters| == |frames| && forall i :: 0 <= i < |letters| ==> Sends(frs, letters[i], frames[i])
  }

  /** Everything the device means to send in these cycles fits its frames. */
  ghost predicate CyclesEncode(cfg: SourceConfig, cycles: seq<nat>) {
    Simulates(cfg) && forall l :: l in RunLetters(cfg, cycles) ==> Fitting(cfg.InUse(), l)
  }

  predicate Fitting(frs: seq<FramingConfig>, l: Letter) {
    l.k < |frs| && Usable(frs[l.k]) && Encodes(frs[l.k], l.m)
  }

  lemma {:induction false} CarryJoin(frs: seq<FramingConfig>, a: seq<Letter>, f: seq<Frame>, b: seq<Letter>,
                                     g: seq<Frame>)
    requires Carry(frs, a, f) && Carry(frs, b, g)
    ensures Carry(frs, a + b, f + g)
  {
    hide Sends;
  }

  lemma {:induction false} GeneratorCarries(cfg: SourceConfig, c: nat, k: nat)
    requires Simulates(cfg) && k < |cfg.InUse()|
    requires forall l :: l in Messages(cfg, c, k) ==> Fitting(cfg.InUse(), l)
    ensures Carry(cfg.InUse(), Messages(cfg, c, k), Generated(cfg, c, k))
  {
    hide FieldBytes, Layout, TlvFrame, HeaderFrame, Simulable, Arranged, TlvFits, HeaderFits, FieldsOf;
    assert GeneratorOk(cfg, k);
    var letters := Messages(cfg, c, k);
    forall i | 0 <= i < |letters|
      ensures Fitting(cfg.InUse(), letters[i])
    {
      assert letters[i] in letters;
    }
  }

  lemma {:induction false} DeviceCarries(cfg: SourceConfig, c: nat, k: nat)
    requires Simulates(cfg) && k <= |cfg.InUse()|
    requires forall l :: l in DeviceLetters(cfg, c, k) ==> Fitting(cfg.InUse(), l)
    ensures Carry(cfg.InUse(), DeviceLetters(cfg, c, k), DeviceFrames(cfg, c, k))
    decreases |cfg.InUse()| - k
  {
    hide Fitting, Sends, Messages, Generated, Simulates;
    if k < |cfg.InUse()| {
      DeviceCarries(cfg, c, k + 1);
      GeneratorCarries(cfg, c, k);
      CarryJoin(cfg.InUse(), Messages(cfg, c, k), Generated(cfg, c, k), DeviceLetters(cfg, c, k + 1),
                DeviceFrames(cfg, c, k + 1));
    }
  }

  lemma {:induction false} RunCarries(cfg: SourceConfig, cycles: seq<nat>)
    requires CyclesEncode(cfg, cycles)
    ensures Carry(cfg.InUse(), RunLetters(cfg, cycles), RunFrames(cfg, cycles))
    decreases |cycles|
  {
    hide Fitting, Sends, DeviceLetters, DeviceFrames, Simulates;
    if cycles != [] {
      var before, last := cycles[..|cycles| - 1], cycles[|cycles| - 1];
      RunCarries(cfg, before);
      DeviceCarries(cfg, last, 0);
      CarryJoin(cfg.InUse(), RunLetters(cfg, before), RunFrames(cfg, before), DeviceLetters(cfg, last, 0),
                DeviceFrames(cfg, last, 0));
    }
  }

  // ---- Over a line ----

  ghost predicate CyclesFit(cfg: SourceConfig, cycles: seq<nat>) {
    Simulates(cfg) && Wired(cfg) && forall l :: l in RunLetters(cfg, cycles) ==> Sendable(LineOf(cfg), l)
  }

  lemma {:induction false} FitEncodes(cfg: SourceConfig, cycles: seq<nat>)
    requires CyclesFit(cfg, cycles)
    ensures Simulates(cfg) && Wired(cfg) && CyclesEncode(cfg, cycles) && cfg.InUse() == Active(LineOf(cfg))
  {
    hide RunLetters, Encodes, Simulates, TellApart, Fits, ProperGroup;
  }

  lemma {:induction false} GaplessStream(bursts: seq<Burst>, frames: seq<Frame>)
    requires |bursts| == |frames| && forall i :: 0 <= i < |frames| ==> bursts[i] == Burst([], frames[i])
    ensures Stream(bursts) == Concat(frames)
  {
    if bursts != [] {
      GaplessStream(bursts[1..], frames[1..]);
    }
  }

  lemma {:induction false} CarriedStream(c: Settings, letters: seq<Letter>, frames: seq<Frame>)
    requires Carry(Active(c), letters, frames) && forall l :: l in letters ==> Sendable(c, l)
    ensures Stream(LetterBursts(c, letters)) == Concat(frames)
  {
    hide Sendable, Encode, Encodes, Stream, Concat;
    GaplessStream(LetterBursts(c, letters), frames);
  }

  /** However the line cuts the cycles, they are split back into the frames that were sent. The source's
      splitter gets stuck on the way exactly if a group is sent and some chunk ends inside a header. */
  lemma {:induction false} CyclesAreSplit(cfg: SourceConfig, cycles: seq<nat>, chunks: seq<seq<byte>>)
    requires CyclesFit(cfg, cycles) && Concat(chunks) == Concat(RunFrames(cfg, cycles))
    ensures FeedAll(LineOf(cfg), [], chunks).frames == RunFrames(cfg, cycles)
    ensures FeedAll(LineOf(cfg), [], chunks).hangs <==> CutsSomeHeader(cfg, cycles, chunks)
  {
    hide *;
    FitEncodes(cfg, cycles);
    RunCarries(cfg, cycles);
    WiredLine(cfg);
    SentOverLine(cfg, cycles);
    CarriedStream(LineOf(cfg), RunLetters(cfg, cycles), RunFrames(cfg, cycles));
    StreamRoundTrip(LineOf(cfg), RunLetters(cfg, cycles), chunks);
    CutsSomeHeaderIs(cfg, cycles, chunks);
    SameFrames(LineOf(cfg), RunLetters(cfg, cycles), RunFrames(cfg, cycles), FeedAll(LineOf(cfg), [], chunks).frames);
  }

  /** A group is sent, and some chunk ends inside a header. */
  ghost predicate CutsSomeHeader(cfg: SourceConfig, cycles: seq<nat>, chunks: seq<seq<byte>>)
    requires CyclesFit(cfg, cycles)
  {
    && cfg.framings != []
    && exists k :: 0 < k <= |chunks| && CutInHeader(LineOf(cfg), RunLetters(cfg, cycles), Concat(chunks[..k]))
  }

  lemma {:induction false} CutsSomeHeaderIs(cfg: SourceConfig, cycles: seq<nat>, chunks: seq<seq<byte>>)
    requires CyclesFit(cfg, cycles) && forall l :: l in RunLetters(cfg, cycles) ==> Sendable(LineOf(cfg), l)
    ensures CutsSomeHeader(cfg, cycles, chunks) <==>
            && LineOf(cfg).cfgs != []
            && exists k :: 0 < k <= |chunks| && CutInHeader(LineOf(cfg), RunLetters(cfg, cycles), Concat(chunks[..k]))
  {
    hide RunLetters, CutInHeader, Simulates, Fits, ProperGroup;
  }

  lemma {:induction false} SentOverLine(cfg: SourceConfig, cycles: seq<nat>)
    requires CyclesFit(cfg, cycles)
    ensures forall l :: l in RunLetters(cfg, cycles) ==> Sendable(LineOf(cfg), l)
  {
    hide RunLetters, Sendable, Simulates;
  }

  lemma {:induction false} SameFrames(c: Settings, letters: seq<Letter>, frames: seq<Frame>, fed: seq<Frame>)
    requires Carry(Active(c), letters, frames) && |fed| == |letters|
    requires forall i :: 0 <= i < |letters| ==> Delivers(c, letters[i], fed[i])
    ensures fed == frames
  {
    hide Encode, Encodes, Decode, ProperGroup;
  }

  // ---- The last cycle wins ----

  /** Letter m gives the field this value, and no later letter says anything about it. */
  ghost predicate SaysLast(cfg: SourceConfig, letters: seq<Letter>, f: TagField, m: nat, v: TagValue) {
    && m < |letters| && LetterReading(cfg, letters[m], f) == Some(v)
    && forall j :: m < j < |letters| ==> LetterReading(cfg, letters[j], f) == None
  }

  lemma {:induction false} SaysLastIsLastReading(cfg: SourceConfig, letters: seq<Letter>, f: TagField, m: nat,
                                                 v: TagValue)
    requires SaysLast(cfg, letters, f, m, v)
    ensures LastReading(cfg, letters, f) == Some(v)
    decreases |letters|
  {
    hide LetterReading;
    if m < |letters| - 1 {
      SaysLastIsLastReading(cfg, letters[..|letters| - 1], f, m, v);
    }
  }

  lemma {:induction false} GeneratorSays(cfg: SourceConfig, c: nat, f: TagField) returns (m: nat)
    requires Simulates(cfg) && f in cfg.fields
    ensures Simulable(f) && 0 <= f.framingIndex < |cfg.InUse()|
    ensures SaysLast(cfg, Messages(cfg, c, f.framingIndex), f, m, Intended(f, c))
  {
    hide FieldValue, Intended, Layout, FieldBytes, Faithful, Arranged;
    var k := f.framingIndex;
    var fields := FieldsOf(cfg.fields, k);
    assert GeneratorOk(cfg, k) && f in fields;
    var i :| 0 <= i < |fields| && fields[i] == f;
    ModesAgree(cfg, k);
    if cfg.framing.mode == Tlv {
      ValueConsistent(cfg.fl, f, c);
      forall j | 0 <= j < |fields| && fields[j].tagId == f.tagId
        ensures j == i
      {
        TagsApart(cfg, i, j);
      }
      return i;
    } else {
      PayloadConsistent(cfg.fl, fields, c, i);
      return 0;
    }
  }

  lemma {:induction false} ModesAgree(cfg: SourceConfig, k: nat)
    requires Arranged(cfg) && k < |cfg.InUse()|
    ensures cfg.InUse()[k].mode == cfg.framing.mode
    ensures cfg.framing.mode == Tlv ==> cfg.framings == []
  {
    if cfg.framings != [] {
      assert cfg.framings[0] in cfg.framings && cfg.framings[k] in cfg.framings;
    }
  }

  lemma {:induction false} AllFields(fields: seq<TagField>)
    requires forall f :: f in fields ==> f.framingIndex == 0
    ensures FieldsOf(fields, 0) == fields
  {
    if fields != [] {
      assert fields[0] in fields;
      AllFields(fields[1..]);
    }
  }

  lemma {:induction false} TagsApart(cfg: SourceConfig, i: nat, j: nat)
    requires Simulates(cfg) && cfg.framing.mode == Tlv
    requires i < |FieldsOf(cfg.fields, 0)| && j < |FieldsOf(cfg.fields, 0)|
    requires FieldsOf(cfg.fields, 0)[i].tagId == FieldsOf(cfg.fields, 0)[j].tagId
    ensures i == j
  {
    hide Simulable, Faithful, GeneratorOk;
    ModesAgree(cfg, 0);
    AllFields(cfg.fields);
  }

  /** Generators of other configurations say nothing about the field. */
  lemma {:induction false} OtherSilent(cfg: SourceConfig, c: nat, k: nat, f: TagField)
    requires Simulates(cfg) && f in cfg.fields && f.framingIndex != k && k < |cfg.InUse()|
    ensures forall l :: l in Messages(cfg, c, k) ==> LetterReading(cfg, l, f) == None
  {
    hide FieldValue, Layout, FieldBytes, Encodable, Simulable, TellApart, NonOverlapping, FieldsOf;
    assert GeneratorOk(cfg, k);
    assert |cfg.framings| > 1;
  }

  lemma {:induction false} OthersSilent(cfg: SourceConfig, c: nat, k: nat, f: TagField)
    requires Simulates(cfg) && f in cfg.fields && f.framingIndex < k <= |cfg.InUse()|
    ensures forall l :: l in DeviceLetters(cfg, c, k) ==> LetterReading(cfg, l, f) == None
    decreases |cfg.InUse()| - k
  {
    hide LetterReading, Messages, Simulates;
    if k < |cfg.InUse()| {
      OtherSilent(cfg, c, k, f);
      OthersSilent(cfg, c, k + 1, f);
    }
  }

  lemma {:induction false} DeviceSays(cfg: SourceConfig, c: nat, k: nat, f: TagField) returns (m: nat)
    requires Simulates(cfg) && f in cfg.fields && k <= f.framingIndex < |cfg.InUse()| && Simulable(f)
    ensures SaysLast(cfg, DeviceLetters(cfg, c, k), f, m, Intended(f, c))
    decreases |cfg.InUse()| - k
  {
    hide LetterReading, Messages, Intended, Simulable, Simulates;
    var own, rest := Messages(cfg, c, k), DeviceLetters(cfg, c, k + 1);
    if k < f.framingIndex {
      m := DeviceSays(cfg, c, k + 1, f);
      SaysLastBehind(cfg, own, rest, f, m, Intended(f, c));
      m := |own| + m;
    } else {
      m := GeneratorSays(cfg, c, f);
      OthersSilent(cfg, c, k + 1, f);
    }
  }

  /** Whatever way the bytes of any number of cycles are cut on the line, after they have been split and
      pumped every slot shows the value its field was meant to show in the last cycle: for TLV, for one
      header, and for a group of protocols with a generator each. The source's splitter gets stuck on the
      way exactly if a group is sent and some chunk ends inside a header. */
  lemma {:induction false} SlotsShowLastCycle(cfg: SourceConfig, cycles: seq<nat>, last: nat, chunks: seq<seq<byte>>,
                                              i: nat)
    requires CyclesFit(cfg, cycles + [last]) && cfg.Sound() && i < |cfg.fields|
    requires Concat(chunks) == Concat(RunFrames(cfg, cycles + [last]))
    ensures Simulable(cfg.fields[i])
    ensures Lookup(SlotsAfter(cfg, chunks), cfg.fields[i].address) == Some(Intended(cfg.fields[i], last))
    ensures FeedAll(LineOf(cfg), [], chunks).hangs <==> CutsSomeHeader(cfg, cycles + [last], chunks)
  {
    hide *;
    var all, f := cycles + [last], cfg.fields[i];
    FitEncodes(cfg, all);
    RunCarries(cfg, all);
    SentOverLine(cfg, all);
    CarriedStream(LineOf(cfg), RunLetters(cfg, all), RunFrames(cfg, all));
    SlotsShowLastReading(cfg, RunLetters(cfg, all), chunks, i);
    CyclesAreSplit(cfg, all, chunks);
    LastCycleSays(cfg, cycles, last, f);
  }

  /** The device's own path to the data source, with no line and no splitter between them: every slot shows
      the value its field was meant to show in the last cycle, wherever the length field stands. */
  lemma {:induction false} DeviceShowsLastCycle(cfg: SourceConfig, cycles: seq<nat>, last: nat, i: nat)
    requires CyclesEncode(cfg, cycles + [last]) && cfg.Sound() && i < |cfg.fields|
    ensures Simulable(cfg.fields[i])
    ensures Lookup(Pump(cfg, Connected(cfg), RunFrames(cfg, cycles + [last])).slots, cfg.fields[i].address)
         == Some(Intended(cfg.fields[i], last))
  {
    hide Pump, Connected, Intended, Simulable, RunLetters, RunFrames, Sends, LastReading, Latest, Understood, TellApart,
         Faithful, GeneratorOk, Fitting;
    var all := cycles + [last];
    var letters, frames := RunLetters(cfg, all), RunFrames(cfg, all);
    RunCarries(cfg, all);
    forall j | 0 <= j < |letters|
      ensures Understood(cfg, letters[j], frames[j])
    {
      SentIsUnderstood(cfg, letters[j], frames[j]);
    }
    LatestIsLastReading(cfg, letters, frames, i);
    PumpedSlots(cfg, frames, cfg.fields[i].address);
    LastCycleSays(cfg, cycles, last, cfg.fields[i]);
  }

  lemma {:induction false} SentIsUnderstood(cfg: SourceConfig, l: Letter, frame: Frame)
    requires Arranged(cfg) && Sends(cfg.InUse(), l, frame)
    ensures Understood(cfg, l, frame)
  {
    hide Encode, Encodes, Decode, Arranged, Understood;
    EncodedDecodes(cfg.InUse()[l.k], l.m);
    UnderstoodIf(cfg, l, frame);
  }

  lemma {:induction false} SaysLastBehind(cfg: SourceConfig, before: seq<Letter>, own: seq<Letter>, f: TagField, m: nat,
                                          v: TagValue)
    requires SaysLast(cfg, own, f, m, v)
    ensures SaysLast(cfg, before + own, f, |before| + m, v)
  {
    hide LetterReading;
    assert forall j :: 0 <= j < |own| ==> (before + own)[|before| + j] == own[j];
  }

  lemma {:induction false} LastCycleSays(cfg: SourceConfig, cycles: seq<nat>, last: nat, f: TagField)
    requires Simulates(cfg) && f in cfg.fields
    ensures Simulable(f) && LastReading(cfg, RunLetters(cfg, cycles + [last]), f) == Some(Intended(f, last))
  {
    hide DeviceLetters, LetterReading, LastReading, Intended, Simulable, Arranged, GeneratorOk, Faithful, SaysLast;
    var all := cycles + [last];
    assert all[..|all| - 1] == cycles;
    var before, own := RunLetters(cfg, cycles), DeviceLetters(cfg, last, 0);
    var m := DeviceSays(cfg, last, 0, f);
    SaysLastBehind(cfg, before, own, f, m, Intended(f, last));
    SaysLastIsLastReading(cfg, before + own, f, |before| + m, Intended(f, last));
  }
}
