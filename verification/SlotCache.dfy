/** What a stream of frames means for the tag slots, the counters and the two queues of a data source. */
module SlotCache {
  import opened Bytes
  import opened Framing
  import opened Values
  import opened Fields
  import opened FrameEncoder
  import opened RoundTrip
  import opened FieldCodec

  const LOG_CAP: nat := 200

  const FORWARD_CAP: nat := 100000

  /** framings holds the members' configurations of a protocol group, and is empty for one protocol. */
  datatype SourceConfig = SourceConfig(framing: FramingConfig, framings: seq<FramingConfig>, fields: seq<TagField>,
                                       fl: Floats)
  {
    function InUse(): (frs: seq<FramingConfig>)
      ensures frs != []
    {
      if framings == [] then [framing] else framings
    }

    predicate Sound() {
      forall fr :: fr in InUse() ==> fr.maxFrameLen >= 0
    }
  }

  // ---- What one frame says about one field ----

  /** The configuration index and message of a frame, if some configuration decodes it. */
  function Structure(cfg: SourceConfig, frame: Frame): (r: Option<(nat, Message)>)
    requires cfg.Sound()
    ensures r.Some? ==> r.value.0 < |cfg.InUse()|
  {
    var k := FirstDecoding(cfg.InUse(), frame, 0);
    if k == |cfg.InUse()| then None else Some((k, Decode(cfg.InUse()[k], frame).value))
  }

  /** A TLV frame drives the fields with its tag, a group member's frame the fields of that member. */
  predicate Drives(cfg: SourceConfig, k: nat, m: Message, f: TagField) {
    && (cfg.framing.mode == Tlv ==> f.tagId == m.tagId)
    && (|cfg.framings| > 1 ==> f.framingIndex == k)
  }

  function Reading(cfg: SourceConfig, frame: Frame, f: TagField): Option<TagValue>
    requires cfg.Sound()
  {
    var s := Structure(cfg, frame);
    if s.Some? && Drives(cfg, s.value.0, s.value.1, f) then FieldValue(cfg.fl, f, s.value.1.payload) else None
  }

  /** Some field can be read from the frame. */
  predicate Matched(cfg: SourceConfig, frame: Frame)
    requires cfg.Sound()
  {
    exists i :: 0 <= i < |cfg.fields| && Reading(cfg, frame, cfg.fields[i]).Some?
  }

  // ---- What a data source keeps ----

  type Slots = map<int32, TagValue>

  datatype View = View(slots: Slots, matched: nat, byIndex: seq<nat>, log: seq<Frame>, forward: seq<Frame>)

  /** The slots after the fields from index i on have been read: later fields overwrite earlier ones. */
  function Store(cfg: SourceConfig, slots: Slots, frame: Frame, i: nat): Slots
    requires cfg.Sound() && i <= |cfg.fields|
    decreases |cfg.fields| - i
  {
    if i == |cfg.fields| then slots
    else
      var r := Reading(cfg, frame, cfg.fields[i]);
      Store(cfg, if r.Some? then slots[cfg.fields[i].address := r.value] else slots, frame, i + 1)
  }

  function Bumped(counts: seq<nat>, k: nat): (r: seq<nat>)
    ensures |r| == |counts|
  {
    if k < |counts| then counts[k := counts[k] + 1] else counts
  }

  function PumpOne(cfg: SourceConfig, v: View, frame: Frame): View
    requires cfg.Sound()
  {
    var hit := Matched(cfg, frame);
    var s := Structure(cfg, frame);
    View(Store(cfg, v.slots, frame, 0),
         if hit then v.matched + 1 else v.matched,
         if hit && s.Some? then Bumped(v.byIndex, s.value.0) else v.byIndex,
         LastN(v.log + [frame], LOG_CAP),
         LastN(v.forward + [frame], FORWARD_CAP))
  }

  function Pump(cfg: SourceConfig, v: View, frames: seq<Frame>): View
    requires cfg.Sound()
    decreases |frames|
  {
    if frames == [] then v
    else PumpOne(cfg, Pump(cfg, v, frames[..|frames| - 1]), frames[|frames| - 1])
  }

  // ---- Runs ----

  datatype Op = Frames(frames: seq<Frame>) | DrainLog | DrainForward | Disconnect

  function Apply(cfg: SourceConfig, v: View, op: Op): View
    requires cfg.Sound()
  {
    match op
    case Frames(frames) => Pump(cfg, v, frames)
    case DrainLog => v.(log := [])
    case DrainForward => v.(forward := [])
    case Disconnect => v.(slots := map[])
  }

  function Run(cfg: SourceConfig, v: View, ops: seq<Op>): View
    requires cfg.Sound()
    decreases |ops|
  {
    if ops == [] then v else Apply(cfg, Run(cfg, v, ops[..|ops| - 1]), ops[|ops| - 1])
  }

  function Connected(cfg: SourceConfig): View {
    View(map[], 0, seq(|cfg.InUse()|, i => 0), [], [])
  }

  /** The frames of a run since the last operation of one kind. */
  function Since(ops: seq<Op>, reset: Op): seq<Frame>
    decreases |ops|
  {
    if ops == [] then []
    else
      var op, before := ops[|ops| - 1], ops[..|ops| - 1];
      if op == reset then [] else if op.Frames? then Since(before, reset) + op.frames else Since(before, reset)
  }

  // ---- The meaning of the slots, counters and queues ----

  /** What the last of the first n fields with this address says in one frame. */
  function LastIn(cfg: SourceConfig, frame: Frame, address: int32, n: nat): Option<TagValue>
    requires cfg.Sound() && n <= |cfg.fields|
  {
    if n == 0 then None
    else if cfg.fields[n - 1].address == address && Reading(cfg, frame, cfg.fields[n - 1]).Some?
    then Reading(cfg, frame, cfg.fields[n - 1])
    else LastIn(cfg, frame, address, n - 1)
  }

  /** The latest value ever read for an address from a stream of frames. */
  function Latest(cfg: SourceConfig, stream: seq<Frame>, address: int32): Option<TagValue>
    requires cfg.Sound()
    decreases |stream|
  {
    if stream == [] then None
    else
      var r := LastIn(cfg, stream[|stream| - 1], address, |cfg.fields|);
      if r.Some? then r else Latest(cfg, stream[..|stream| - 1], address)
  }

  function CountMatched(cfg: SourceConfig, stream: seq<Frame>): nat
    requires cfg.Sound()
    decreases |stream|
  {
    if stream == [] then 0
    else CountMatched(cfg, stream[..|stream| - 1]) + if Matched(cfg, stream[|stream| - 1]) then 1 else 0
  }

  /** The matched frames of a stream that were decoded under configuration k. */
  function CountMatchedBy(cfg: SourceConfig, stream: seq<Frame>, k: nat): nat
    requires cfg.Sound()
    decreases |stream|
  {
    if stream == [] then 0
    else
      var f := stream[|stream| - 1];
      CountMatchedBy(cfg, stream[..|stream| - 1], k)
      + if Matched(cfg, f) && Structure(cfg, f).Some? && Structure(cfg, f).value.0 == k then 1 else 0
  }

  function Sum(s: seq<nat>): nat {
    if s == [] then 0 else Sum(s[..|s| - 1]) + s[|s| - 1]
  }

  function AllFrames(ops: seq<Op>): seq<Frame>
    decreases |ops|
  {
    if ops == [] then []
    else
      var op := ops[|ops| - 1];
      AllFrames(ops[..|ops| - 1]) + if op.Frames? then op.frames else []
  }

  function Lookup(slots: Slots, address: int32): Option<TagValue> {
    if address in slots then Some(slots[address]) else None
  }

  /** The slots hold, for every address, the latest value read since the connection was made. */
  ghost predicate SlotsAre(cfg: SourceConfig, slots: Slots, stream: seq<Frame>)
    requires cfg.Sound()
  {
    forall a: int32 :: Lookup(slots, a) == Latest(cfg, stream, a)
  }

  ghost predicate CountersAre(cfg: SourceConfig, v: View, stream: seq<Frame>)
    requires cfg.Sound()
  {
    && v.matched == CountMatched(cfg, stream)
    && |v.byIndex| == |cfg.InUse()|
    && (forall k :: 0 <= k < |v.byIndex| ==> v.byIndex[k] == CountMatchedBy(cfg, stream, k))
    && Sum(v.byIndex) == v.matched
  }

  /** Storing field by field leaves, for every address, the last field that could be read. */
  lemma {:induction false} StoreIsLast(cfg: SourceConfig, was: Slots, slots: Slots, frame: Frame, i: nat, a: int32)
    requires cfg.Sound() && i <= |cfg.fields|
    requires var r := LastIn(cfg, frame, a, i); Lookup(slots, a) == if r.Some? then r else Lookup(was, a)
    ensures var r := LastIn(cfg, frame, a, |cfg.fields|);
            Lookup(Store(cfg, slots, frame, i), a) == if r.Some? then r else Lookup(was, a)
    decreases |cfg.fields| - i
  {
    hide Reading;
    if i < |cfg.fields| {
      var r := Reading(cfg, frame, cfg.fields[i]);
      var next := if r.Some? then slots[cfg.fields[i].address := r.value] else slots;
      StoreIsLast(cfg, was, next, frame, i + 1, a);
    }
  }

  lemma {:induction false} PumpOneSlots(cfg: SourceConfig, v: View, stream: seq<Frame>, frame: Frame)
    requires cfg.Sound() && SlotsAre(cfg, v.slots, stream)
    ensures SlotsAre(cfg, PumpOne(cfg, v, frame).slots, stream + [frame])
  {
    hide Store, LastIn, Matched, Structure;
    var after := stream + [frame];
    assert after[..|after| - 1] == stream;
    forall a: int32
      ensures Lookup(PumpOne(cfg, v, frame).slots, a) == Latest(cfg, after, a)
    {
      NothingIn(cfg, frame, a);
      StoreIsLast(cfg, v.slots, v.slots, frame, 0, a);
    }
  }

  lemma {:induction false} NothingIn(cfg: SourceConfig, frame: Frame, a: int32)
    requires cfg.Sound()
    ensures LastIn(cfg, frame, a, 0) == None
  {
  }

  lemma {:induction false} SumBumped(s: seq<nat>, k: nat)
    requires k < |s|
    ensures Sum(Bumped(s, k)) == Sum(s) + 1
  {
    var b := Bumped(s, k);
    if k < |s| - 1 {
      assert b[..|b| - 1] == Bumped(s[..|s| - 1], k);
      SumBumped(s[..|s| - 1], k);
    } else {
      assert b[..|b| - 1] == s[..|s| - 1];
    }
  }

  lemma {:induction false} MatchedIsStructured(cfg: SourceConfig, frame: Frame)
    requires cfg.Sound() && Matched(cfg, frame)
    ensures Structure(cfg, frame).Some?
  {
  }

  lemma {:induction false} PumpOneCounters(cfg: SourceConfig, v: View, stream: seq<Frame>, frame: Frame)
    requires cfg.Sound() && CountersAre(cfg, v, stream)
    ensures CountersAre(cfg, PumpOne(cfg, v, frame), stream + [frame])
  {
    hide Store, Matched, Structure, Sum;
    var after := stream + [frame];
    assert after[..|after| - 1] == stream;
    if Matched(cfg, frame) {
      MatchedIsStructured(cfg, frame);
      SumBumped(v.byIndex, Structure(cfg, frame).value.0);
    }
  }

  /** All three at once, for one batch of frames. */
  lemma {:induction false} PumpKeeps(cfg: SourceConfig, v: View, frames: seq<Frame>,
                                     linked: seq<Frame>, all: seq<Frame>, unlogged: seq<Frame>, unforwarded: seq<Frame>)
    requires cfg.Sound() && Means(cfg, v, linked, all, unlogged, unforwarded)
    ensures Means(cfg, Pump(cfg, v, frames), linked + frames, all + frames, unlogged + frames, unforwarded + frames)
    decreases |frames|
  {
    hide PumpOne, SlotsAre, CountersAre;
    if frames == [] {
      assert linked + frames == linked && all + frames == all;
      assert unlogged + frames == unlogged && unforwarded + frames == unforwarded;
    } else {
      var init, last := frames[..|frames| - 1], frames[|frames| - 1];
      assert frames == init + [last];
      PumpKeeps(cfg, v, init, linked, all, unlogged, unforwarded);
      PumpOneKeeps(cfg, Pump(cfg, v, init), last, linked + init, all + init, unlogged + init, unforwarded + init);
      assert linked + frames == (linked + init) + [last] && all + frames == (all + init) + [last];
      assert unlogged + frames == (unlogged + init) + [last] && unforwarded + frames == (unforwarded + init) + [last];
    }
  }

  ghost predicate Means(cfg: SourceConfig, v: View, linked: seq<Frame>, all: seq<Frame>,
                        unlogged: seq<Frame>, unforwarded: seq<Frame>)
    requires cfg.Sound()
  {
    && SlotsAre(cfg, v.slots, linked)
    && CountersAre(cfg, v, all)
    && v.log == LastN(unlogged, LOG_CAP)
    && v.forward == LastN(unforwarded, FORWARD_CAP)
  }

  lemma {:induction false} PumpOneKeeps(cfg: SourceConfig, v: View, frame: Frame,
                     linked: seq<Frame>, all: seq<Frame>, unlogged: seq<Frame>, unforwarded: seq<Frame>)
    requires cfg.Sound() && Means(cfg, v, linked, all, unlogged, unforwarded)
    ensures Means(cfg, PumpOne(cfg, v, frame), linked + [frame], all + [frame], unlogged + [frame],
              unforwarded + [frame])
  {
    hide SlotsAre, CountersAre, Store, Matched, Structure, LastN;
    PumpOneSlots(cfg, v, linked, frame);
    PumpOneCounters(cfg, v, all, frame);
    LastNAppends(unlogged, [frame], LOG_CAP);
    LastNAppends(unforwarded, [frame], FORWARD_CAP);
  }

  /** After every run of batches, drains and disconnections: each slot holds the latest value read
      since the last disconnection; the frames counted are those with a readable field, and the counts
      per configuration add up to them; the monitor log and the forward queue are the last 200 and the
      last 100000 frames not yet drained. */
  lemma {:induction false} SlotCacheLaws(cfg: SourceConfig, ops: seq<Op>)
    requires cfg.Sound()
    ensures Means(cfg, Run(cfg, Connected(cfg), ops), Since(ops, Disconnect), AllFrames(ops),
                  Since(ops, DrainLog), Since(ops, DrainForward))
    decreases |ops|
  {
    hide Pump, SlotsAre, CountersAre;
    if ops == [] {
      FreshMeans(cfg);
    } else {
      var op, before := ops[|ops| - 1], ops[..|ops| - 1];
      SlotCacheLaws(cfg, before);
      var v := Run(cfg, Connected(cfg), before);
      assert AllFrames(before) + [] == AllFrames(before);
      match op
      case Frames(frames) =>
        PumpKeeps(cfg, v, frames, Since(before, Disconnect), AllFrames(before),
                  Since(before, DrainLog), Since(before, DrainForward));
      case DrainLog =>
        SameCounters(cfg, v, v.(log := []), AllFrames(before));
      case DrainForward =>
        SameCounters(cfg, v, v.(forward := []), AllFrames(before));
      case Disconnect =>
        SameCounters(cfg, v, v.(slots := map[]), AllFrames(before));
        NoSlots(cfg);
    }
  }

  lemma {:induction false} SameCounters(cfg: SourceConfig, v: View, v': View, stream: seq<Frame>)
    requires cfg.Sound() && CountersAre(cfg, v, stream) && v'.matched == v.matched && v'.byIndex == v.byIndex
    ensures CountersAre(cfg, v', stream)
  {
  }

  lemma {:induction false} NoSlots(cfg: SourceConfig)
    requires cfg.Sound()
    ensures SlotsAre(cfg, map[], [])
  {
  }

  lemma {:induction false} FreshMeans(cfg: SourceConfig)
    requires cfg.Sound()
    ensures Means(cfg, Connected(cfg), [], [], [], [])
  {
    SumZeros(|cfg.InUse()|);
  }

  lemma {:induction false} SumZeros(n: nat)
    ensures Sum(seq(n, i => 0)) == 0
  {
    var s: seq<nat> := seq(n, i => 0);
    if n > 0 {
      var t: seq<nat> := seq(n - 1, i => 0);
      assert s[..n - 1] == t;
      SumZeros(n - 1);
    }
  }
}
