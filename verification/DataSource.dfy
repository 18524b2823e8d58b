/** The frame data source: values kept per group of equal addresses, counters and queues. */
module DataSource {
  import opened Bytes
  import opened Framing
  import opened Values
  import opened Fields
  import opened FrameEncoder
  import opened RoundTrip
  import opened FieldCodec
  import opened SlotCache

  function Normalised(f: TagField): TagField {
    if FieldTypeBytes(f.ftype) > 0 then f.(bytes := FieldTypeBytes(f.ftype)) else f
  }

  /** Every field belongs to the group of its address, and groups have different addresses. */
  predicate Grouped(fields: seq<TagField>, groupAddr: seq<int32>, groupOf: seq<nat>) {
    && |groupOf| <= |fields|
    && (forall i :: 0 <= i < |groupOf| ==> groupOf[i] < |groupAddr| && groupAddr[groupOf[i]] == fields[i].address)
    && (forall g, h :: 0 <= g < h < |groupAddr| ==> groupAddr[g] != groupAddr[h])
  }

  /** The grouped vectors hold what the map holds. */
  ghost predicate Stores(groupAddr: seq<int32>, latest: seq<TagValue>, set_: seq<bool>, slots: Slots) {
    && |latest| == |set_| == |groupAddr|
    && (forall a :: a in slots ==> a in groupAddr)
    && (forall g :: 0 <= g < |groupAddr| ==> set_[g] == (groupAddr[g] in slots))
    && (forall g :: 0 <= g < |groupAddr| && set_[g] ==> latest[g] == slots[groupAddr[g]])
  }

  lemma {:induction false} StoresUpdate(groupAddr: seq<int32>, latest: seq<TagValue>, set_: seq<bool>, slots: Slots,
                                        g: nat, v: TagValue)
    requires Stores(groupAddr, latest, set_, slots) && g < |groupAddr|
    requires forall g, h :: 0 <= g < h < |groupAddr| ==> groupAddr[g] != groupAddr[h]
    ensures Stores(groupAddr, latest[g := v], set_[g := true], slots[groupAddr[g] := v])
  {
  }

  class FrameDataSource {
    const cfg: SourceConfig
    var groupAddr: seq<int32>
    var groupOf: seq<nat>
    var latestByGroup: seq<TagValue>
    var groupSet: seq<bool>
    var frameLog: seq<Frame>
    var forward: seq<Frame>
    var matchedFrames: nat
    var matchedByIdx: seq<nat>
    ghost var slots: Slots

    ghost predicate Valid()
      reads this
    {
      && cfg.Sound()
      && |groupOf| == |cfg.fields| && Grouped(cfg.fields, groupAddr, groupOf)
      && Stores(groupAddr, latestByGroup, groupSet, slots)
    }

    ghost function Seen(): View
      reads this
    {
      View(slots, matchedFrames, matchedByIdx, frameLog, forward)
    }

    /** A data source that has just been connected for the first time. */
    constructor (framing: FramingConfig, framings: seq<FramingConfig>, fields: seq<TagField>, fl: Floats)
      requires SourceConfig(framing, framings, [], fl).Sound()
      ensures Valid() && Seen() == Connected(cfg)
      ensures cfg.framing == framing && cfg.framings == framings && cfg.fl == fl
      ensures |cfg.fields| == |fields| && forall i :: 0 <= i < |fields| ==> cfg.fields[i] == Normalised(fields[i])
    {
      var normal := seq(|fields|, i requires 0 <= i < |fields| => Normalised(fields[i]));
      var addr, of := GroupByAddress(normal);
      cfg := SourceConfig(framing, framings, normal, fl);
      groupAddr, groupOf := addr, of;
      latestByGroup := seq(|addr|, i => BoolValue(false));
      groupSet := seq(|addr|, i => false);
      frameLog, forward, matchedFrames := [], [], 0;
      matchedByIdx := seq(if framings == [] then 1 else |framings|, i => 0);
      slots := map[];
    }

    /** The address of a field is looked up among the groups so far; a new one is appended. */
    static method GroupByAddress(fields: seq<TagField>) returns (groupAddr: seq<int32>, groupOf: seq<nat>)
      ensures |groupOf| == |fields| && Grouped(fields, groupAddr, groupOf)
    {
      groupAddr, groupOf := [], [];
      for fi := 0 to |fields|
        invariant |groupOf| == fi && Grouped(fields, groupAddr, groupOf)
      {
        var g := LastGroup(groupAddr, fields[fi].address);
        if g < 0 {
          groupAddr := groupAddr + [fields[fi].address];
          g := |groupAddr| - 1;
        }
        groupOf := groupOf + [g];
      }
    }

    static method LastGroup(groupAddr: seq<int32>, address: int32) returns (g: int)
      ensures -1 <= g < |groupAddr|
      ensures g >= 0 ==> groupAddr[g] == address
      ensures g < 0 ==> address !in groupAddr
    {
      g := -1;
      for k := 0 to |groupAddr|
        invariant -1 <= g < k
        invariant g >= 0 ==> groupAddr[g] == address
        invariant g < 0 ==> address !in groupAddr[..k]
      {
        if groupAddr[k] == address {
          g := k;
        }
      }
    }

    /** The parsing half of the pump: what was received, frame by frame. */
    method PumpFrames(frames: seq<Frame>)
      requires Valid()
      modifies this
      ensures Valid() && Seen() == Apply(cfg, old(Seen()), Frames(frames))
    {
      hide PumpOne;
      for i := 0 to |frames|
        invariant Valid()
        invariant Seen() == Pump(cfg, old(Seen()), frames[..i])
      {
        assert frames[..i + 1][..i] == frames[..i];
        PumpFrame(frames[i]);
      }
      assert frames[..|frames|] == frames;
    }

    method PumpFrame(frame: Frame)
      requires Valid()
      modifies this
      ensures Valid() && Seen() == PumpOne(cfg, old(Seen()), frame)
    {
      hide Store, Structure, Matched, LastN;
      var k, m := StructureOf(frame);
      var matched := false;
      if k < |cfg.InUse()| {
        matched := StoreFields(frame, k, m);
      } else {
        UnstructuredStoresNothing(cfg, slots, frame, 0);
      }
      if matched {
        matchedFrames := matchedFrames + 1;
        if k < |matchedByIdx| {
          matchedByIdx := matchedByIdx[k := matchedByIdx[k] + 1];
        }
      }
      Queue(frame);
    }

    method Queue(frame: Frame)
      modifies `frameLog, `forward
      ensures frameLog == LastN(old(frameLog) + [frame], LOG_CAP)
      ensures forward == LastN(old(forward) + [frame], FORWARD_CAP)
    {
      frameLog := frameLog + [frame];
      while |frameLog| > LOG_CAP
        invariant forward == old(forward)
        invariant LastN(frameLog, LOG_CAP) == LastN(old(frameLog) + [frame], LOG_CAP)
        decreases |frameLog|
      {
        frameLog := frameLog[1..];
      }
      forward := forward + [frame];
      while |forward| > FORWARD_CAP
        invariant frameLog == LastN(old(frameLog) + [frame], LOG_CAP)
        invariant LastN(forward, FORWARD_CAP) == LastN(old(forward) + [frame], FORWARD_CAP)
        decreases |forward|
      {
        forward := forward[1..];
      }
    }

    /** The first configuration that decodes the frame; k is one past the last if there is none. */
    method StructureOf(frame: Frame) returns (k: nat, m: Message)
      requires cfg.Sound()
      ensures k <= |cfg.InUse()|
      ensures Structure(cfg, frame) == if k < |cfg.InUse()| then Some((k, m)) else None
    {
      k, m := 0, Message(-1, []);
      while k < |cfg.InUse()|
        invariant k <= |cfg.InUse()| && FirstDecoding(cfg.InUse(), frame, 0) == FirstDecoding(cfg.InUse(), frame, k)
      {
        var ok, tagId, start, len := DecodeFrameOnce(cfg.InUse()[k], frame);
        if ok {
          m := Message(tagId, frame[start..start + len]);
          return;
        }
        k := k + 1;
      }
    }

    /** Every field the frame drives is read; later fields of a group overwrite earlier ones. */
    method StoreFields(frame: Frame, k: nat, m: Message) returns (matched: bool)
      requires Valid() && Structure(cfg, frame) == Some((k, m))
      modifies `latestByGroup, `groupSet, `slots
      ensures Valid() && matched == Matched(cfg, frame)
      ensures slots == Store(cfg, old(slots), frame, 0)
    {
      hide Structure, FieldValue, Grouped;
      matched := false;
      for fi := 0 to |cfg.fields|
        invariant Valid()
        invariant Store(cfg, slots, frame, fi) == Store(cfg, old(slots), frame, 0)
        invariant matched == exists i :: 0 <= i < fi && Reading(cfg, frame, cfg.fields[i]).Some?
      {
        var f := cfg.fields[fi];
        if cfg.framing.mode == Tlv && f.tagId != m.tagId {
          continue;
        }
        if |cfg.framings| > 1 && f.framingIndex != k {
          continue;
        }
        var val := FieldValue(cfg.fl, f, m.payload);
        if val.Some? {
          StoreSlot(fi, val.value);
          matched := true;
        }
      }
    }

    method StoreSlot(fi: nat, v: TagValue)
      requires Valid() && fi < |cfg.fields|
      modifies `latestByGroup, `groupSet, `slots
      ensures Valid() && slots == old(slots)[cfg.fields[fi].address := v]
    {
      var g := groupOf[fi];
      StoresUpdate(groupAddr, latestByGroup, groupSet, slots, g, v);
      latestByGroup := latestByGroup[g := v];
      groupSet := groupSet[g := true];
      slots := slots[cfg.fields[fi].address := v];
    }

    /** The raw value of a slot, before the tag's own scaling; None while no data has come. */
    method ReadSlot(address: int32) returns (r: Option<TagValue>)
      requires Valid()
      ensures r == Lookup(slots, address)
    {
      var g := LastGroup(groupAddr, address);
      if g < 0 || !groupSet[g] {
        return None;
      }
      return Some(latestByGroup[g]);
    }

    method DrainFrameLog() returns (out: seq<Frame>)
      requires Valid()
      modifies `frameLog
      ensures Valid() && out == old(frameLog) && Seen() == Apply(cfg, old(Seen()), DrainLog)
    {
      out := frameLog;
      frameLog := [];
    }

    method DrainForwardFrames() returns (out: seq<Frame>)
      requires Valid()
      modifies `forward
      ensures Valid() && out == old(forward) && Seen() == Apply(cfg, old(Seen()), DrainForward)
    {
      out := forward;
      forward := [];
    }

    /** Parsed values are lost with the connection; counters and queues stay. */
    method DisconnectSource()
      requires Valid()
      modifies `groupSet, `slots
      ensures Valid() && Seen() == Apply(cfg, old(Seen()), Disconnect)
    {
      groupSet := seq(|groupSet|, i => false);
      slots := map[];
    }
  }

  lemma {:induction false} UnstructuredStoresNothing(cfg: SourceConfig, slots: Slots, frame: Frame, i: nat)
    requires cfg.Sound() && Structure(cfg, frame).None? && i <= |cfg.fields|
    ensures Store(cfg, slots, frame, i) == slots && !Matched(cfg, frame)
    decreases |cfg.fields| - i
  {
    if i < |cfg.fields| {
      UnstructuredStoresNothing(cfg, slots, frame, i + 1);
    }
  }
}
