/** What slots, counters and queues of a data source tell about the frames that came in, spelled out. */
module SlotMeaning {
  import opened Bytes
  import opened Framing
  import opened Values
  import opened Fields
  import opened FrameEncoder
  import opened RoundTrip
  import opened FieldCodec
  import opened SlotCache
  import opened DataSource

  /** The configurations of a group, or the one of a single protocol. */
  function Configurations(cfg: SourceConfig): seq<FramingConfig> {
    if cfg.framings == [] then [cfg.framing] else cfg.framings
  }

  /** Configuration k is the first in use that decodes the frame, and makes m of it. */
  predicate TakenBy(cfg: SourceConfig, frame: Frame, k: int, m: Message)
    requires cfg.Sound()
  {
    var frs := Configurations(cfg);
    && 0 <= k < |frs| && Decode(frs[k], frame) == Some(m)
    && forall j :: 0 <= j < k ==> Decode(frs[j], frame).None?
  }

  /** The field reads v from the frame: the frame's tag is the field's in TLV mode, the configuration that
      takes it is the field's in a group, and the payload has a value for it. */
  ghost predicate Reads(cfg: SourceConfig, frame: Frame, f: TagField, v: TagValue)
    requires cfg.Sound()
  {
    exists k, m ::
      && TakenBy(cfg, frame, k, m)
      && (cfg.framing.mode == Tlv ==> m.tagId == f.tagId)
      && (|cfg.framings| > 1 ==> k == f.framingIndex)
      && FieldValue(cfg.fl, f, m.payload) == Some(v)
  }

  lemma {:induction false} FirstDecodingIs(frs: seq<FramingConfig>, frame: Frame, i: nat)
    requires i <= |frs| && forall fr :: fr in frs ==> fr.maxFrameLen >= 0
    ensures var k := FirstDecoding(frs, frame, i);
            && i <= k <= |frs| && (k < |frs| ==> Decode(frs[k], frame).Some?)
            && forall j :: i <= j < k ==> Decode(frs[j], frame).None?
    decreases |frs| - i
  {
    hide Decode;
    if i < |frs| && Decode(frs[i], frame).None? {
      FirstDecodingIs(frs, frame, i + 1);
    }
  }

  lemma {:induction false} StructureIs(cfg: SourceConfig, frame: Frame, k: nat, m: Message)
    requires cfg.Sound()
    ensures Structure(cfg, frame) == Some((k, m)) <==> TakenBy(cfg, frame, k, m)
  {
    hide Decode, FirstDecoding;
    var frs := cfg.InUse();
    assert frs == Configurations(cfg);
    var first := FirstDecoding(frs, frame, 0);
    FirstDecodingIs(frs, frame, 0);
    if TakenBy(cfg, frame, k, m) {
      assert Decode(frs[k], frame) == Some(m);
    }
  }

  lemma {:induction false} ReadingIs(cfg: SourceConfig, frame: Frame, f: TagField, v: TagValue)
    requires cfg.Sound()
    ensures Reading(cfg, frame, f) == Some(v) <==> Reads(cfg, frame, f, v)
  {
    hide Structure, TakenBy, FieldValue;
    if Structure(cfg, frame).Some? {
      var s := Structure(cfg, frame).value;
      StructureIs(cfg, frame, s.0, s.1);
    }
    forall k: nat, m | TakenBy(cfg, frame, k, m)
      ensures Structure(cfg, frame) == Some((k, m))
    {
      StructureIs(cfg, frame, k, m);
    }
    assert forall k, m :: TakenBy(cfg, frame, k, m) ==> k >= 0 by {
      TakenIsIndex(cfg, frame);
    }
  }

  lemma {:induction false} TakenIsIndex(cfg: SourceConfig, frame: Frame)
    requires cfg.Sound()
    ensures forall k, m :: TakenBy(cfg, frame, k, m) ==> k >= 0
  {
    hide Decode;
  }

  ghost predicate Readable(cfg: SourceConfig, frame: Frame, f: TagField)
    requires cfg.Sound()
  {
    exists v :: Reads(cfg, frame, f, v)
  }

  /** Some field has a value in the frame. */
  ghost predicate Counts(cfg: SourceConfig, frame: Frame)
    requires cfg.Sound()
  {
    exists i :: 0 <= i < |cfg.fields| && Readable(cfg, frame, cfg.fields[i])
  }

  lemma {:induction false} ReadableIs(cfg: SourceConfig, frame: Frame, f: TagField)
    requires cfg.Sound()
    ensures Reading(cfg, frame, f).Some? <==> Readable(cfg, frame, f)
  {
    hide Reading, Reads;
    forall v
      ensures Reading(cfg, frame, f) == Some(v) <==> Reads(cfg, frame, f, v)
    {
      ReadingIs(cfg, frame, f, v);
    }
    if Reading(cfg, frame, f).Some? {
      assert Reads(cfg, frame, f, Reading(cfg, frame, f).value);
    }
  }

  lemma {:induction false} CountsIs(cfg: SourceConfig, frame: Frame)
    requires cfg.Sound()
    ensures Matched(cfg, frame) <==> Counts(cfg, frame)
  {
    hide Reading, Readable;
    forall i | 0 <= i < |cfg.fields|
      ensures Reading(cfg, frame, cfg.fields[i]).Some? <==> Readable(cfg, frame, cfg.fields[i])
    {
      ReadableIs(cfg, frame, cfg.fields[i]);
    }
  }

  // ---- Slots ----

  /** Some field with this address has a value in the frame. */
  ghost predicate Touches(cfg: SourceConfig, frame: Frame, address: int32)
    requires cfg.Sound()
  {
    exists i :: 0 <= i < |cfg.fields| && cfg.fields[i].address == address && Readable(cfg, frame, cfg.fields[i])
  }

  /** Of the fields with this address, the last that has a value in the frame has this one. */
  ghost predicate LastRead(cfg: SourceConfig, frame: Frame, address: int32, v: TagValue, n: nat)
    requires cfg.Sound() && n <= |cfg.fields|
  {
    exists i ::
      && 0 <= i < n && cfg.fields[i].address == address && Reads(cfg, frame, cfg.fields[i], v)
      && forall j :: i < j < n && cfg.fields[j].address == address ==> !Readable(cfg, frame, cfg.fields[j])
  }

  lemma {:induction false} LastInIs(cfg: SourceConfig, frame: Frame, a: int32, n: nat)
    requires cfg.Sound() && n <= |cfg.fields|
    ensures var r := LastIn(cfg, frame, a, n);
            && (r.Some? ==> LastRead(cfg, frame, a, r.value, n))
            && (r.None? ==>
                  forall i :: 0 <= i < n && cfg.fields[i].address == a ==> !Readable(cfg, frame, cfg.fields[i]))
    decreases n
  {
    hide Reading, Reads, Readable;
    if n > 0 {
      var f := cfg.fields[n - 1];
      ReadableIs(cfg, frame, f);
      if f.address == a && Reading(cfg, frame, f).Some? {
        ReadingIs(cfg, frame, f, Reading(cfg, frame, f).value);
      } else {
        LastInIs(cfg, frame, a, n - 1);
      }
    }
  }

  /** The last frame that touches the address left this value. */
  ghost predicate LastLeft(cfg: SourceConfig, stream: seq<Frame>, address: int32, v: TagValue)
    requires cfg.Sound()
  {
    exists j ::
      && 0 <= j < |stream| && LastRead(cfg, stream[j], address, v, |cfg.fields|)
      && forall l :: j < l < |stream| ==> !Touches(cfg, stream[l], address)
  }

  lemma {:induction false} LatestIs(cfg: SourceConfig, stream: seq<Frame>, a: int32)
    requires cfg.Sound()
    ensures var r := Latest(cfg, stream, a);
            && (r.Some? ==> LastLeft(cfg, stream, a, r.value))
            && (r.None? ==> forall j :: 0 <= j < |stream| ==> !Touches(cfg, stream[j], a))
    decreases |stream|
  {
    hide LastIn, LastRead, Readable;
    if stream != [] {
      var n := |stream| - 1;
      LastInIs(cfg, stream[n], a, |cfg.fields|);
      if LastIn(cfg, stream[n], a, |cfg.fields|).None? {
        LatestIs(cfg, stream[..n], a);
        if Latest(cfg, stream[..n], a).Some? {
          var v := Latest(cfg, stream[..n], a).value;
          var j :| && 0 <= j < n && LastRead(cfg, stream[..n][j], a, v, |cfg.fields|)
                   && forall l :: j < l < n ==> !Touches(cfg, stream[..n][l], a);
          forall l | j < l < |stream|
            ensures !Touches(cfg, stream[l], a)
          {
            assert l < n ==> stream[..n][l] == stream[l];
          }
          assert stream[..n][j] == stream[j];
        } else {
          forall j | 0 <= j < |stream|
            ensures !Touches(cfg, stream[j], a)
          {
            assert j < n ==> stream[..n][j] == stream[j];
          }
        }
      }
    }
  }

  // ---- Counters ----

  /** The frames of a stream in which some field has a value. */
  ghost function Counted(cfg: SourceConfig, stream: seq<Frame>): set<nat>
    requires cfg.Sound()
  {
    set j: nat | j < |stream| && Counts(cfg, stream[j])
  }

  /** Some field has a value in the frame, which configuration k takes. */
  ghost predicate CountsBy(cfg: SourceConfig, frame: Frame, k: nat)
    requires cfg.Sound()
  {
    Counts(cfg, frame) && exists m :: TakenBy(cfg, frame, k, m)
  }

  ghost function CountedBy(cfg: SourceConfig, stream: seq<Frame>, k: nat): set<nat>
    requires cfg.Sound()
  {
    set j: nat | j < |stream| && CountsBy(cfg, stream[j], k)
  }

  lemma {:induction false} TakenIs(cfg: SourceConfig, frame: Frame, k: nat)
    requires cfg.Sound()
    ensures Structure(cfg, frame).Some? && Structure(cfg, frame).value.0 == k
       <==> exists m :: TakenBy(cfg, frame, k, m)
  {
    hide Structure, TakenBy;
    forall m
      ensures Structure(cfg, frame) == Some((k, m)) <==> TakenBy(cfg, frame, k, m)
    {
      StructureIs(cfg, frame, k, m);
    }
    if Structure(cfg, frame).Some? && Structure(cfg, frame).value.0 == k {
      assert TakenBy(cfg, frame, k, Structure(cfg, frame).value.1);
    }
  }

  lemma {:induction false} CountedGrows(cfg: SourceConfig, stream: seq<Frame>)
    requires cfg.Sound() && stream != []
    ensures var n := |stream| - 1;
            |Counted(cfg, stream)| == |Counted(cfg, stream[..n])| + if Counts(cfg, stream[n]) then 1 else 0
  {
    hide Counts;
    var n := |stream| - 1;
    var before := Counted(cfg, stream[..n]);
    forall j: nat
      ensures j in Counted(cfg, stream) <==> j in before || (j == n && Counts(cfg, stream[n]))
    {
      assert j < n ==> stream[..n][j] == stream[j];
    }
    assert Counted(cfg, stream) == before + if Counts(cfg, stream[n]) then {n} else {};
  }

  lemma {:induction false} CountedByGrows(cfg: SourceConfig, stream: seq<Frame>, k: nat)
    requires cfg.Sound() && stream != []
    ensures var n := |stream| - 1;
            |CountedBy(cfg, stream, k)|
            == |CountedBy(cfg, stream[..n], k)| + if CountsBy(cfg, stream[n], k) then 1 else 0
  {
    hide CountsBy;
    var n := |stream| - 1;
    var before := CountedBy(cfg, stream[..n], k);
    forall j: nat
      ensures j in CountedBy(cfg, stream, k) <==> j in before || (j == n && CountsBy(cfg, stream[n], k))
    {
      assert j < n ==> stream[..n][j] == stream[j];
    }
    assert CountedBy(cfg, stream, k) == before + if CountsBy(cfg, stream[n], k) then {n} else {};
  }

  lemma {:induction false} CountIs(cfg: SourceConfig, stream: seq<Frame>, k: nat)
    requires cfg.Sound()
    ensures CountMatched(cfg, stream) == |Counted(cfg, stream)|
    ensures CountMatchedBy(cfg, stream, k) == |CountedBy(cfg, stream, k)|
    decreases |stream|
  {
    hide Structure, Matched, Counts, TakenBy;
    if stream == [] {
      assert Counted(cfg, stream) == {} && CountedBy(cfg, stream, k) == {};
    } else {
      hide Counted, CountedBy;
      var n := |stream| - 1;
      CountIs(cfg, stream[..n], k);
      CountsIs(cfg, stream[n]);
      TakenIs(cfg, stream[n], k);
      CountedGrows(cfg, stream);
      CountedByGrows(cfg, stream, k);
    }
  }

  // ---- Runs ----

  /** The last n frames, or all of them if there are fewer. */
  predicate IsEnd(q: seq<Frame>, stream: seq<Frame>, n: nat) {
    |q| == (if |stream| < n then |stream| else n) && q == stream[|stream| - |q|..]
  }

  /** After every run of batches, drains and disconnections: a slot has a value exactly if some frame since the
      last disconnection had one for it, and then the last field's of the last such frame; the counters are the
      numbers of frames with a value, in all and for each configuration; the monitor log is the end of the frames
      since it was drained, up to 200 of them, the forward queue the same up to 100000. */
  lemma {:induction false} RunsMean(cfg: SourceConfig, ops: seq<Op>, a: int32, k: nat)
    requires cfg.Sound()
    ensures var v, since := Run(cfg, Connected(cfg), ops), Since(ops, Disconnect);
            && (a in v.slots <==> exists j :: 0 <= j < |since| && Touches(cfg, since[j], a))
            && (a in v.slots ==> LastLeft(cfg, since, a, v.slots[a]))
            && v.matched == |Counted(cfg, AllFrames(ops))|
            && |v.byIndex| == (if cfg.framings == [] then 1 else |cfg.framings|)
            && (k < |v.byIndex| ==> v.byIndex[k] == |CountedBy(cfg, AllFrames(ops), k)|)
            && IsEnd(v.log, Since(ops, DrainLog), 200) && IsEnd(v.forward, Since(ops, DrainForward), 100000)
  {
    hide Run, Latest, CountMatched, CountMatchedBy, Touches, Sum, LastRead, Counted, CountedBy;
    SlotCacheLaws(cfg, ops);
    var v, since := Run(cfg, Connected(cfg), ops), Since(ops, Disconnect);
    assert Lookup(v.slots, a) == Latest(cfg, since, a);
    LatestIs(cfg, since, a);
    if a in v.slots {
      LeftTouches(cfg, since, a, v.slots[a]);
    }
    CountIs(cfg, AllFrames(ops), k);
  }

  lemma {:induction false} LeftTouches(cfg: SourceConfig, stream: seq<Frame>, a: int32, v: TagValue)
    requires cfg.Sound() && LastLeft(cfg, stream, a, v)
    ensures exists j :: 0 <= j < |stream| && Touches(cfg, stream[j], a)
  {
    hide Reads;
    var j :| 0 <= j < |stream| && LastRead(cfg, stream[j], a, v, |cfg.fields|);
    assert Touches(cfg, stream[j], a);
  }

  /** A field whose type fixes its width gets that width; nothing else of it changes. */
  lemma {:induction false} NormalisedIs(f: TagField)
    ensures var g := Normalised(f);
            && g.bytes == (if f.ftype in {U8, I8, Bool} then 1
                           else if f.ftype in {U16, I16} then 2
                           else if f.ftype in {U32, F32} then 4
                           else if f.ftype == F64 then 8
                           else f.bytes)
            && g.name == f.name && g.protoName == f.protoName && g.tagId == f.tagId && g.offset == f.offset
            && g.ftype == f.ftype && g.bigEndian == f.bigEndian && g.address == f.address
            && g.framingIndex == f.framingIndex && g.scale == f.scale && g.enums == f.enums
  {
  }
}
