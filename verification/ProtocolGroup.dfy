/** Merging the protocols of a group into one data source, and the isolation of its members: a frame
    changes only the slots of the member whose header it carries. */
module ProtocolGroup {
  import opened Bytes
  import opened Framing
  import opened Values
  import opened Fields
  import opened FrameEncoder
  import opened RoundTrip
  import opened FieldCodec
  import opened SlotCache
  import opened DataSource

  /** A member protocol as its component describes it. */
  datatype Member = Member(framing: FramingConfig, fields: seq<TagField>)

  datatype Merged = Merged(framing: FramingConfig, framings: seq<FramingConfig>, fields: seq<TagField>)

  /** The frame length limit is not compared: components do not configure it. */
  predicate SameConfig(a: FramingConfig, b: FramingConfig) {
    a == b.(maxFrameLen := a.maxFrameLen)
  }

  function IndexOf(configs: seq<FramingConfig>, f: FramingConfig, k: nat): (i: nat)
    requires k <= |configs|
    ensures k <= i <= |configs| && (i < |configs| ==> SameConfig(configs[i], f))
    ensures forall j :: k <= j < i ==> !SameConfig(configs[j], f)
    decreases |configs| - k
  {
    if k == |configs| || SameConfig(configs[k], f) then k else IndexOf(configs, f, k + 1)
  }

  /** The different configurations of the first n members, in order of appearance. */
  function Configs(members: seq<Member>, n: nat): seq<FramingConfig>
    requires n <= |members|
  {
    if n == 0 then []
    else
      var cs, f := Configs(members, n - 1), members[n - 1].framing;
      if IndexOf(cs, f, 0) < |cs| then cs else cs + [f]
  }

  /** Fields moved to configuration idx and to consecutive addresses from start on. */
  function Relocated(fields: seq<TagField>, idx: int32, start: nat): (r: seq<TagField>)
    requires start + |fields| < 0x8000_0000
    ensures |r| == |fields|
  {
    seq(|fields|, i requires 0 <= i < |fields| => fields[i].(framingIndex := idx, address := start + i))
  }

  function FieldCount(members: seq<Member>, n: nat): nat
    requires n <= |members|
  {
    if n == 0 then 0 else FieldCount(members, n - 1) + |members[n - 1].fields|
  }

  lemma {:induction false} FieldCountMonotone(members: seq<Member>, m: nat, n: nat)
    requires m <= n <= |members|
    ensures FieldCount(members, m) <= FieldCount(members, n)
    decreases n
  {
    if m < n {
      FieldCountMonotone(members, m, n - 1);
    }
  }

  /** Indices and addresses are 32-bit. */
  predicate Small(members: seq<Member>) {
    FieldCount(members, |members|) < 0x8000_0000 && |members| < 0x8000_0000
  }

  lemma {:induction false} ConfigsBound(members: seq<Member>, n: nat)
    requires n <= |members|
    ensures |Configs(members, n)| <= n
  {
    if n > 0 {
      ConfigsBound(members, n - 1);
    }
  }

  /** The fields of the first n members after merging, and the member each of them comes from. */
  function MergedFields(members: seq<Member>, n: nat): (r: seq<TagField>)
    requires n <= |members| && Small(members)
    ensures |r| == FieldCount(members, n)
  {
    if n == 0 then []
    else
      FieldCountMonotone(members, n, |members|);
      ConfigsBound(members, n);
      MergedFields(members, n - 1)
      + Relocated(members[n - 1].fields, IndexOf(Configs(members, n), members[n - 1].framing, 0),
                  FieldCount(members, n - 1))
  }

  function Owners(members: seq<Member>, n: nat): (r: seq<nat>)
    requires n <= |members|
    ensures |r| == FieldCount(members, n) && forall i :: 0 <= i < |r| ==> r[i] < n
  {
    if n == 0 then [] else Owners(members, n - 1) + seq(|members[n - 1].fields|, i => n - 1)
  }

  /** The merge loop; several configurations are kept only when they differ. */
  method MergeGroup(members: seq<Member>) returns (s: Merged)
    requires members != [] && Small(members)
    ensures s.framing == members[0].framing
    ensures s.fields == MergedFields(members, |members|)
    ensures var cs := Configs(members, |members|); s.framings == if |cs| > 1 then cs else []
  {
    hide Configs, MergedFields, IndexOf, Unplaced;
    var configs: seq<FramingConfig> := [];
    var fields: seq<TagField> := [];
    NothingMerged(members);
    for n := 0 to |members|
      invariant configs == Configs(members, n)
      invariant |fields| == FieldCount(members, n)
      invariant Unplaced(fields, MergedFields(members, n))
    {
      var f := members[n].framing;
      var idx := FindConfig(configs, f);
      MergeStep(members, n);
      UnplacedAppend(fields, MergedFields(members, n), members[n].fields, idx);
      if idx == |configs| {
        configs := configs + [f];
      }
      fields := fields + Filed(members[n].fields, idx);
    }
    var placed := PlaceFields(fields);
    s := Merged(members[0].framing, if |configs| > 1 then configs else [], placed);
    AddressesAreIndices(members, |members|);
    PlacedIsMerged(fields, MergedFields(members, |members|), placed);
  }

  /** Fields filed under configuration idx. */
  function Filed(fields: seq<TagField>, idx: int32): (r: seq<TagField>)
    ensures |r| == |fields|
  {
    seq(|fields|, i requires 0 <= i < |fields| => fields[i].(framingIndex := idx))
  }

  lemma {:induction false} NothingMerged(members: seq<Member>)
    requires Small(members)
    ensures Configs(members, 0) == [] && Unplaced([], MergedFields(members, 0))
  {
  }

  lemma {:induction false} UnplacedAppend(fields: seq<TagField>, merged: seq<TagField>, more: seq<TagField>, idx: int32)
    requires Unplaced(fields, merged) && |merged| + |more| < 0x8000_0000
    ensures Unplaced(fields + Filed(more, idx), merged + Relocated(more, idx, |merged|))
  {
  }

  lemma {:induction false} PlacedIsMerged(fields: seq<TagField>, merged: seq<TagField>, placed: seq<TagField>)
    requires Unplaced(fields, merged) && |placed| == |fields| < 0x8000_0000
    requires forall i :: 0 <= i < |fields| ==> placed[i] == fields[i].(address := i)
    requires forall i :: 0 <= i < |merged| ==> merged[i].address == i
    ensures placed == merged
  {
  }

  /** What one more member adds. */
  lemma {:induction false} MergeStep(members: seq<Member>, n: nat)
    requires n < |members| && Small(members)
    ensures var cs, f := Configs(members, n), members[n].framing;
            var idx := IndexOf(cs, f, 0);
            && idx < 0x8000_0000
            && FieldCount(members, n + 1) < 0x8000_0000
            && Configs(members, n + 1) == (if idx < |cs| then cs else cs + [f])
            && MergedFields(members, n + 1)
               == MergedFields(members, n) + Relocated(members[n].fields, idx, FieldCount(members, n))
  {
    ConfigsBound(members, n + 1);
    FieldCountMonotone(members, n + 1, |members|);
    IndexFound(members, n + 1);
    IndexIs(Configs(members, n + 1), members[n].framing, IndexOf(Configs(members, n), members[n].framing, 0));
  }

  /** The same fields up to their addresses. */
  ghost predicate Unplaced(fields: seq<TagField>, merged: seq<TagField>) {
    |fields| == |merged| && forall i :: 0 <= i < |fields| ==> fields[i].(address := merged[i].address) == merged[i]
  }

  method FindConfig(configs: seq<FramingConfig>, f: FramingConfig) returns (k: nat)
    ensures k == IndexOf(configs, f, 0)
  {
    k := 0;
    while k < |configs|
      invariant k <= |configs| && IndexOf(configs, f, 0) == IndexOf(configs, f, k)
    {
      if SameConfig(configs[k], f) {
        return;
      }
      k := k + 1;
    }
  }

  /** Addresses are renumbered over the whole group. */
  method PlaceFields(fields: seq<TagField>) returns (r: seq<TagField>)
    requires |fields| < 0x8000_0000
    ensures |r| == |fields| && forall i :: 0 <= i < |r| ==> r[i] == fields[i].(address := i)
  {
    r := fields;
    for i := 0 to |fields|
      invariant |r| == |fields|
      invariant forall j :: 0 <= j < i ==> r[j] == fields[j].(address := j)
      invariant forall j :: i <= j < |r| ==> r[j] == fields[j]
    {
      r := r[i := r[i].(address := i)];
    }
  }

  lemma {:induction false} AddressesAreIndices(members: seq<Member>, n: nat)
    requires n <= |members| && Small(members)
    ensures forall i :: 0 <= i < FieldCount(members, n) ==> MergedFields(members, n)[i].address == i
  {
    FieldCountMonotone(members, n, |members|);
    if n > 0 {
      AddressesAreIndices(members, n - 1);
    }
  }

  // ---- What the merge keeps ----

  lemma {:induction false} IndexIs(configs: seq<FramingConfig>, f: FramingConfig, k: nat)
    requires k < |configs| && SameConfig(configs[k], f)
    requires forall j :: 0 <= j < k ==> !SameConfig(configs[j], f)
    ensures IndexOf(configs, f, 0) == k
  {
  }

  /** The configuration of the last of the first n members is among their configurations. */
  lemma {:induction false} IndexFound(members: seq<Member>, n: nat)
    requires 0 < n <= |members|
    ensures IndexOf(Configs(members, n), members[n - 1].framing, 0) < |Configs(members, n)|
  {
    var cs, f := Configs(members, n), members[n - 1].framing;
    var k := IndexOf(Configs(members, n - 1), f, 0);
    assert SameConfig(cs[k], f);
  }

  /** Configurations are only appended. */
  lemma {:induction false} ConfigsGrow(members: seq<Member>, m: nat, n: nat)
    requires m <= n <= |members|
    ensures Configs(members, m) <= Configs(members, n)
    decreases n
  {
    if m < n {
      ConfigsGrow(members, m, n - 1);
    }
  }

  /** Each kept configuration is that of a member. */
  lemma {:induction false} ConfigOfMember(members: seq<Member>, n: nat, i: nat) returns (m: nat)
    requires n <= |members| && i < |Configs(members, n)|
    ensures m < n && Configs(members, n)[i] == members[m].framing
    decreases n
  {
    if i < |Configs(members, n - 1)| {
      m := ConfigOfMember(members, n - 1, i);
      ConfigsGrow(members, n - 1, n);
    } else {
      m := n - 1;
    }
  }

  lemma {:induction false} ConfigsDiffer(members: seq<Member>, n: nat, i: nat, j: nat)
    requires n <= |members| && i < j < |Configs(members, n)|
    ensures !SameConfig(Configs(members, n)[i], Configs(members, n)[j])
    decreases n
  {
    ConfigsGrow(members, n - 1, n);
    if j < |Configs(members, n - 1)| {
      ConfigsDiffer(members, n - 1, i, j);
    }
  }

  /** Field i of the merged protocol: its address is its index, and it is filed under a configuration
      equal to that of the member it comes from. */
  lemma {:induction false} MergedField(members: seq<Member>, n: nat, i: nat)
    requires n <= |members| && Small(members) && i < FieldCount(members, n)
    ensures var f, cs, owner := MergedFields(members, n)[i], Configs(members, n), Owners(members, n)[i];
            && f.address == i
            && 0 <= f.framingIndex < |cs|
            && SameConfig(cs[f.framingIndex], members[owner].framing)
    decreases n
  {
    hide Configs, IndexOf;
    ConfigsGrow(members, n - 1, n);
    ConfigsBound(members, n);
    FieldCountMonotone(members, n, |members|);
    if i < FieldCount(members, n - 1) {
      MergedField(members, n - 1, i);
    } else {
      IndexFound(members, n);
    }
  }

  /** The ten parameters a component configures agree. */
  predicate Alike(a: FramingConfig, b: FramingConfig) {
    && a.mode == b.mode && a.header == b.header
    && a.lenOffset == b.lenOffset && a.lenBytesHeader == b.lenBytesHeader
    && a.bigEndianHeader == b.bigEndianHeader && a.lenIncludesAll == b.lenIncludesAll
    && a.tagBytes == b.tagBytes && a.lenBytes == b.lenBytes
    && a.bigEndian == b.bigEndian && a.lenIncludesHeader == b.lenIncludesHeader
  }

  lemma {:induction false} SameIsAlike(a: FramingConfig, b: FramingConfig)
    ensures SameConfig(a, b) <==> Alike(a, b)
  {
  }

  /** Of members that configure alike the first one's configuration is kept, and no other; the configurations
      kept of the first members stay in front when more follow. */
  lemma {:induction false} ConfigsKept(members: seq<Member>, n: nat, m: nat) returns (k: nat, first: nat)
    requires m < n <= |members|
    ensures k < |Configs(members, n)| && first <= m && Configs(members, n)[k] == members[first].framing
    ensures Alike(members[first].framing, members[m].framing)
    ensures forall j :: 0 <= j < first ==> !Alike(members[j].framing, members[m].framing)
    ensures forall i, j :: 0 <= i < j < |Configs(members, n)| ==> !Alike(Configs(members, n)[i], Configs(members, n)[j])
    ensures Configs(members, m) <= Configs(members, n)
    decreases m
  {
    hide Configs, SameConfig, Alike;
    var f := members[m].framing;
    AlikeItself(f);
    forall i, j | 0 <= i < j < |Configs(members, n)|
      ensures !Alike(Configs(members, n)[i], Configs(members, n)[j])
    {
      ConfigsDiffer(members, n, i, j);
      SameIsAlike(Configs(members, n)[i], Configs(members, n)[j]);
    }
    ConfigsGrow(members, m, n);
    if j :| 0 <= j < m && Alike(members[j].framing, f) {
      k, first := ConfigsKept(members, n, j);
      AlikeThroughout(members[first].framing, members[j].framing, f);
      forall i | 0 <= i < first
        ensures !Alike(members[i].framing, f)
      {
        NotAlikeEither(members[i].framing, members[j].framing, f);
      }
    } else {
      first := m;
      k := NewConfigKept(members, m);
      ConfigsGrow(members, m + 1, n);
    }
  }

  lemma {:induction false} AlikeItself(a: FramingConfig)
    ensures Alike(a, a)
  {
  }

  lemma {:induction false} AlikeThroughout(a: FramingConfig, b: FramingConfig, c: FramingConfig)
    requires Alike(a, b) && Alike(b, c)
    ensures Alike(a, c)
  {
  }

  lemma {:induction false} NotAlikeEither(a: FramingConfig, b: FramingConfig, c: FramingConfig)
    requires !Alike(a, b) && Alike(b, c)
    ensures !Alike(a, c)
  {
  }

  lemma {:induction false} NewConfigKept(members: seq<Member>, m: nat) returns (k: nat)
    requires m < |members|
    requires forall j :: 0 <= j < m ==> !Alike(members[j].framing, members[m].framing)
    ensures k < |Configs(members, m + 1)| && Configs(members, m + 1)[k] == members[m].framing
  {
    hide SameConfig, Alike;
    var cs, f := Configs(members, m), members[m].framing;
    k := IndexOf(cs, f, 0);
    if k < |cs| {
      var j := ConfigOfMember(members, m, k);
      SameIsAlike(cs[k], f);
    }
  }

  lemma {:induction false} MergedGrows(members: seq<Member>, n: nat, at: nat)
    requires 0 < n <= |members| && Small(members) && at < FieldCount(members, n - 1)
    ensures at < FieldCount(members, n) && MergedFields(members, n)[at] == MergedFields(members, n - 1)[at]
  {
    hide Configs, IndexOf;
    FieldCountMonotone(members, n, |members|);
    ConfigsBound(members, n);
  }

  lemma {:induction false} LastMerged(members: seq<Member>, n: nat, k: nat)
    requires 0 < n <= |members| && Small(members) && k < |members[n - 1].fields|
    ensures var at, was, cs := FieldCount(members, n - 1) + k, members[n - 1].fields[k], Configs(members, n);
            && at < FieldCount(members, n) && at < 0x8000_0000
            && var f := MergedFields(members, n)[at];
               && f == was.(framingIndex := f.framingIndex, address := at)
               && 0 <= f.framingIndex < |cs| && Alike(cs[f.framingIndex], members[n - 1].framing)
  {
    hide Configs, IndexOf, SameConfig, Alike;
    FieldCountMonotone(members, n, |members|);
    ConfigsBound(members, n);
    IndexFound(members, n);
    var idx := IndexOf(Configs(members, n), members[n - 1].framing, 0);
    SameIsAlike(Configs(members, n)[idx], members[n - 1].framing);
  }

  /** Field k of member m comes after all fields of the members before it, with its place as address and under
      the configuration that is alike; everything else of it is as the member says. */
  lemma {:induction false} MergedKeepsField(members: seq<Member>, n: nat, m: nat, k: nat)
    requires m < n <= |members| && Small(members) && k < |members[m].fields|
    ensures var at := FieldCount(members, m) + k;
            && at < FieldCount(members, n)
            && var f, was, cs := MergedFields(members, n)[at], members[m].fields[k], Configs(members, n);
               && f.name == was.name && f.protoName == was.protoName && f.tagId == was.tagId
               && f.offset == was.offset && f.ftype == was.ftype && f.bytes == was.bytes
               && f.bigEndian == was.bigEndian && f.scale == was.scale && f.enums == was.enums
               && f.address == at
               && 0 <= f.framingIndex < |cs| && Alike(cs[f.framingIndex], members[m].framing)
    decreases n
  {
    hide Configs, MergedFields, Alike;
    var at := FieldCount(members, m) + k;
    FieldCountMonotone(members, m + 1, n);
    FieldCountMonotone(members, n, |members|);
    ConfigsBound(members, n);
    if m < n - 1 {
      MergedKeepsField(members, n - 1, m, k);
      FieldCountMonotone(members, m + 1, n - 1);
      MergedGrows(members, n, at);
      ConfigsGrow(members, n - 1, n);
    } else {
      LastMerged(members, n, k);
    }
  }

  // ---- Isolation ----

  /** Header + length members whose headers can be told apart; members may share a whole configuration. */
  ghost predicate ProperMembers(members: seq<Member>) {
    && (forall m :: m in members ==>
          var fr := m.framing;
          && fr.mode == FrameMode.HeaderLength && fr.header != [] && fr.HeaderParamsOk()
          && fr.maxFrameLen >= 0 && |fr.header| <= fr.LenFieldEnd())
    && (forall m, n :: m in members && n in members && m.framing.header == n.framing.header ==>
          SameConfig(m.framing, n.framing))
    && (forall m, n :: m in members && n in members && m.framing.header != n.framing.header ==>
          !OccursIn(m.framing.header, n.framing.header))
  }

  ghost predicate OfMember(members: seq<Member>, fr: FramingConfig) {
    exists m :: m in members && m.framing == fr
  }

  lemma {:induction false} MembersFormGroup(members: seq<Member>)
    requires ProperMembers(members)
    ensures ProperGroup(Configs(members, |members|))
  {
    hide Configs, SameConfig, OccursIn;
    var cs := Configs(members, |members|);
    forall i | 0 <= i < |cs|
      ensures OfMember(members, cs[i])
    {
      var m := ConfigOfMember(members, |members|, i);
      assert members[m] in members;
    }
    forall j, k | 0 <= j < k < |cs|
      ensures cs[j].header != cs[k].header
    {
      ConfigsDiffer(members, |members|, j, k);
    }
    HeadersApart(members, cs);
  }

  lemma {:induction false} HeadersApart(members: seq<Member>, cs: seq<FramingConfig>)
    requires ProperMembers(members)
    requires forall i :: 0 <= i < |cs| ==> OfMember(members, cs[i])
    ensures NonContaining(Headers(cs))
  {
    hide OccursIn, SameConfig;
    forall g, h | g in Headers(cs) && h in Headers(cs) && g != h
      ensures !OccursIn(g, h)
    {
      var i :| 0 <= i < |cs| && cs[i].header == g;
      var j :| 0 <= j < |cs| && cs[j].header == h;
      var m :| m in members && m.framing == cs[i];
      var n :| n in members && n.framing == cs[j];
    }
  }

  /** A data source configured with the merged group; fixed-width fields get the width of their type. */
  ghost predicate MergedInto(members: seq<Member>, cfg: SourceConfig)
    requires members != [] && Small(members)
  {
    var cs, fs := Configs(members, |members|), MergedFields(members, |members|);
    && cfg.framing == members[0].framing
    && cfg.framings == (if |cs| > 1 then cs else [])
    && |cfg.fields| == |fs|
    && forall i :: 0 <= i < |fs| ==> cfg.fields[i] == Normalised(fs[i])
  }

  lemma {:induction false} FirstConfig(members: seq<Member>)
    requires members != []
    ensures |Configs(members, |members|)| > 0 && Configs(members, |members|)[0] == members[0].framing
  {
    ConfigsGrow(members, 1, |members|);
    assert Configs(members, 1) == [members[0].framing];
  }

  lemma {:induction false} MergedIsSound(members: seq<Member>, cfg: SourceConfig)
    requires members != [] && Small(members) && ProperMembers(members) && MergedInto(members, cfg)
    ensures cfg.Sound()
  {
    hide Configs, MergedFields;
    MembersFormGroup(members);
    FirstConfig(members);
  }

  /** If storing a frame changes a slot, some field with that address could be read from it. */
  lemma {:induction false} ChangedByField(cfg: SourceConfig, slots: Slots, frame: Frame, i: nat,
                                          a: int32) returns (j: nat)
    requires cfg.Sound() && i <= |cfg.fields|
    requires Lookup(Store(cfg, slots, frame, i), a) != Lookup(slots, a)
    ensures j < |cfg.fields| && cfg.fields[j].address == a && Reading(cfg, frame, cfg.fields[j]).Some?
    decreases |cfg.fields| - i
  {
    hide Reading;
    var f := cfg.fields[i];
    var r := Reading(cfg, frame, f);
    if r.Some? && f.address == a {
      j := i;
    } else {
      j := ChangedByField(cfg, if r.Some? then slots[f.address := r.value] else slots, frame, i + 1, a);
    }
  }

  /** A field can be read only from frames with the header of the member it comes from. */
  lemma {:induction false} ReadingNeedsHeader(members: seq<Member>, cfg: SourceConfig, frame: Frame, i: nat)
    requires members != [] && Small(members) && ProperMembers(members) && MergedInto(members, cfg)
    requires cfg.Sound() && i < |cfg.fields| && Reading(cfg, frame, cfg.fields[i]).Some?
    ensures cfg.fields[i].address == i
    ensures members[Owners(members, |members|)[i]].framing.header <= frame
  {
    hide Configs, MergedFields, Owners, FieldValue;
    MergedField(members, |members|, i);
    FirstConfig(members);
    MembersFormGroup(members);
    var cs := Configs(members, |members|);
    var k := Structure(cfg, frame).value.0;
    assert k == cfg.fields[i].framingIndex;
    assert cfg.InUse()[k] == cs[k];
    assert cs[k] in cs && Decode(cs[k], frame).Some?;
  }

  /** The frame changes what is shown from the slot. */
  ghost predicate ChangesSlot(members: seq<Member>, cfg: SourceConfig, v: View, frame: Frame, a: int32)
    requires members != [] && Small(members) && ProperMembers(members) && MergedInto(members, cfg)
  {
    MergedIsSound(members, cfg);
    Lookup(PumpOne(cfg, v, frame).slots, a) != Lookup(v.slots, a)
  }

  /** After merging, any frame that reaches the data source changes only slots of fields whose member's
      header stands at the front of the frame. */
  lemma {:induction false} GroupIsolation(members: seq<Member>, cfg: SourceConfig, v: View, frame: Frame, a: int32)
    requires members != [] && Small(members) && ProperMembers(members) && MergedInto(members, cfg)
    requires ChangesSlot(members, cfg, v, frame, a)
    ensures 0 <= a < |cfg.fields|
    ensures members[Owners(members, |members|)[a]].framing.header <= frame
  {
    hide Store, Reading, Owners, MergedInto, Matched, Structure;
    MergedIsSound(members, cfg);
    var i := ChangedByField(cfg, v.slots, frame, 0, a);
    ReadingNeedsHeader(members, cfg, frame, i);
  }

  /** From the line to the slots: a frame the group's splitter cuts off changes only slots of the member
      whose header it was cut at. */
  lemma {:induction false} GroupEndToEnd(members: seq<Member>, cfg: SourceConfig, v: View, s: seq<byte>, a: int32)
    requires members != [] && Small(members) && ProperMembers(members) && MergedInto(members, cfg)
    requires |cfg.framings| > 1 && Step(Settings(cfg.framings[0], cfg.framings), s).Emit?
    requires var frame := s[..Step(Settings(cfg.framings[0], cfg.framings), s).n];
             ChangesSlot(members, cfg, v, frame, a)
    ensures 0 <= a < |cfg.fields|
    ensures FirstMatch(cfg.framings, s, 0) < |cfg.framings|
    ensures members[Owners(members, |members|)[a]].framing.header == cfg.framings[FirstMatch(cfg.framings, s, 0)].header
  {
    hide Step, PumpOne, Owners, Configs, MergedFields;
    var c := Settings(cfg.framings[0], cfg.framings);
    var frame := s[..Step(c, s).n];
    MembersFormGroup(members);
    Attribution(c, s);
    GroupIsolation(members, cfg, v, frame, a);
    MergedField(members, |members|, a);
    var k, m := cfg.fields[a].framingIndex, FirstMatch(cfg.framings, s, 0);
    assert cfg.framings[m].header <= s;
    OneHeaderMatches(cfg.framings, s, k, m);
  }
}
