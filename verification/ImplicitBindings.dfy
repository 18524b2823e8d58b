/** Tags and bindings made for components that are bound to protocol fields directly. */
module ImplicitBindings {
  import opened Bytes
  import opened Values
  import opened Fields
  import opened FieldCodec

  datatype TagDataType = BoolTag | Int16Tag | UInt16Tag | Int32Tag | UInt32Tag | Float32Tag | StringTag

  datatype TagDef = TagDef(name: string, dtype: TagDataType, address: int32)

  datatype Binding = Binding(id: string, component: string, property: string, tag: string)

  datatype BoundComponent = BoundComponent(id: string, typeId: string, bindField: string)

  /** What of the project the synthesis only reads: the fields of every protocol and the slots the
      running data source uses for (protocol, field). */
  datatype Protocols = Protocols(fields: map<string, seq<TagField>>, slots: map<(string, string), int32>)

  // ---- Names ----

  function Find(s: string, ch: char, i: nat): (p: nat)
    requires i <= |s|
    ensures i <= p <= |s| && (p < |s| ==> s[p] == ch)
    decreases |s| - i
  {
    if i == |s| || s[i] == ch then i else Find(s, ch, i + 1)
  }

  predicate Blank(ch: char) { ch == ' ' || ch == '\t' }

  function Trim(s: string): (r: string)
    decreases |s|
  {
    if s != [] && Blank(s[0]) then Trim(s[1..])
    else if s != [] && Blank(s[|s| - 1]) then Trim(s[..|s| - 1])
    else s
  }

  /** "protocol/field", blanks around either part ignored. */
  function SplitBindField(bf: string): Option<(string, string)> {
    var slash := Find(bf, '/', 0);
    if slash == |bf| then None
    else
      var proto, field := Trim(bf[..slash]), Trim(bf[slash + 1..]);
      if proto == "" || field == "" then None else Some((proto, field))
  }

  function FindField(fields: seq<TagField>, name: string): (r: Option<TagField>)
    ensures r.Some? ==> r.value.name == name
  {
    if fields == [] then None
    else if fields[0].name == name then Some(fields[0])
    else FindField(fields[1..], name)
  }

  /** The field a component is bound to and the slot it is shown from. */
  datatype Target = Target(field: TagField, slot: int32)

  function Resolve(ps: Protocols, c: BoundComponent): (r: Option<Target>)
    ensures r.Some? ==> r.value.field.name != ""
  {
    if c.typeId == "DataSource" || c.typeId == "ProtocolConfig" || c.bindField == "" then None
    else
      var names := SplitBindField(c.bindField);
      if names.None? || names.value.0 !in ps.fields then None
      else
        var f := FindField(ps.fields[names.value.0], names.value.1);
        if f.None? then None
        else Some(Target(f.value, if names.value in ps.slots then ps.slots[names.value] else f.value.address))
  }

  function DefaultProperty(typeId: string): string {
    if typeId == "Label" then "text"
    else if typeId == "Lamp" || typeId == "Switch" then "isOn"
    else "value"
  }

  function TagType(f: TagField): TagDataType {
    if f.scale != 1.0 && f.ftype !in {Bool, String, Enum, Hex} then Float32Tag
    else
      match f.ftype
      case I8 | I16 => Int16Tag
      case I32 => Int32Tag
      case U32 => UInt32Tag
      case F32 | F64 => Float32Tag
      case Bool => BoolTag
      case String | Enum | Hex => StringTag
      case _ => UInt16Tag
  }

  function IntText(x: int): string {
    if x < 0 then "-" + Decimal(-x) else Decimal(x)
  }

  /** The one alternative name: the field's index within its own protocol is appended. */
  function Suffixed(f: TagField): string {
    f.name + "@" + IntText(f.address)
  }

  /** The name the renaming loop holds after n turns. */
  function Candidate(f: TagField, n: nat): string {
    if n == 0 then f.name else Suffixed(f)
  }

  // ---- The project ----

  datatype State = State(tags: seq<TagDef>, bindings: seq<Binding>, nextId: nat)

  predicate HasName(tags: seq<TagDef>, name: string) {
    exists i :: 0 <= i < |tags| && tags[i].name == name
  }

  function FirstAt(tags: seq<TagDef>, slot: int32, i: nat): (k: nat)
    requires i <= |tags|
    ensures i <= k <= |tags| && (k < |tags| ==> tags[k].address == slot)
    ensures forall j :: i <= j < k ==> tags[j].address != slot
    decreases |tags| - i
  {
    if i == |tags| || tags[i].address == slot then i else FirstAt(tags, slot, i + 1)
  }

  predicate HasBinding(bindings: seq<Binding>, component: string, property: string) {
    exists i :: 0 <= i < |bindings| && bindings[i].component == component && bindings[i].property == property
  }

  /** The renaming loop ends if some candidate is free, which means one of the first two. */
  lemma {:induction false} RenamingEndsIff(tags: seq<TagDef>, f: TagField)
    ensures (exists n: nat :: !HasName(tags, Candidate(f, n)))
       <==> !HasName(tags, f.name) || !HasName(tags, Suffixed(f))
  {
    assert Candidate(f, 0) == f.name && Candidate(f, 1) == Suffixed(f);
  }

  /** The first free candidate; None if the renaming loop of the source does not end. */
  function NewName(tags: seq<TagDef>, f: TagField): (r: Option<string>)
    ensures r.None? <==> forall n: nat :: HasName(tags, Candidate(f, n))
    ensures r.Some? ==> !HasName(tags, r.value)
  {
    assert Candidate(f, 0) == f.name && Candidate(f, 1) == Suffixed(f);
    if !HasName(tags, f.name) then Some(f.name)
    else if !HasName(tags, Suffixed(f)) then Some(Suffixed(f))
    else None
  }

  /** The tags with one for the target's slot; None if the renaming loop does not end. */
  function WithSlotTag(tags: seq<TagDef>, t: Target): (r: Option<seq<TagDef>>)
    ensures r.Some? ==> tags <= r.value && FirstAt(r.value, t.slot, 0) < |r.value|
  {
    if FirstAt(tags, t.slot, 0) < |tags| then Some(tags)
    else
      var name := NewName(tags, t.field);
      if name.None? then None
      else
        var added := tags + [TagDef(name.value, TagType(t.field), t.slot)];
        assert added[|tags|].address == t.slot;
        Some(added)
  }

  /** One component; None if the renaming loop does not end. */
  function Bind(ps: Protocols, st: State, c: BoundComponent): Option<State> {
    var t := Resolve(ps, c);
    if t.None? then Some(st)
    else
      var tags := WithSlotTag(st.tags, t.value);
      if tags.None? then None
      else
        var prop := DefaultProperty(c.typeId);
        if HasBinding(st.bindings, c.id, prop) then Some(st.(tags := tags.value))
        else
          var tag := tags.value[FirstAt(tags.value, t.value.slot, 0)].name;
          Some(State(tags.value, st.bindings + [Binding("bind-" + IntText(st.nextId), c.id, prop, tag)], st.nextId + 1))
  }

  /** All components from index i on. */
  function BindAll(ps: Protocols, st: State, cs: seq<BoundComponent>, i: nat): Option<State>
    requires i <= |cs|
    decreases |cs| - i
  {
    if i == |cs| then Some(st)
    else
      var r := Bind(ps, st, cs[i]);
      if r.None? then None else BindAll(ps, r.value, cs, i + 1)
  }

  class Project {
    var tags: seq<TagDef>
    var bindings: seq<Binding>
    var nextId: nat

    function View(): State
      reads this
    {
      State(tags, bindings, nextId)
    }

    constructor (tags: seq<TagDef>, bindings: seq<Binding>, nextId: nat)
      ensures View() == State(tags, bindings, nextId)
    {
      this.tags, this.bindings, this.nextId := tags, bindings, nextId;
    }

    /** hung reports that the renaming loop of the source repeats the same name for ever. */
    method Synthesize(ps: Protocols, cs: seq<BoundComponent>) returns (hung: bool)
      modifies this
      ensures var r := BindAll(ps, old(View()), cs, 0);
              hung == r.None? && (!hung ==> View() == r.value)
    {
      hide Bind;
      for i := 0 to |cs|
        invariant BindAll(ps, View(), cs, i) == BindAll(ps, old(View()), cs, 0)
      {
        hung := BindOne(ps, cs[i]);
        if hung {
          return;
        }
      }
      hung := false;
    }

    method BindOne(ps: Protocols, c: BoundComponent) returns (hung: bool)
      modifies this
      ensures var r := Bind(ps, old(View()), c);
              hung == r.None? && (!hung ==> View() == r.value)
    {
      hide Resolve, FirstAt;
      var t := Resolve(ps, c);
      if t.None? {
        return false;
      }
      hung := EnsureTag(t.value);
      if hung {
        return;
      }
      var k := FindTag(t.value.slot);
      var prop := DefaultProperty(c.typeId);
      var exists_ := IsBound(c.id, prop);
      if !exists_ {
        bindings := bindings + [Binding("bind-" + IntText(nextId), c.id, prop, tags[k].name)];
        nextId := nextId + 1;
      }
    }

    method FindTag(slot: int32) returns (k: nat)
      ensures k == FirstAt(tags, slot, 0)
    {
      k := 0;
      while k < |tags|
        invariant k <= |tags| && FirstAt(tags, slot, 0) == FirstAt(tags, slot, k)
      {
        if tags[k].address == slot {
          return;
        }
        k := k + 1;
      }
    }

    method IsNamed(name: string) returns (yes: bool)
      ensures yes == HasName(tags, name)
    {
      for i := 0 to |tags|
        invariant forall j :: 0 <= j < i ==> tags[j].name != name
      {
        if tags[i].name == name {
          return true;
        }
      }
      return false;
    }

    method IsBound(component: string, property: string) returns (yes: bool)
      ensures yes == HasBinding(bindings, component, property)
    {
      for i := 0 to |bindings|
        invariant forall j :: 0 <= j < i ==> !(bindings[j].component == component && bindings[j].property == property)
      {
        if bindings[i].component == component && bindings[i].property == property {
          return true;
        }
      }
      return false;
    }

    /** The renaming loop; hung reports that it has come back to a name it had. */
    method FreeName(f: TagField) returns (name: string, hung: bool)
      ensures hung <==> forall n: nat :: HasName(tags, Candidate(f, n))
      ensures !hung ==> NewName(tags, f) == Some(name)
    {
      name, hung := f.name, false;
      ghost var n: nat := 0;
      var taken := IsNamed(name);
      while taken && !hung
        invariant n <= 2 && name == Candidate(f, n) && taken == HasName(tags, name)
        invariant forall m: nat :: m < n ==> HasName(tags, Candidate(f, m))
        invariant hung <==> n == 2
        invariant hung ==> taken
        decreases 2 - n
      {
        var before := name;
        name := Suffixed(f);
        n := n + 1;
        taken := IsNamed(name);
        hung := name == before;
        SuffixIsNew(f);
      }
      assert hung ==> HasName(tags, Candidate(f, 0)) && HasName(tags, Candidate(f, 1));
      assert n > 0 ==> HasName(tags, Candidate(f, 0));
    }

    /** A tag for the slot, with a name that is free. */
    method EnsureTag(t: Target) returns (hung: bool)
      modifies `tags
      ensures var r := WithSlotTag(old(tags), t);
              hung == r.None? && (!hung ==> tags == r.value)
    {
      var k := FindTag(t.slot);
      if k < |tags| {
        return false;
      }
      var name;
      name, hung := FreeName(t.field);
      if !hung {
        tags := tags + [TagDef(name, TagType(t.field), t.slot)];
      }
    }
  }

  lemma {:induction false} SuffixIsNew(f: TagField)
    ensures Suffixed(f) != f.name
  {
    assert |Suffixed(f)| > |f.name|;
  }

  // ---- Laws ----

  /** Nothing is left to do for the component: its slot has a tag and its default property a binding. */
  ghost predicate Settled(ps: Protocols, st: State, c: BoundComponent) {
    var t := Resolve(ps, c);
    t.Some? ==>
      FirstAt(st.tags, t.value.slot, 0) < |st.tags| && HasBinding(st.bindings, c.id, DefaultProperty(c.typeId))
  }

  ghost predicate Extends(st: State, st': State) {
    st.tags <= st'.tags && st.bindings <= st'.bindings && st.nextId <= st'.nextId
  }

  lemma {:induction false} SettledStays(ps: Protocols, st: State, st': State, c: BoundComponent)
    requires Settled(ps, st, c) && Extends(st, st')
    ensures Settled(ps, st', c)
  {
    hide Resolve;
    var t := Resolve(ps, c);
    if t.Some? {
      assert st'.tags[FirstAt(st.tags, t.value.slot, 0)].address == t.value.slot;
    }
  }

  lemma {:induction false} BindSettles(ps: Protocols, st: State, c: BoundComponent)
    requires Bind(ps, st, c).Some?
    ensures Settled(ps, Bind(ps, st, c).value, c) && Extends(st, Bind(ps, st, c).value)
  {
    hide Resolve, WithSlotTag;
    var st', prop := Bind(ps, st, c).value, DefaultProperty(c.typeId);
    if |st'.bindings| > |st.bindings| {
      assert st'.bindings[|st.bindings|].component == c.id && st'.bindings[|st.bindings|].property == prop;
    }
  }

  lemma {:induction false} SettledBindsNothing(ps: Protocols, st: State, c: BoundComponent)
    requires Settled(ps, st, c)
    ensures Bind(ps, st, c) == Some(st)
  {
    hide Resolve;
  }

  lemma {:induction false} AllSettled(ps: Protocols, st: State, cs: seq<BoundComponent>, i: nat)
    requires i <= |cs| && BindAll(ps, st, cs, i).Some?
    ensures var st' := BindAll(ps, st, cs, i).value;
            Extends(st, st') && forall j :: i <= j < |cs| ==> Settled(ps, st', cs[j])
    decreases |cs| - i
  {
    hide Bind, Settled;
    if i < |cs| {
      var next := Bind(ps, st, cs[i]).value;
      BindSettles(ps, st, cs[i]);
      AllSettled(ps, next, cs, i + 1);
      SettledStays(ps, next, BindAll(ps, st, cs, i).value, cs[i]);
    }
  }

  lemma {:induction false} NothingToBind(ps: Protocols, st: State, cs: seq<BoundComponent>, i: nat)
    requires i <= |cs| && forall j :: i <= j < |cs| ==> Settled(ps, st, cs[j])
    ensures BindAll(ps, st, cs, i) == Some(st)
    decreases |cs| - i
  {
    hide Bind, Settled;
    if i < |cs| {
      SettledBindsNothing(ps, st, cs[i]);
      NothingToBind(ps, st, cs, i + 1);
    }
  }

  // ---- When the synthesis ends ----

  function Names(tags: seq<TagDef>): set<string> {
    set t | t in tags :: t.name
  }

  function Slots(tags: seq<TagDef>): set<int32> {
    set t | t in tags :: t.address
  }

  /** The fields that get a new tag: for every slot without one, the field of the first component shown
      from it. Slots counts the slots that have a tag; the components are those from index i on. */
  function NewFields(ps: Protocols, slots: set<int32>, cs: seq<BoundComponent>, i: nat): seq<TagField>
    requires i <= |cs|
    decreases |cs| - i
  {
    if i == |cs| then []
    else
      var t := Resolve(ps, cs[i]);
      if t.None? || t.value.slot in slots then NewFields(ps, slots, cs, i + 1)
      else [t.value.field] + NewFields(ps, slots + {t.value.slot}, cs, i + 1)
  }

  /** The field's own name is taken: by the project, or by an earlier one of the fields. */
  ghost predicate NeedsSuffix(names: set<string>, fs: seq<TagField>, i: nat)
    requires i < |fs|
  {
    fs[i].name in names || exists j :: 0 <= j < i && fs[j].name == fs[i].name
  }

  /** Fields whose own names are taken have alternatives that are not, and that differ. */
  ghost predicate NamesSuffice(names: set<string>, fs: seq<TagField>) {
    forall i :: 0 <= i < |fs| && NeedsSuffix(names, fs, i) ==>
      && Suffixed(fs[i]) !in names
      && forall j :: 0 <= j < i && NeedsSuffix(names, fs, j) ==> Suffixed(fs[j]) != Suffixed(fs[i])
  }

  /** No field is named like the alternative of a field. */
  predicate PlainNames(fs: seq<TagField>) {
    forall i, j :: 0 <= i < |fs| && 0 <= j < |fs| ==> fs[i].name != Suffixed(fs[j])
  }

  lemma {:induction false} NoAtSignIsPlain(fs: seq<TagField>)
    requires forall i :: 0 <= i < |fs| ==> '@' !in fs[i].name
    ensures PlainNames(fs)
  {
    forall j | 0 <= j < |fs|
      ensures '@' in Suffixed(fs[j])
    {
      assert Suffixed(fs[j])[|fs[j].name|] == '@';
    }
  }

  /** Naming the fields one after the other. */
  ghost predicate CanName(names: set<string>, fs: seq<TagField>)
    decreases |fs|
  {
    if fs == [] then true
    else if fs[0].name !in names then CanName(names + {fs[0].name}, fs[1..])
    else Suffixed(fs[0]) !in names && CanName(names + {Suffixed(fs[0])}, fs[1..])
  }

  lemma {:induction false} BindNames(ps: Protocols, st: State, c: BoundComponent)
    ensures var t, r := Resolve(ps, c), Bind(ps, st, c);
            var names := Names(st.tags);
            if t.None? || t.value.slot in Slots(st.tags) then r.Some? && r.value.tags == st.tags
            else
              var f := t.value.field;
              && (r.None? <==> f.name in names && Suffixed(f) in names)
              && (r.Some? ==>
                    && Names(r.value.tags) == names + {if f.name in names then Suffixed(f) else f.name}
                    && Slots(r.value.tags) == Slots(st.tags) + {t.value.slot})
  {
    hide Resolve, Suffixed, TagType;
    var t := Resolve(ps, c);
    NamesAre(st.tags);
    if t.Some? && t.value.slot !in Slots(st.tags) {
      var name := NewName(st.tags, t.value.field);
      assert FirstAt(st.tags, t.value.slot, 0) == |st.tags|;
      if name.Some? {
        OneMoreTag(st.tags, TagDef(name.value, TagType(t.value.field), t.value.slot));
      }
    } else if t.Some? {
      var tag :| tag in st.tags && tag.address == t.value.slot;
      assert FirstAt(st.tags, t.value.slot, 0) < |st.tags|;
    }
  }

  lemma {:induction false} NamesAre(tags: seq<TagDef>)
    ensures forall x :: x in Names(tags) <==> HasName(tags, x)
  {
    forall x | HasName(tags, x)
      ensures x in Names(tags)
    {
      var i :| 0 <= i < |tags| && tags[i].name == x;
      assert tags[i] in tags;
    }
  }

  lemma {:induction false} OneMoreTag(tags: seq<TagDef>, t: TagDef)
    ensures Names(tags + [t]) == Names(tags) + {t.name} && Slots(tags + [t]) == Slots(tags) + {t.address}
  {
    assert t in tags + [t];
    assert forall u :: u in tags ==> u in tags + [t];
    assert forall u :: u in tags + [t] ==> u in tags || u == t;
  }

  lemma {:induction false} EndsIffNamed(ps: Protocols, st: State, cs: seq<BoundComponent>, i: nat)
    requires i <= |cs|
    ensures BindAll(ps, st, cs, i).Some? <==> CanName(Names(st.tags), NewFields(ps, Slots(st.tags), cs, i))
    decreases |cs| - i
  {
    hide Resolve, Bind, Suffixed, Names, Slots;
    if i < |cs| {
      BindNames(ps, st, cs[i]);
      var r := Bind(ps, st, cs[i]);
      if r.Some? {
        EndsIffNamed(ps, r.value, cs, i + 1);
      }
      var t := Resolve(ps, cs[i]);
      if t.Some? && t.value.slot !in Slots(st.tags) {
        var rest := NewFields(ps, Slots(st.tags) + {t.value.slot}, cs, i + 1);
        assert ([t.value.field] + rest)[1..] == rest;
      }
    }
  }

  /** Naming succeeds exactly if the names suffice. */
  lemma {:induction false} NamedIffSuffice(names: set<string>, fs: seq<TagField>)
    requires PlainNames(fs)
    ensures CanName(names, fs) <==> NamesSuffice(names, fs)
    decreases |fs|
  {
    hide Suffixed, NamesSuffice;
    if fs == [] {
      NothingToName(names, fs);
    } else {
      var f, rest := fs[0], fs[1..];
      var next := names + {if f.name in names then Suffixed(f) else f.name};
      NamedIffSuffice(next, rest);
      SufficeStep(names, fs, next);
    }
  }

  lemma {:induction false} NothingToName(names: set<string>, fs: seq<TagField>)
    requires fs == []
    ensures NamesSuffice(names, fs)
  {
  }

  lemma {:induction false} SufficeStep(names: set<string>, fs: seq<TagField>, next: set<string>)
    requires PlainNames(fs) && fs != []
    requires next == names + {if fs[0].name in names then Suffixed(fs[0]) else fs[0].name}
    ensures NamesSuffice(names, fs) <==>
            (fs[0].name in names ==> Suffixed(fs[0]) !in names) && NamesSuffice(next, fs[1..])
  {
    hide Suffixed;
    var rest := fs[1..];
    forall i | 0 <= i < |rest|
      ensures NeedsSuffix(names, fs, i + 1) <==> NeedsSuffix(next, rest, i)
    {
      NeedsSuffixStep(names, fs, next, i);
    }
    if NamesSuffice(names, fs) {
      forall i | 0 <= i < |rest| && NeedsSuffix(next, rest, i)
        ensures Suffixed(rest[i]) !in next
        ensures forall j :: 0 <= j < i && NeedsSuffix(next, rest, j) ==> Suffixed(rest[j]) != Suffixed(rest[i])
      {
        assert NeedsSuffix(names, fs, i + 1);
        assert fs[0].name in names ==> NeedsSuffix(names, fs, 0);
        forall j | 0 <= j < i && NeedsSuffix(next, rest, j)
          ensures Suffixed(rest[j]) != Suffixed(rest[i])
        {
          assert NeedsSuffix(names, fs, j + 1);
        }
      }
    }
    if (fs[0].name in names ==> Suffixed(fs[0]) !in names) && NamesSuffice(next, rest) {
      forall i | 0 <= i < |fs| && NeedsSuffix(names, fs, i)
        ensures Suffixed(fs[i]) !in names
        ensures forall j :: 0 <= j < i && NeedsSuffix(names, fs, j) ==> Suffixed(fs[j]) != Suffixed(fs[i])
      {
        if i > 0 {
          assert NeedsSuffix(next, rest, i - 1) && fs[i] == rest[i - 1];
          forall j | 0 <= j < i && NeedsSuffix(names, fs, j)
            ensures Suffixed(fs[j]) != Suffixed(fs[i])
          {
            if j > 0 {
              assert NeedsSuffix(next, rest, j - 1) && fs[j] == rest[j - 1];
            }
          }
        }
      }
    }
  }

  lemma {:induction false} NeedsSuffixStep(names: set<string>, fs: seq<TagField>, next: set<string>, i: nat)
    requires PlainNames(fs) && i < |fs| - 1
    requires next == names + {if fs[0].name in names then Suffixed(fs[0]) else fs[0].name}
    ensures NeedsSuffix(names, fs, i + 1) <==> NeedsSuffix(next, fs[1..], i)
  {
    hide Suffixed;
    var rest := fs[1..];
    assert fs[i + 1] == rest[i];
    if j :| 0 <= j < i + 1 && fs[j].name == fs[i + 1].name {
      if j > 0 {
        assert rest[j - 1].name == rest[i].name;
      }
    }
    if j :| 0 <= j < i && rest[j].name == rest[i].name {
      assert fs[j + 1].name == fs[i + 1].name;
    }
  }

  /** The synthesis ends exactly if the names suffice: read off the project's tags, and off the fields
      that have no tag at their slot yet, before anything is done. */
  lemma {:induction false} SynthesisEndsIff(ps: Protocols, st: State, cs: seq<BoundComponent>)
    requires PlainNames(NewFields(ps, Slots(st.tags), cs, 0))
    ensures BindAll(ps, st, cs, 0).Some? <==>
            NamesSuffice(Names(st.tags), NewFields(ps, Slots(st.tags), cs, 0))
  {
    EndsIffNamed(ps, st, cs, 0);
    NamedIffSuffice(Names(st.tags), NewFields(ps, Slots(st.tags), cs, 0));
  }

  /** Whatever the names look like: alternatives that are free in the project, and different from every
      other new field's name and alternative, are enough. */
  lemma {:induction false} DistinctAlternativesSuffice(ps: Protocols, st: State, cs: seq<BoundComponent>)
    requires var fs := NewFields(ps, Slots(st.tags), cs, 0);
             forall i, j :: 0 <= i < |fs| && 0 <= j < |fs| && i != j ==>
               Suffixed(fs[i]) != fs[j].name && Suffixed(fs[i]) != Suffixed(fs[j])
    requires forall f :: f in NewFields(ps, Slots(st.tags), cs, 0) ==> Suffixed(f) !in Names(st.tags)
    ensures BindAll(ps, st, cs, 0).Some?
  {
    hide BindAll, NewFields, Suffixed, Names, Slots;
    var fs := NewFields(ps, Slots(st.tags), cs, 0);
    forall i | 0 <= i < |fs|
      ensures Suffixed(fs[i]) != fs[i].name
    {
      SuffixIsNew(fs[i]);
    }
    SynthesisEndsIff(ps, st, cs);
  }

  /** The synthesis gives every component with a resolvable field a tag at its slot and a binding on its
      default property, and running it again changes no tag, no binding and no id; unless it gets stuck,
      which it does exactly if the names do not suffice. */
  lemma {:induction false} SynthesisIsIdempotent(ps: Protocols, st: State, cs: seq<BoundComponent>)
    ensures var r, fs := BindAll(ps, st, cs, 0), NewFields(ps, Slots(st.tags), cs, 0);
            && (PlainNames(fs) ==> (r.Some? <==> NamesSuffice(Names(st.tags), fs)))
            && (r.Some? ==>
                  && (forall c :: c in cs ==> Settled(ps, r.value, c))
                  && BindAll(ps, r.value, cs, 0) == Some(r.value))
  {
    hide BindAll, NewFields, NamesSuffice, PlainNames, Settled, Names, Slots;
    if PlainNames(NewFields(ps, Slots(st.tags), cs, 0)) {
      SynthesisEndsIff(ps, st, cs);
    }
    if BindAll(ps, st, cs, 0).Some? {
      AllSettled(ps, st, cs, 0);
      NothingToBind(ps, BindAll(ps, st, cs, 0).value, cs, 0);
    }
  }

  // ---- Different slots stay apart ----

  predicate NamesUnique(tags: seq<TagDef>) {
    forall i, j :: 0 <= i < j < |tags| ==> tags[i].name != tags[j].name
  }

  predicate NamesSlot(tags: seq<TagDef>, name: string, slot: int32) {
    exists k :: 0 <= k < |tags| && tags[k].name == name && tags[k].address == slot
  }

  /** The binding was made for this component and names a tag at its slot. */
  ghost predicate MadeFor(ps: Protocols, tags: seq<TagDef>, b: Binding, c: BoundComponent) {
    && Resolve(ps, c).Some?
    && b.component == c.id && b.property == DefaultProperty(c.typeId)
    && NamesSlot(tags, b.tag, Resolve(ps, c).value.slot)
  }

  lemma {:induction false} BindMakes(ps: Protocols, st: State, c: BoundComponent)
    requires Bind(ps, st, c).Some?
    ensures var st' := Bind(ps, st, c).value;
            && (NamesUnique(st.tags) ==> NamesUnique(st'.tags))
            && forall i :: |st.bindings| <= i < |st'.bindings| ==> MadeFor(ps, st'.tags, st'.bindings[i], c)
  {
    hide Resolve;
    var st' := Bind(ps, st, c).value;
    var t := Resolve(ps, c);
    if t.Some? && |st'.bindings| > |st.bindings| {
      var k := FirstAt(st'.tags, t.value.slot, 0);
      assert st'.tags[k].name == st'.bindings[|st.bindings|].tag;
    }
  }

  lemma {:induction false} MadeForStays(ps: Protocols, tags: seq<TagDef>, tags': seq<TagDef>, b: Binding,
                                        c: BoundComponent)
    requires MadeFor(ps, tags, b, c) && tags <= tags'
    ensures MadeFor(ps, tags', b, c)
  {
    hide Resolve;
    var slot := Resolve(ps, c).value.slot;
    var k :| 0 <= k < |tags| && tags[k].name == b.tag && tags[k].address == slot;
    assert tags'[k] == tags[k];
  }

  /** Every binding the synthesis makes names a tag at the slot of the component's field. */
  lemma {:induction false} BindingsNameSlots(ps: Protocols, st: State, cs: seq<BoundComponent>, i: nat, b: nat)
    requires i <= |cs| && BindAll(ps, st, cs, i).Some?
    requires |st.bindings| <= b < |BindAll(ps, st, cs, i).value.bindings|
    ensures var st' := BindAll(ps, st, cs, i).value;
            exists c :: c in cs && MadeFor(ps, st'.tags, st'.bindings[b], c)
    decreases |cs| - i
  {
    hide Bind, MadeFor;
    var next, st' := Bind(ps, st, cs[i]).value, BindAll(ps, st, cs, i).value;
    BindMakes(ps, st, cs[i]);
    AllSettled(ps, next, cs, i + 1);
    if b < |next.bindings| {
      assert st'.bindings[b] == next.bindings[b];
      MadeForStays(ps, next.tags, st'.tags, st'.bindings[b], cs[i]);
    } else {
      BindingsNameSlots(ps, next, cs, i + 1, b);
    }
  }

  lemma {:induction false} NamesStayUnique(ps: Protocols, st: State, cs: seq<BoundComponent>, i: nat)
    requires i <= |cs| && NamesUnique(st.tags) && BindAll(ps, st, cs, i).Some?
    ensures NamesUnique(BindAll(ps, st, cs, i).value.tags)
    decreases |cs| - i
  {
    hide Bind, NamesUnique;
    if i < |cs| {
      BindMakes(ps, st, cs[i]);
      NamesStayUnique(ps, Bind(ps, st, cs[i]).value, cs, i + 1);
    }
  }

  /** Components whose fields have different slots never share a tag through bindings the synthesis
      makes: a frame that drives one of them does not drive the other. */
  lemma {:induction false} DifferentSlotsDifferentTags(ps: Protocols, st: State, cs: seq<BoundComponent>,
                                    a: nat, b: nat, c: BoundComponent, d: BoundComponent)
    requires NamesUnique(st.tags) && BindAll(ps, st, cs, 0).Some?
    requires var st' := BindAll(ps, st, cs, 0).value;
             && |st.bindings| <= a < |st'.bindings| && |st.bindings| <= b < |st'.bindings|
             && MadeFor(ps, st'.tags, st'.bindings[a], c) && MadeFor(ps, st'.tags, st'.bindings[b], d)
    requires Resolve(ps, c).value.slot != Resolve(ps, d).value.slot
    ensures var st' := BindAll(ps, st, cs, 0).value; st'.bindings[a].tag != st'.bindings[b].tag
  {
    hide Resolve, BindAll;
    NamesStayUnique(ps, st, cs, 0);
  }

  // ---- When the renaming loop does not end ----

  /** A new tag is needed for the slot of the component's field. */
  ghost predicate NeedsTag(ps: Protocols, tags: seq<TagDef>, c: BoundComponent) {
    Resolve(ps, c).Some? && FirstAt(tags, Resolve(ps, c).value.slot, 0) == |tags|
  }

  /** The synthesis gets stuck at a component exactly when its field needs a new tag while both the
      field's name and the one alternative are taken. */
  lemma {:induction false} StuckIff(ps: Protocols, st: State, c: BoundComponent)
    ensures Bind(ps, st, c).None? <==>
            && NeedsTag(ps, st.tags, c)
            && HasName(st.tags, Resolve(ps, c).value.field.name)
            && HasName(st.tags, Suffixed(Resolve(ps, c).value.field))
  {
    hide Resolve, HasName;
  }

  lemma {:induction false} BindTakesName(ps: Protocols, st: State, c: BoundComponent)
    requires NeedsTag(ps, st.tags, c) && Bind(ps, st, c).Some?
    ensures var f, st' := Resolve(ps, c).value.field, Bind(ps, st, c).value;
            && st'.tags == st.tags + [TagDef(if HasName(st.tags, f.name) then Suffixed(f) else f.name,
                                            TagType(f), Resolve(ps, c).value.slot)]
            && HasName(st'.tags, f.name)
            && (HasName(st.tags, f.name) ==> HasName(st'.tags, Suffixed(f)))
  {
    hide Resolve, TagType;
    var st' := Bind(ps, st, c).value;
    assert st'.tags[|st.tags|].address == Resolve(ps, c).value.slot;
    if HasName(st.tags, Resolve(ps, c).value.field.name) {
      var i :| 0 <= i < |st.tags| && st.tags[i].name == Resolve(ps, c).value.field.name;
      assert st'.tags[i] == st.tags[i];
    }
  }

  lemma {:induction false} StillNeedsTag(ps: Protocols, tags: seq<TagDef>, t: TagDef, c: BoundComponent)
    requires NeedsTag(ps, tags, c) && t.address != Resolve(ps, c).value.slot
    ensures NeedsTag(ps, tags + [t], c)
  {
    hide Resolve;
  }

  /** Three protocols whose fields have the same name and the same index, shown from three slots
      without tags, always get the synthesis stuck, whatever else the project holds. */
  lemma {:induction false} ThreeNamesakesGetStuck(ps: Protocols, st: State, c: BoundComponent, d: BoundComponent,
                                             e: BoundComponent)
    requires NeedsTag(ps, st.tags, c) && NeedsTag(ps, st.tags, d) && NeedsTag(ps, st.tags, e)
    requires var t, u, v := Resolve(ps, c).value, Resolve(ps, d).value, Resolve(ps, e).value;
             && t.field.name == u.field.name == v.field.name
             && t.field.address == u.field.address == v.field.address
             && t.slot != u.slot && u.slot != v.slot && t.slot != v.slot
    ensures BindAll(ps, st, [c, d, e], 0).None?
  {
    hide Resolve, Bind, HasName, NeedsTag;
    var cs := [c, d, e];
    var r1 := Bind(ps, st, c);
    if r1.Some? {
      var tags1 := r1.value.tags;
      BindTakesName(ps, st, c);
      StillNeedsTag(ps, st.tags, tags1[|st.tags|], d);
      StillNeedsTag(ps, st.tags, tags1[|st.tags|], e);
      var r2 := Bind(ps, r1.value, d);
      if r2.Some? {
        BindTakesName(ps, r1.value, d);
        StillNeedsTag(ps, tags1, r2.value.tags[|tags1|], e);
        StuckIff(ps, r2.value, e);
        assert BindAll(ps, r2.value, cs, 2).None?;
      }
      assert BindAll(ps, r1.value, cs, 1).None?;
    }
  }
}
