/** What a component's field binding means, letter by letter, and what the synthesis makes of it for a whole
    project: which slot each component is shown from, under which tag, by which binding. */
module BoundFields {
  import opened Bytes
  import opened Values
  import opened Fields
  import opened FieldCodec
  import opened FieldMeaning
  import opened ImplicitBindings

  // ---- The text of a binding ----

  predicate Blanks(s: string) {
    forall i :: 0 <= i < |s| ==> s[i] == ' ' || s[i] == '\t'
  }

  /** A name that neither begins nor ends with a blank. */
  predicate IsName(s: string) {
    s != "" && !Blanks(s[..1]) && !Blanks(s[|s| - 1..])
  }

  /** The protocol's name, a slash, and the field's name; blanks around either are ignored. The first slash counts. */
  ghost predicate Spells(text: string, proto: string, field: string) {
    && IsName(proto) && IsName(field) && '/' !in proto
    && exists a, b, c, d ::
         Blanks(a) && Blanks(b) && Blanks(c) && Blanks(d) && text == Spelled(a, proto, b, c, field, d)
  }

  function Spelled(a: string, proto: string, b: string, c: string, field: string, d: string): string {
    (a + proto + b) + "/" + (c + field + d)
  }

  lemma {:induction false} TrimIs(s: string) returns (a: string, b: string)
    ensures Blanks(a) && Blanks(b) && s == a + Trim(s) + b && (Trim(s) == "" || IsName(Trim(s)))
    decreases |s|
  {
    hide Blanks, Trim, IsName;
    TrimUnfolds(s);
    if s != "" && Blank(s[0]) {
      var x, t := s[..1], Trim(s[1..]);
      a, b := TrimIs(s[1..]);
      assert s == x + (a + t + b) == x + a + t + b;
      BlanksJoin(x, a);
      a := x + a;
    } else if s != "" && Blank(s[|s| - 1]) {
      var x, t := s[|s| - 1..], Trim(s[..|s| - 1]);
      a, b := TrimIs(s[..|s| - 1]);
      assert s == (a + t + b) + x == a + t + (b + x);
      BlanksJoin(b, x);
      b := b + x;
    } else {
      a, b := "", "";
      assert s == "" + s + "";
    }
  }

  lemma {:induction false} BlanksJoin(a: string, b: string)
    ensures Blanks("") && (Blanks(a) && Blanks(b) ==> Blanks(a + b))
  {
  }

  lemma {:induction false} TrimUnfolds(s: string)
    ensures Blanks("")
    ensures s != "" ==> (Blank(s[0]) <==> Blanks(s[..1])) && (Blank(s[|s| - 1]) <==> Blanks(s[|s| - 1..]))
    ensures Trim(s) ==
            if s != "" && Blank(s[0]) then Trim(s[1..])
            else if s != "" && Blank(s[|s| - 1]) then Trim(s[..|s| - 1])
            else s
    ensures s != "" && !Blank(s[0]) && !Blank(s[|s| - 1]) ==> IsName(s)
  {
    if s != "" {
      assert s[..1][0] == s[0] && s[|s| - 1..][0] == s[|s| - 1];
    }
  }

  lemma {:induction false} TrimDrops(a: string, name: string, b: string)
    requires Blanks(a) && Blanks(b) && IsName(name)
    ensures Trim(a + name + b) == name
    decreases |a| + |b|
  {
    hide Trim, Blank;
    var s := a + name + b;
    TrimUnfolds(s);
    if a != "" {
      assert s[..1] == a[..1] && s[1..] == a[1..] + name + b;
      TrimDrops(a[1..], name, b);
    } else {
      assert s[..1] == name[..1];
      if b != "" {
        assert s[|s| - 1..] == b[|b| - 1..] && s[..|s| - 1] == a + name + b[..|b| - 1];
        TrimDrops(a, name, b[..|b| - 1]);
      } else {
        assert s == name;
      }
    }
  }

  lemma {:induction false} FirstSlash(text: string, before: string, after: string)
    requires text == before + "/" + after && '/' !in before
    ensures Find(text, '/', 0) == |before| && text[..|before|] == before && text[|before| + 1..] == after
  {
    var p := Find(text, '/', 0);
    assert text[|before|] == '/';
    FindAtMost(text, '/', 0, |before|);
    forall i | 0 <= i < |before|
      ensures text[i] != '/'
    {
      assert text[i] == before[i] && before[i] in before;
    }
  }

  lemma {:induction false} FindAtMost(s: string, ch: char, i: nat, k: nat)
    requires i <= k < |s| && s[k] == ch
    ensures Find(s, ch, i) <= k
    decreases k - i
  {
    if s[i] != ch {
      FindAtMost(s, ch, i + 1, k);
    }
  }

  lemma {:induction false} FindFirst(s: string, ch: char, i: nat)
    requires i <= |s|
    ensures forall j :: i <= j < Find(s, ch, i) ==> s[j] != ch
    decreases |s| - i
  {
    if i < |s| && s[i] != ch {
      FindFirst(s, ch, i + 1);
    }
  }

  /** Splitting a binding finds two names exactly if it spells them. */
  lemma {:induction false} SplitsIff(text: string, proto: string, field: string)
    ensures SplitBindField(text) == Some((proto, field)) <==> Spells(text, proto, field)
  {
    hide Trim, Find;
    if Spells(text, proto, field) {
      var a, b, c, d :| Blanks(a) && Blanks(b) && Blanks(c) && Blanks(d) && text == Spelled(a, proto, b, c, field, d);
      FirstSlash(text, a + proto + b, c + field + d);
      TrimDrops(a, proto, b);
      TrimDrops(c, field, d);
    }
    if SplitBindField(text) == Some((proto, field)) {
      var slash := Find(text, '/', 0);
      var before, after := text[..slash], text[slash + 1..];
      FindFirst(text, '/', 0);
      var a, b := TrimIs(before);
      var c, d := TrimIs(after);
      assert text == before + "/" + after;
      assert forall i :: 0 <= i < |proto| ==> proto[i] == before[|a| + i];
      assert text == Spelled(a, proto, b, c, field, d);
    }
  }

  lemma {:induction false} SpellsOneWay(text: string, proto: string, field: string, proto': string, field': string)
    requires Spells(text, proto, field) && Spells(text, proto', field')
    ensures proto == proto' && field == field'
  {
    hide SplitBindField, Spells;
    SplitsIff(text, proto, field);
    SplitsIff(text, proto', field');
  }

  // ---- The field and its slot ----

  /** f is the protocol's first field of that name. */
  ghost predicate FirstNamed(fields: seq<TagField>, name: string, f: TagField) {
    exists i: nat :: IsFirstNamed(fields, name, i) && fields[i] == f
  }

  predicate IsFirstNamed(fields: seq<TagField>, name: string, i: nat) {
    i < |fields| && fields[i].name == name && forall j :: 0 <= j < i ==> fields[j].name != name
  }

  lemma {:induction false} FindFieldIs(fields: seq<TagField>, name: string, f: TagField)
    ensures FindField(fields, name) == Some(f) <==> FirstNamed(fields, name, f)
  {
    if fields != [] {
      if fields[0].name == name {
        assert IsFirstNamed(fields, name, 0);
      } else {
        FindFieldIs(fields[1..], name, f);
        if i: nat :| IsFirstNamed(fields[1..], name, i) && fields[1..][i] == f {
          assert IsFirstNamed(fields, name, i + 1);
        }
        if i: nat :| IsFirstNamed(fields, name, i) && fields[i] == f {
          assert IsFirstNamed(fields[1..], name, i - 1);
        }
      }
    }
  }

  /** The component is bound to field f of this protocol and name: it is neither a data source nor a protocol. */
  ghost predicate BoundTo(ps: Protocols, c: BoundComponent, proto: string, name: string, f: TagField) {
    && c.typeId != "DataSource" && c.typeId != "ProtocolConfig"
    && Spells(c.bindField, proto, name)
    && proto in ps.fields && FirstNamed(ps.fields[proto], name, f)
  }

  /** The slot the running data source uses for the field, or else the field's own index. */
  function SlotOf(ps: Protocols, proto: string, name: string, f: TagField): int32 {
    if (proto, name) in ps.slots then ps.slots[(proto, name)] else f.address
  }

  ghost predicate ShownFrom(ps: Protocols, c: BoundComponent, f: TagField, slot: int32) {
    exists proto, name :: BoundTo(ps, c, proto, name, f) && slot == SlotOf(ps, proto, name, f)
  }

  lemma {:induction false} ResolvesIff(ps: Protocols, c: BoundComponent, f: TagField, slot: int32)
    ensures Resolve(ps, c) == Some(Target(f, slot)) <==> ShownFrom(ps, c, f, slot)
  {
    hide SplitBindField, Spells, FindField, FirstNamed;
    var names := SplitBindField(c.bindField);
    if names.Some? {
      var proto, name := names.value.0, names.value.1;
      SplitsIff(c.bindField, proto, name);
      if proto in ps.fields {
        FindFieldIs(ps.fields[proto], name, f);
        if Resolve(ps, c) == Some(Target(f, slot)) {
          SpelledNotEmpty(c.bindField, proto, name);
          assert BoundTo(ps, c, proto, name, f) && slot == SlotOf(ps, proto, name, f);
        }
      }
    }
    if proto, name :| BoundTo(ps, c, proto, name, f) && slot == SlotOf(ps, proto, name, f) {
      SplitsIff(c.bindField, proto, name);
      SpelledNotEmpty(c.bindField, proto, name);
      FindFieldIs(ps.fields[proto], name, f);
    }
  }

  lemma {:induction false} SpelledNotEmpty(text: string, proto: string, field: string)
    requires Spells(text, proto, field)
    ensures text != ""
  {
  }

  // ---- What is made for one component ----

  /** A text property shows the field of a label, a flag that of a lamp or switch, a value that of the others. */
  predicate IsProperty(c: BoundComponent, property: string) {
    && (property == "text" <==> c.typeId == "Label")
    && (property == "isOn" <==> c.typeId == "Lamp" || c.typeId == "Switch")
    && (property == "text" || property == "isOn" || property == "value")
  }

  lemma {:induction false} PropertyIs(c: BoundComponent, property: string)
    ensures property == DefaultProperty(c.typeId) <==> IsProperty(c, property)
  {
  }

  /** Texts take texts and flags flags; a scaled number takes a real one, and so does a float; whole numbers take
      their own width and sign, small and plain-text ones 16 bits. */
  predicate TakesField(t: TagDataType, f: TagField) {
    match f.ftype
    case String | Enum | Hex => t == StringTag
    case Bool => t == BoolTag
    case F32 | F64 => t == Float32Tag
    case U8 | U16 | Ascii => t == if f.scale == 1.0 then UInt16Tag else Float32Tag
    case I8 | I16 => t == if f.scale == 1.0 then Int16Tag else Float32Tag
    case U32 => t == if f.scale == 1.0 then UInt32Tag else Float32Tag
    case I32 => t == if f.scale == 1.0 then Int32Tag else Float32Tag
  }

  lemma {:induction false} TypeTakesField(f: TagField)
    ensures TakesField(TagType(f), f)
  {
  }

  predicate IsSigned(t: string, x: int) {
    if x < 0 then |t| > 0 && t[0] == '-' && IsDecimalOf(t[1..], -x) else IsDecimalOf(t, x)
  }

  lemma {:induction false} IntTextIs(x: int)
    ensures IsSigned(IntText(x), x)
  {
    hide Decimal, IsDecimalOf;
    if x < 0 {
      DecimalIs(-x);
      assert IntText(x)[1..] == Decimal(-x);
    } else {
      DecimalIs(x);
    }
  }

  predicate IsTaken(tags: seq<TagDef>, name: string) {
    exists i :: 0 <= i < |tags| && tags[i].name == name
  }

  /** The name is the field's if that is free, else the field's with its own index behind an '@'. */
  ghost predicate IsNewName(tags: seq<TagDef>, f: TagField, name: string) {
    && !IsTaken(tags, name)
    && if IsTaken(tags, f.name) then exists t :: IsSigned(t, f.address) && name == f.name + "@" + t else name == f.name
  }

  lemma {:induction false} NewNameIs(tags: seq<TagDef>, f: TagField)
    ensures NewName(tags, f).Some? ==> IsNewName(tags, f, NewName(tags, f).value)
  {
    hide IntText, IsSigned;
    IntTextIs(f.address);
  }

  /** The tag was made for the component: at its slot, where there was no tag before. */
  ghost predicate TagMadeFor(ps: Protocols, before: seq<TagDef>, t: TagDef, c: BoundComponent) {
    && (forall i :: 0 <= i < |before| ==> before[i].address != t.address)
    && exists f :: ShownFrom(ps, c, f, t.address) && TakesField(t.dtype, f) && IsNewName(before, f, t.name)
  }

  /** The binding was made for the component: on its property, which had none before, to the first tag at its
      slot, with the next free number. */
  ghost predicate BindingMadeFor(ps: Protocols, tags: seq<TagDef>, before: seq<Binding>, number: nat, b: Binding,
                                 c: BoundComponent)
  {
    && b.component == c.id && IsProperty(c, b.property)
    && (forall i :: 0 <= i < |before| ==> before[i].component != b.component || before[i].property != b.property)
    && (exists t :: IsDecimalOf(t, number) && b.id == "bind-" + t)
    && exists f, slot :: ShownFrom(ps, c, f, slot) && FirstTagAt(tags, slot, b.tag)
  }

  ghost predicate FirstTagAt(tags: seq<TagDef>, slot: int32, name: string) {
    exists k: nat :: IsFirstAt(tags, slot, k) && tags[k].name == name
  }

  predicate IsFirstAt(tags: seq<TagDef>, slot: int32, k: nat) {
    k < |tags| && tags[k].address == slot && forall j :: 0 <= j < k ==> tags[j].address != slot
  }

  /** What one component changes: at most one tag and one binding are made, for it. */
  ghost predicate Step(ps: Protocols, st: State, c: BoundComponent, st': State) {
    && (st'.tags == st.tags
        || (|st'.tags| == |st.tags| + 1 && st.tags <= st'.tags && TagMadeFor(ps, st.tags, st'.tags[|st.tags|], c)))
    && ((st'.bindings == st.bindings && st'.nextId == st.nextId)
        || (|st'.bindings| == |st.bindings| + 1 && st.bindings <= st'.bindings && st'.nextId == st.nextId + 1
            && BindingMadeFor(ps, st'.tags, st.bindings, st.nextId, st'.bindings[|st.bindings|], c)))
  }

  lemma {:induction false} BindSteps(ps: Protocols, st: State, c: BoundComponent)
    requires Bind(ps, st, c).Some?
    ensures Step(ps, st, c, Bind(ps, st, c).value)
  {
    hide Resolve, WithSlotTag, TagMadeFor, BindingMadeFor, TagType, DefaultProperty;
    var t, st' := Resolve(ps, c), Bind(ps, st, c).value;
    if t.Some? {
      ResolvesIff(ps, c, t.value.field, t.value.slot);
      TagSteps(ps, st.tags, c, t.value);
      if |st'.bindings| > |st.bindings| {
        BindingSteps(ps, st'.tags, st, c, t.value, st'.bindings[|st.bindings|]);
      }
    }
  }

  lemma {:induction false} TagSteps(ps: Protocols, tags: seq<TagDef>, c: BoundComponent, t: Target)
    requires ShownFrom(ps, c, t.field, t.slot) && WithSlotTag(tags, t).Some?
    ensures var tags' := WithSlotTag(tags, t).value;
            tags' == tags
            || (|tags'| == |tags| + 1 && tags <= tags' && TagMadeFor(ps, tags, tags'[|tags|], c))
  {
    hide ShownFrom, IsNewName, NewName, TagType, TakesField;
    NewNameIs(tags, t.field);
    TypeTakesField(t.field);
    assert FirstAt(tags, t.slot, 0) == |tags| ==> forall i :: 0 <= i < |tags| ==> tags[i].address != t.slot;
  }

  lemma {:induction false} BindingSteps(ps: Protocols, tags: seq<TagDef>, st: State, c: BoundComponent, t: Target,
                                        b: Binding)
    requires ShownFrom(ps, c, t.field, t.slot) && FirstAt(tags, t.slot, 0) < |tags|
    requires !HasBinding(st.bindings, c.id, DefaultProperty(c.typeId))
    requires b == Binding("bind-" + IntText(st.nextId), c.id, DefaultProperty(c.typeId),
                          tags[FirstAt(tags, t.slot, 0)].name)
    ensures BindingMadeFor(ps, tags, st.bindings, st.nextId, b, c)
  {
    hide ShownFrom, IsDecimalOf, IntText, DefaultProperty, IsProperty;
    PropertyIs(c, b.property);
    NumberIs(st.nextId);
    assert IsFirstAt(tags, t.slot, FirstAt(tags, t.slot, 0));
  }

  lemma {:induction false} NumberIs(n: nat)
    ensures IsDecimalOf(IntText(n), n)
  {
    IntTextIs(n);
  }

  // ---- The whole project ----

  /** One component after the other, from index i on. */
  ghost predicate Steps(ps: Protocols, st: State, cs: seq<BoundComponent>, i: nat, st': State)
    requires i <= |cs|
    decreases |cs| - i
  {
    if i == |cs| then st' == st
    else exists mid :: Step(ps, st, cs[i], mid) && SettledAs(ps, mid, cs[i]) && Steps(ps, mid, cs, i + 1, st')
  }

  /** A component that shows a field has a tag at the field's slot and a binding on its property. */
  ghost predicate SettledAs(ps: Protocols, st: State, c: BoundComponent) {
    forall f, slot :: ShownFrom(ps, c, f, slot) ==>
      && (exists k: nat :: IsFirstAt(st.tags, slot, k))
      && exists b :: b in st.bindings && b.component == c.id && IsProperty(c, b.property)
  }

  lemma {:induction false} SettledIs(ps: Protocols, st: State, c: BoundComponent)
    requires Settled(ps, st, c)
    ensures SettledAs(ps, st, c)
  {
    hide Resolve, ShownFrom, DefaultProperty, IsProperty;
    forall f, slot | ShownFrom(ps, c, f, slot)
      ensures exists k: nat :: IsFirstAt(st.tags, slot, k)
      ensures exists b :: b in st.bindings && b.component == c.id && IsProperty(c, b.property)
    {
      ResolvesIff(ps, c, f, slot);
      assert IsFirstAt(st.tags, slot, FirstAt(st.tags, slot, 0));
      var i :| 0 <= i < |st.bindings| && st.bindings[i].component == c.id
               && st.bindings[i].property == DefaultProperty(c.typeId);
      PropertyIs(c, st.bindings[i].property);
      assert st.bindings[i] in st.bindings;
    }
  }

  /** A synthesis that ends goes through the components in order; each that shows a field, and no other, gets a tag
      at the slot of its field unless there is one, and a binding to it unless its property has one. */
  lemma {:induction false} SynthesisSteps(ps: Protocols, st: State, cs: seq<BoundComponent>, i: nat)
    requires i <= |cs| && BindAll(ps, st, cs, i).Some?
    ensures Steps(ps, st, cs, i, BindAll(ps, st, cs, i).value)
    decreases |cs| - i
  {
    hide Bind, Step, SettledAs, Settled;
    if i < |cs| {
      var mid := Bind(ps, st, cs[i]).value;
      BindSteps(ps, st, cs[i]);
      BindSettles(ps, st, cs[i]);
      SettledIs(ps, mid, cs[i]);
      SynthesisSteps(ps, mid, cs, i + 1);
    }
  }

  // ---- Slots decide what is shown ----

  /** Component c shows the field the data source keeps in this slot. */
  ghost predicate InSlot(ps: Protocols, c: BoundComponent, slot: int32) {
    exists proto, name, f ::
      BoundTo(ps, c, proto, name, f) && (proto, name) in ps.slots && ps.slots[(proto, name)] == slot
  }

  lemma {:induction false} SlotIsEffective(ps: Protocols, c: BoundComponent, f: TagField, slot: int32, run: int32)
    requires ShownFrom(ps, c, f, slot) && InSlot(ps, c, run)
    ensures slot == run
  {
    hide Spells, FirstNamed;
    var proto, name :| BoundTo(ps, c, proto, name, f) && slot == SlotOf(ps, proto, name, f);
    var proto', name', f' :|
      BoundTo(ps, c, proto', name', f') && (proto', name') in ps.slots && ps.slots[(proto', name')] == run;
    SpellsOneWay(c.bindField, proto, name, proto', name');
  }

  predicate DifferentIds(cs: seq<BoundComponent>) {
    forall i, j :: 0 <= i < j < |cs| ==> cs[i].id != cs[j].id
  }

  /** Every binding made for a component whose field the data source keeps in a slot names a tag with that
      slot as its address. */
  lemma {:induction false} BindingsFollowSlots(ps: Protocols, st: State, cs: seq<BoundComponent>, b: nat,
                                              c: BoundComponent, slot: int32)
    requires DifferentIds(cs) && c in cs && InSlot(ps, c, slot) && BindAll(ps, st, cs, 0).Some?
    requires |st.bindings| <= b < |BindAll(ps, st, cs, 0).value.bindings|
    requires BindAll(ps, st, cs, 0).value.bindings[b].component == c.id
    ensures var st' := BindAll(ps, st, cs, 0).value; NamesSlot(st'.tags, st'.bindings[b].tag, slot)
  {
    hide BindAll, InSlot, Resolve, NamesSlot;
    var st' := BindAll(ps, st, cs, 0).value;
    BindingsNameSlots(ps, st, cs, 0, b);
    var d :| d in cs && MadeFor(ps, st'.tags, st'.bindings[b], d);
    assert d == c;
    var t := Resolve(ps, c).value;
    ResolvesIff(ps, c, t.field, t.slot);
    SlotIsEffective(ps, c, t.field, t.slot, slot);
  }

  /** Components whose fields the data source keeps in different slots never share a tag through bindings made. */
  lemma {:induction false} EffectiveSlotsStayApart(ps: Protocols, st: State, cs: seq<BoundComponent>, a: nat, b: nat,
                                                  c: BoundComponent, d: BoundComponent, slot: int32, slot': int32)
    requires NamesUnique(st.tags) && DifferentIds(cs) && c in cs && d in cs && BindAll(ps, st, cs, 0).Some?
    requires InSlot(ps, c, slot) && InSlot(ps, d, slot') && slot != slot'
    requires var st' := BindAll(ps, st, cs, 0).value;
             && |st.bindings| <= a < |st'.bindings| && st'.bindings[a].component == c.id
             && |st.bindings| <= b < |st'.bindings| && st'.bindings[b].component == d.id
    ensures var st' := BindAll(ps, st, cs, 0).value; st'.bindings[a].tag != st'.bindings[b].tag
  {
    hide BindAll, InSlot;
    BindingsFollowSlots(ps, st, cs, a, c, slot);
    BindingsFollowSlots(ps, st, cs, b, d, slot');
    NamesStayUnique(ps, st, cs, 0);
  }
}
