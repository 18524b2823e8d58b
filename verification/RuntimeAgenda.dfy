/** The reactions of the engine told as one agenda that is worked off from the front, each item spelled out:
    the recursive cascade, the refresh of bindings and the evaluation of alarms do exactly that. */
module RuntimeAgenda {
  import opened Values
  import opened RuntimeModel
  import opened RuntimeCascade

  type Linkage = a: Association | a.LinkageRule? witness LinkageRule("", "", Click, "", Navigate, "", BoolProp(false))

  type Binding = a: Association | a.DataBinding? witness DataBinding("", "", "", "")

  type Alarm = a: Association | a.AlarmRule? witness AlarmRule("", "", GT, 0.0, false, [])

  /** Do: carry out a rule. Show: refresh a bound property. Watch: look at an alarm rule. */
  datatype Item = Do(rule: Linkage, depth: nat) | Show(binding: Binding) | Watch(alarm: Alarm)

  // ---- What values mean ----

  /** A tag value as a number: a flag counts 1 or 0, a text 0. */
  function Number(v: TagValue): real {
    if v.BoolValue? then (if v.b then 1.0 else 0.0)
    else if v.IntValue? then v.i as real
    else if v.RealValue? then v.r
    else 0.0
  }

  predicate Exceeds(r: Alarm, v: TagValue) {
    && (r.cmp == GT ==> Number(v) > r.threshold)
    && (r.cmp == GE ==> Number(v) > r.threshold || Number(v) == r.threshold)
    && (r.cmp == LT ==> Number(v) < r.threshold)
    && (r.cmp == LE ==> Number(v) < r.threshold || Number(v) == r.threshold)
    && (r.cmp == EQ ==> Number(v) == r.threshold)
    && (r.cmp == NE ==> Number(v) < r.threshold || Number(v) > r.threshold)
  }

  predicate Declares(env: Env, comps: map<string, Component>, id: string, key: string, t: SpecType) {
    id in comps && (comps[id].typeId, key) in env.specs && env.specs[(comps[id].typeId, key)] == t
  }

  /** What a property shows of a tag value: texts stay texts; a text property spells the value, a flag tells
      whether it is not zero, any other property takes the number. */
  function Depicted(env: Env, comps: map<string, Component>, id: string, key: string, v: TagValue): PropertyValue {
    if v.TextValue? then TextProp(v.s)
    else if Declares(env, comps, id, key, TextSpec) then
      (if v.BoolValue? then TextProp(if v.b then "true" else "false") else TextProp(env.format(v)))
    else if Declares(env, comps, id, key, BoolSpec) then
      BoolProp((v.BoolValue? && v.b) || (v.IntValue? && v.i != 0) || (v.RealValue? && v.r != 0.0))
    else if v.RealValue? then RealProp(v.r)
    else IntProp(if v.IntValue? then v.i else if v.b then 1 else 0)
  }

  // ---- What is to be done ----

  /** The rules that react to an event of a component, from association i on, in their order. */
  function Reactions(env: Env, source: string, ev: LinkageEvent, depth: nat, i: nat): seq<Item>
    requires i <= |env.assocs|
    decreases |env.assocs| - i
  {
    if i == |env.assocs| then []
    else
      var a := env.assocs[i];
      (if a.LinkageRule? && a.source == source && a.event == ev then [Do(a, depth)] else [])
      + Reactions(env, source, ev, depth, i + 1)
  }

  function ReactionsOfAll(env: Env, ids: seq<string>, ev: LinkageEvent, depth: nat): seq<Item> {
    if ids == [] then [] else Reactions(env, ids[0], ev, depth, 0) + ReactionsOfAll(env, ids[1..], ev, depth)
  }

  /** The properties bound to a tag. */
  function Shows(env: Env, tag: string, i: nat): seq<Item>
    requires i <= |env.assocs|
    decreases |env.assocs| - i
  {
    if i == |env.assocs| then []
    else
      var a := env.assocs[i];
      (if a.DataBinding? && a.tag == tag then [Show(a)] else []) + Shows(env, tag, i + 1)
  }

  function Watches(env: Env, tag: string, i: nat): seq<Item>
    requires i <= |env.assocs|
    decreases |env.assocs| - i
  {
    if i == |env.assocs| then []
    else
      var a := env.assocs[i];
      (if a.AlarmRule? && a.tag == tag then [Watch(a)] else []) + Watches(env, tag, i + 1)
  }

  /** The components of the properties bound to a tag. */
  function ComponentsOn(env: Env, tag: string, i: nat): seq<string>
    requires i <= |env.assocs|
    decreases |env.assocs| - i
  {
    if i == |env.assocs| then []
    else
      var a := env.assocs[i];
      (if a.DataBinding? && a.tag == tag then [a.component] else []) + ComponentsOn(env, tag, i + 1)
  }

  // ---- How an item is done ----

  /** Property key of component id becomes v: visibility takes flags and numbers only; any other property takes
      everything, and so does the overlay of a bound one. */
  function Put(env: Env, st: State, id: string, key: string, v: PropertyValue): State
    requires id in st.comps
  {
    var c := st.comps[id];
    if key == "visible" then
      var visible := if v.BoolProp? then v.b else if v.IntProp? then v.i != 0 else c.visible;
      st.(comps := st.comps[id := Component(c.typeId, visible, c.props)])
    else
      var isBound := exists i :: 0 <= i < |env.assocs| && env.assocs[i].DataBinding?
                                 && env.assocs[i].component == id && env.assocs[i].property == key;
      st.(comps := st.comps[id := Component(c.typeId, c.visible, c.props[key := v])],
          bound := if isBound then st.bound[(id, key) := v] else st.bound)
  }

  /** A property value as a tag takes it; colours and vectors do not fit and become an empty text. */
  function Written(v: PropertyValue): TagValue {
    if v.BoolProp? then BoolValue(v.b)
    else if v.IntProp? then IntValue(v.i)
    else if v.RealProp? then RealValue(v.r)
    else TextValue(if v.TextProp? then v.s else "")
  }

  /** The effect of one rule, its consequences apart. */
  function Done(env: Env, st: State, l: Linkage): State {
    var st := st.(executed := st.executed + 1);
    if l.action == Navigate then st.(actions := st.actions + [NavigateTo(l.param)])
    else if l.action == SetTagValue then st.(actions := st.actions + [WriteTag(l.param, Written(l.value))])
    else if l.action == Pulse then st.(pulse := st.pulse[l.target := st.now + 400])
    else if l.target !in st.comps then st
    else if l.action == SetProperty then Put(env, st, l.target, l.param, l.value)
    else
      var c := st.comps[l.target];
      st.(comps := st.comps[l.target := Component(c.typeId, !c.visible, c.props)])
  }

  /** What follows from a rule: a property that was set makes the rules of its component react. */
  function Consequences(env: Env, st: State, l: Linkage, depth: nat): seq<Item> {
    if l.action == SetProperty && l.target in st.comps then Reactions(env, l.target, ValueChanged, depth + 1, 0) else []
  }

  function Without(s: seq<string>, x: string): seq<string> {
    if s == [] then [] else if s[0] == x then Without(s[1..], x) else [s[0]] + Without(s[1..], x)
  }

  function AlarmNow(st: State, r: Alarm): AlarmState {
    if r.id in st.alarms then st.alarms[r.id] else AlarmState(false, false)
  }

  predicate Raised(st: State, r: Alarm) {
    r.tag in st.tags && st.tags[r.tag].quality == Good && Exceeds(r, st.tags[r.tag].value)
  }

  /** The alarm goes on, off, or stays as it is. */
  function Watched(st: State, r: Alarm): State {
    var a := AlarmNow(st, r);
    if Raised(st, r) && !a.active then
      st.(alarms := st.alarms[r.id := AlarmState(true, r.latching || a.latched)],
          fired := if r.id in st.fired then st.fired else st.fired + [r.id])
    else if !Raised(st, r) && a.active && !a.latched then
      st.(alarms := st.alarms[r.id := AlarmState(false, false)], fired := Without(st.fired, r.id))
    else st.(alarms := st.alarms[r.id := a])
  }

  /** An alarm that goes on or off makes the listed components react, and those its tag is bound to. */
  function Notices(env: Env, st: State, r: Alarm): seq<Item> {
    var a := AlarmNow(st, r);
    var ids := r.components + ComponentsOn(env, r.tag, 0);
    if Raised(st, r) && !a.active then ReactionsOfAll(env, ids, AlarmActive, 1)
    else if !Raised(st, r) && a.active && !a.latched then ReactionsOfAll(env, ids, AlarmCleared, 1)
    else []
  }

  // ---- Working off ----

  function Watching(agenda: seq<Item>): nat {
    if agenda == [] then 0 else (if agenda[0].Do? then 0 else 1) + Watching(agenda[1..])
  }

  function Effort(env: Env, agenda: seq<Item>): nat {
    if agenda == [] then 0
    else (if agenda[0].Do? then Tree(Rules(env, 0), Left(agenda[0].depth)) else 0) + Effort(env, agenda[1..])
  }

  lemma {:induction false} EffortAdds(env: Env, a: seq<Item>, b: seq<Item>)
    ensures Effort(env, a + b) == Effort(env, a) + Effort(env, b) && Watching(a + b) == Watching(a) + Watching(b)
  {
    hide Tree, Rules;
    if a == [] {
      assert a + b == b;
    } else {
      assert (a + b)[1..] == a[1..] + b;
      EffortAdds(env, a[1..], b);
    }
  }

  lemma {:induction false} EffortOfOne(env: Env, item: Item)
    ensures Watching([item]) == if item.Do? then 0 else 1
    ensures Effort(env, [item]) == if item.Do? then Tree(Rules(env, 0), Left(item.depth)) else 0
  {
    hide Tree, Rules;
    assert [item][1..] == [];
  }

  lemma {:induction false} ReactionsEffort(env: Env, source: string, ev: LinkageEvent, depth: nat, i: nat)
    requires i <= |env.assocs|
    ensures Watching(Reactions(env, source, ev, depth, i)) == 0
    ensures Effort(env, Reactions(env, source, ev, depth, i)) <= Rules(env, i) * Tree(Rules(env, 0), Left(depth))
    decreases |env.assocs| - i
  {
    hide Tree, Rules;
    RulesUnfolds(env, i, Tree(Rules(env, 0), Left(depth)));
    if i < |env.assocs| {
      ReactionsEffort(env, source, ev, depth, i + 1);
      var a := env.assocs[i];
      if a.LinkageRule? && a.source == source && a.event == ev {
        EffortOfOne(env, Do(a, depth));
        EffortAdds(env, [Do(a, depth)], Reactions(env, source, ev, depth, i + 1));
      } else {
        assert [] + Reactions(env, source, ev, depth, i + 1) == Reactions(env, source, ev, depth, i + 1);
      }
    }
  }

  lemma {:induction false} AllReactionsEffort(env: Env, ids: seq<string>, ev: LinkageEvent, depth: nat)
    ensures Watching(ReactionsOfAll(env, ids, ev, depth)) == 0
  {
    hide Tree, Rules, Reactions;
    if ids != [] {
      ReactionsEffort(env, ids[0], ev, depth, 0);
      AllReactionsEffort(env, ids[1..], ev, depth);
      EffortAdds(env, Reactions(env, ids[0], ev, depth, 0), ReactionsOfAll(env, ids[1..], ev, depth));
    }
  }

  /** Doing a rule leaves less to do. */
  lemma {:induction false} DoingDecreases(env: Env, st: State, l: Linkage, depth: nat, rest: seq<Item>)
    requires depth <= 8
    ensures Watching(Consequences(env, st, l, depth) + rest) == Watching([Do(l, depth)] + rest)
    ensures Effort(env, Consequences(env, st, l, depth) + rest) < Effort(env, [Do(l, depth)] + rest)
  {
    hide Tree, Rules, Reactions;
    TreeUnfolds(Rules(env, 0), depth);
    ReactionsEffort(env, l.target, ValueChanged, depth + 1, 0);
    EffortAdds(env, Consequences(env, st, l, depth), rest);
    EffortOfOne(env, Do(l, depth));
    EffortAdds(env, [Do(l, depth)], rest);
  }

  lemma {:induction false} WatchingDecreases(env: Env, more: seq<Item>, item: Item, rest: seq<Item>)
    requires !item.Do? && Watching(more) == 0
    ensures Watching(more + rest) < Watching([item] + rest)
  {
    EffortAdds(env, more, rest);
    EffortOfOne(env, item);
    EffortAdds(env, [item], rest);
  }

  /** The state once nothing is left to do. A rule deeper than 8 levels is dropped. */
  ghost function WorkOff(env: Env, st: State, agenda: seq<Item>): State
    decreases Watching(agenda), Effort(env, agenda), |agenda|
  {
    if agenda == [] then st
    else
      var item, rest := agenda[0], agenda[1..];
      assert agenda == [item] + rest;
      match item
      case Do(l, depth) =>
        if depth > 8 then WorkOff(env, st, rest)
        else
          DoingDecreases(env, st, l, depth, rest);
          WorkOff(env, Done(env, st, l), Consequences(env, st, l, depth) + rest)
      case Show(b) =>
        ReactionsEffort(env, b.component, ValueChanged, 1, 0);
        WatchingDecreases(env, Reactions(env, b.component, ValueChanged, 1, 0), item, rest);
        WatchingDecreases(env, [], item, rest);
        if b.tag !in st.tags then WorkOff(env, st, [] + rest)
        else
          var p := Depicted(env, st.comps, b.component, b.property, st.tags[b.tag].value);
          WorkOff(env, st.(bound := st.bound[(b.component, b.property) := p]),
                  Reactions(env, b.component, ValueChanged, 1, 0) + rest)
      case Watch(r) =>
        AllReactionsEffort(env, r.components + ComponentsOn(env, r.tag, 0), AlarmActive, 1);
        AllReactionsEffort(env, r.components + ComponentsOn(env, r.tag, 0), AlarmCleared, 1);
        WatchingDecreases(env, Notices(env, st, r), item, rest);
        WatchingDecreases(env, [], item, rest);
        if r.tag !in st.tags then WorkOff(env, st, [] + rest)
        else WorkOff(env, Watched(st, r), Notices(env, st, r) + rest)
  }

  // ---- The engine works off its agenda ----

  lemma {:induction false} WorkNothing(env: Env, st: State)
    ensures WorkOff(env, st, []) == st
  {
  }

  lemma {:induction false} WorkDo(env: Env, st: State, l: Linkage, depth: nat, rest: seq<Item>)
    ensures WorkOff(env, st, [Do(l, depth)] + rest)
         == if depth > 8 then WorkOff(env, st, rest)
            else WorkOff(env, Done(env, st, l), Consequences(env, st, l, depth) + rest)
  {
    hide Done, Consequences, Reactions;
    var agenda := [Do(l, depth)] + rest;
    assert agenda[0] == Do(l, depth) && agenda[1..] == rest;
  }

  lemma {:induction false} DoneIsLeaf(env: Env, st: State, l: Linkage)
    requires l.action != SetProperty
    ensures Done(env, st, l) == Leaf(st.(executed := st.executed + 1), l)
  {
    hide Put, Written, PropertyToTag;
    WrittenIs(l.value);
  }

  lemma {:induction false} WrittenIs(v: PropertyValue)
    ensures Written(v) == PropertyToTag(v)
  {
  }

  lemma {:induction false} PutIsWrite(env: Env, st: State, id: string, key: string, v: PropertyValue)
    requires id in st.comps
    ensures Put(env, st, id, key, v) == WriteProperty(env, st, id, key, v)
  {
  }

  lemma {:induction false} WorkExecute(env: Env, st: State, l: Linkage, depth: nat, rest: seq<Item>)
    ensures WorkOff(env, st, [Do(l, depth)] + rest) == WorkOff(env, Execute(env, st, l, depth), rest)
    decreases Left(depth), 2, 0
  {
    hide Done, Reactions, WorkOff, Put, WriteProperty, Leaf, Fire;
    WorkDo(env, st, l, depth, rest);
    if depth <= 8 {
      var once := st.(executed := st.executed + 1);
      if l.action != SetProperty {
        DoneIsLeaf(env, st, l);
        assert Consequences(env, st, l, depth) + rest == rest;
      } else if l.target in st.comps {
        SetIsPut(env, st, l);
        PutIsWrite(env, once, l.target, l.param, l.value);
        WorkFire(env, WriteProperty(env, once, l.target, l.param, l.value), l.target, ValueChanged, depth + 1, 0, rest);
      } else {
        SetNothing(env, st, l);
        assert Consequences(env, st, l, depth) + rest == rest;
      }
    }
  }

  lemma {:induction false} SetIsPut(env: Env, st: State, l: Linkage)
    requires l.action == SetProperty && l.target in st.comps
    ensures Done(env, st, l) == Put(env, st.(executed := st.executed + 1), l.target, l.param, l.value)
  {
    hide Put;
  }

  lemma {:induction false} SetNothing(env: Env, st: State, l: Linkage)
    requires l.action == SetProperty && l.target !in st.comps
    ensures Done(env, st, l) == st.(executed := st.executed + 1)
  {
  }

  lemma {:induction false} WorkFire(env: Env, st: State, source: string, ev: LinkageEvent, depth: nat, i: nat,
                                    rest: seq<Item>)
    requires i <= |env.assocs|
    ensures WorkOff(env, st, Reactions(env, source, ev, depth, i) + rest)
         == WorkOff(env, Fire(env, st, source, ev, depth, i), rest)
    decreases Left(depth), 3, |env.assocs| - i
  {
    hide WorkOff, Execute;
    if i == |env.assocs| {
      assert [] + rest == rest;
    } else {
      var a, later := env.assocs[i], Reactions(env, source, ev, depth, i + 1);
      if a.LinkageRule? && a.source == source && a.event == ev {
        assert [Do(a, depth)] + later + rest == [Do(a, depth)] + (later + rest);
        WorkExecute(env, st, a, depth, later + rest);
        WorkFire(env, Execute(env, st, a, depth), source, ev, depth, i + 1, rest);
      } else {
        assert [] + later == later;
        WorkFire(env, st, source, ev, depth, i + 1, rest);
      }
    }
  }

  lemma {:induction false} WorkFireEach(env: Env, st: State, ids: seq<string>, ev: LinkageEvent, depth: nat, k: nat,
                                        rest: seq<Item>)
    requires k <= |ids|
    ensures WorkOff(env, st, ReactionsOfAll(env, ids[k..], ev, depth) + rest)
         == WorkOff(env, FireEach(env, st, ids, ev, depth, k), rest)
    decreases |ids| - k
  {
    hide WorkOff, Fire, Reactions;
    if k == |ids| {
      assert [] + rest == rest;
    } else {
      assert ids[k..][1..] == ids[k + 1..];
      var first, later := Reactions(env, ids[k], ev, depth, 0), ReactionsOfAll(env, ids[k + 1..], ev, depth);
      assert first + later + rest == first + (later + rest);
      WorkFire(env, st, ids[k], ev, depth, 0, later + rest);
      WorkFireEach(env, Fire(env, st, ids[k], ev, depth, 0), ids, ev, depth, k + 1, rest);
    }
  }

  // ---- Alarms and tags ----

  lemma {:induction false} WithoutIsRemoved(s: seq<string>, x: string)
    ensures Without(s, x) == Removed(s, x)
  {
    if s != [] {
      WithoutIsRemoved(s[1..], x);
      assert [] + Removed(s[1..], x) == Removed(s[1..], x);
    }
  }

  lemma {:induction false} ComponentsAreBound(env: Env, tag: string, i: nat)
    requires i <= |env.assocs|
    ensures ComponentsOn(env, tag, i) == BoundComponents(env, tag, i)
    decreases |env.assocs| - i
  {
    if i < |env.assocs| {
      ComponentsAreBound(env, tag, i + 1);
    }
  }

  lemma {:induction false} RaisedIsCondition(st: State, r: Alarm)
    ensures Raised(st, r) == Condition(st, r)
  {
  }

  lemma {:induction false} NowIs(st: State, r: Alarm)
    ensures AlarmNow(st, r) == AlarmOf(st, r.id)
  {
  }

  lemma {:induction false} WatchedIsJudge(st: State, r: Alarm)
    ensures Watched(st, r) == Judge(st, r)
  {
    hide Raised, Condition, Without, Removed, AlarmNow, AlarmOf;
    RaisedIsCondition(st, r);
    WithoutIsRemoved(st.fired, r.id);
    NowIs(st, r);
  }

  lemma {:induction false} WorkWatch(env: Env, st: State, r: Alarm, rest: seq<Item>)
    ensures WorkOff(env, st, [Watch(r)] + rest)
         == if r.tag in st.tags then WorkOff(env, Watched(st, r), Notices(env, st, r) + rest)
            else WorkOff(env, st, rest)
  {
    hide Watched, Notices, Consequences, Done, Reactions;
    var agenda := [Watch(r)] + rest;
    assert agenda[0] == Watch(r) && agenda[1..] == rest;
    assert [] + rest == rest;
  }

  lemma {:induction false} WorkShow(env: Env, st: State, b: Binding, rest: seq<Item>)
    requires b.tag in st.tags
    ensures WorkOff(env, st, [Show(b)] + rest)
         == WorkOff(env,
                    st.(bound := st.bound[(b.component, b.property)
                                          := Depicted(env, st.comps, b.component, b.property, st.tags[b.tag].value)]),
                    Reactions(env, b.component, ValueChanged, 1, 0) + rest)
  {
    hide Watched, Notices, Consequences, Done, Reactions, Depicted;
    var agenda := [Show(b)] + rest;
    assert agenda[0] == Show(b) && agenda[1..] == rest;
  }

  lemma {:induction false} WorkEvaluate(env: Env, st: State, r: Alarm, rest: seq<Item>)
    ensures WorkOff(env, st, [Watch(r)] + rest) == WorkOff(env, Evaluate(env, st, r, 1), rest)
  {
    hide WorkOff, Judge, Watched, FireEach, ReactionsOfAll, Condition, Raised;
    WorkWatch(env, st, r, rest);
    if r.tag in st.tags {
      var ids, st' := Affected(env, r), Judge(st, r);
      ComponentsAreBound(env, r.tag, 0);
      WatchedIsJudge(st, r);
      RaisedIsCondition(st, r);
      assert ids[0..] == ids;
      WorkFireEach(env, st', ids, AlarmActive, 1, 0, rest);
      WorkFireEach(env, st', ids, AlarmCleared, 1, 0, rest);
      assert [] + rest == rest;
      JudgeSwitches(st, r);
    }
  }

  /** The alarm goes on or off exactly when the condition says so. */
  lemma {:induction false} JudgeSwitches(st: State, r: Alarm)
    ensures var was, now := AlarmNow(st, r), AlarmOf(Judge(st, r), r.id);
            && AlarmOf(st, r.id) == was
            && (now.active && !was.active <==> Condition(st, r) && !was.active)
            && (!now.active && was.active <==> !Condition(st, r) && was.active && !was.latched)
  {
    hide Condition, Removed;
  }

  lemma {:induction false} WorkEvaluateAll(env: Env, st: State, tag: string, i: nat)
    requires i <= |env.assocs|
    ensures WorkOff(env, st, Watches(env, tag, i)) == EvaluateAll(env, st, tag, 1, i)
    decreases |env.assocs| - i
  {
    hide WorkOff, Evaluate;
    if i == |env.assocs| {
      WorkNothing(env, st);
    } else {
      var a, later := env.assocs[i], Watches(env, tag, i + 1);
      if a.AlarmRule? && a.tag == tag {
        WorkEvaluate(env, st, a, later);
        WorkEvaluateAll(env, Evaluate(env, st, a, 1), tag, i + 1);
      } else {
        assert [] + later == later;
        WorkEvaluateAll(env, st, tag, i + 1);
      }
    }
  }

  lemma {:induction false} DepictedIsConverted(env: Env, st: State, id: string, key: string, v: TagValue)
    ensures Depicted(env, st.comps, id, key, v) == TagToProperty(env, v, FindComponent(st, id), key)
  {
  }

  lemma {:induction false} WorkRefresh(env: Env, st: State, tag: string, v: TagValue, i: nat, rest: seq<Item>)
    requires i <= |env.assocs| && tag in st.tags && st.tags[tag].value == v
    ensures WorkOff(env, st, Shows(env, tag, i) + rest) == WorkOff(env, Refresh(env, st, tag, v, 0, i), rest)
    decreases |env.assocs| - i
  {
    hide WorkOff, Fire, Depicted, TagToProperty, Reactions;
    if i == |env.assocs| {
      assert [] + rest == rest;
    } else {
      var a, later := env.assocs[i], Shows(env, tag, i + 1);
      if a.DataBinding? && a.tag == tag {
        DepictedIsConverted(env, st, a.component, a.property, v);
        var p := TagToProperty(env, v, FindComponent(st, a.component), a.property);
        var shown := st.(bound := st.bound[(a.component, a.property) := p]);
        var next := Fire(env, shown, a.component, ValueChanged, 1, 0);
        assert [Show(a)] + later + rest == [Show(a)] + (later + rest);
        WorkShow(env, st, a, later + rest);
        WorkFire(env, shown, a.component, ValueChanged, 1, 0, later + rest);
        FireKeepsCore(env, shown, a.component, ValueChanged, 1, 0);
        WorkRefresh(env, next, tag, v, i + 1, rest);
      } else {
        assert [] + later == later;
        WorkRefresh(env, st, tag, v, i + 1, rest);
      }
    }
  }

  lemma {:induction false} TagChangedWorks(env: Env, st: State, tag: string)
    requires tag in st.tags
    ensures TagChanged(env, st, tag, 0) == WorkOff(env, st, Shows(env, tag, 0) + Watches(env, tag, 0))
  {
    hide WorkOff, Refresh, EvaluateAll;
    var v := st.tags[tag].value;
    WorkRefresh(env, st, tag, v, 0, Watches(env, tag, 0));
    WorkEvaluateAll(env, Refresh(env, st, tag, v, 0, 0), tag, 0);
  }

  // ---- The three ways in ----

  /** An event of a component carries out the rules that react to it, in their order, each with all its
      consequences before the next. */
  lemma {:induction false} EventAgenda(env: Env, st: State, id: string, ev: LinkageEvent)
    ensures Apply(env, st, Event(id, ev)) == WorkOff(env, st, Reactions(env, id, ev, 0, 0))
  {
    hide WorkOff, Fire, Reactions;
    WorkFire(env, st, id, ev, 0, 0, []);
    WorkNothing(env, Fire(env, st, id, ev, 0, 0));
    assert Reactions(env, id, ev, 0, 0) + [] == Reactions(env, id, ev, 0, 0);
  }

  /** The tag of the first binding of a property from association i on. */
  function FirstTag(env: Env, id: string, key: string, i: nat): Option<string>
    requires i <= |env.assocs|
    decreases |env.assocs| - i
  {
    if i == |env.assocs| then None
    else
      var a := env.assocs[i];
      if a.DataBinding? && a.component == id && a.property == key then Some(a.tag) else FirstTag(env, id, key, i + 1)
  }

  lemma {:induction false} FirstTagIsBinding(env: Env, id: string, key: string, i: nat)
    requires i <= |env.assocs|
    ensures FirstBinding(env, id, key, i) == |env.assocs| <==> FirstTag(env, id, key, i).None?
    ensures FirstTag(env, id, key, i).Some? ==>
              FirstTag(env, id, key, i).value == env.assocs[FirstBinding(env, id, key, i)].tag
    decreases |env.assocs| - i
  {
    if i < |env.assocs| {
      FirstTagIsBinding(env, id, key, i + 1);
    }
  }

  /** Operating a property shows the value, lets the rules of the component react, and queues one write-back
      of the value as it was given, behind everything the rules have queued. */
  ghost function Entered(env: Env, st: State, id: string, key: string, v: TagValue): State {
    if id !in st.comps then st
    else
      var put := Put(env, st, id, key, Depicted(env, st.comps, id, key, v));
      var done := WorkOff(env, put, Reactions(env, id, ValueChanged, 1, 0));
      var back := FirstTag(env, id, key, 0);
      done.(actions := done.actions + if back.Some? then [WriteTag(back.value, v)] else [])
  }

  lemma {:induction false} InputAgenda(env: Env, st: State, id: string, key: string, v: TagValue)
    ensures Apply(env, st, Input(id, key, v)) == Entered(env, st, id, key, v)
  {
    hide WorkOff, Fire, Reactions, Depicted, TagToProperty, Put, WriteProperty;
    if id in st.comps {
      var p := Depicted(env, st.comps, id, key, v);
      DepictedIsConverted(env, st, id, key, v);
      PutIsWrite(env, st, id, key, p);
      var put := Put(env, st, id, key, p);
      WorkFire(env, put, id, ValueChanged, 1, 0, []);
      WorkNothing(env, Fire(env, put, id, ValueChanged, 1, 0));
      assert Reactions(env, id, ValueChanged, 1, 0) + [] == Reactions(env, id, ValueChanged, 1, 0);
      FirstTagIsBinding(env, id, key, 0);
      var done := Fire(env, put, id, ValueChanged, 1, 0);
      assert done.actions + [] == done.actions;
    }
  }

  /** A known tag takes a good value with its time, and the value becomes the newest of its 512 samples. */
  function Taken(st: State, tag: string, v: TagValue): State {
    var samples := (if tag in st.history then st.history[tag] else []) + [(st.now, Number(v))];
    st.(tags := st.tags[tag := Tag(v, Good, st.now)],
        history := st.history[tag := if |samples| > 512 then samples[|samples| - 512..] else samples])
  }

  /** A good update is recorded; then every property bound to the tag is refreshed, in the order of the
      bindings, each with all that follows from it; then every alarm rule on the tag is looked at. An update
      without good data marks the tag and does nothing else. */
  ghost function Reported(env: Env, st: State, u: TagReadResult): State {
    if u.tag !in st.tags then st
    else if u.ok then WorkOff(env, Taken(st, u.tag, u.value), Shows(env, u.tag, 0) + Watches(env, u.tag, 0))
    else
      var quality := if u.quality == CommLost then CommLost else Bad;
      st.(tags := st.tags[u.tag := Tag(st.tags[u.tag].value, quality, st.now)])
  }

  lemma {:induction false} UpdateAgenda(env: Env, st: State, u: TagReadResult)
    ensures ApplyUpdate(env, st, u) == Reported(env, st, u)
  {
    hide WorkOff, TagChanged, Shows, Watches;
    if u.tag in st.tags && u.ok {
      TagChangedWorks(env, Taken(st, u.tag, u.value), u.tag);
    }
  }

  // ---- Whole runs ----

  /** The first alarm rule with this id, from association i on, is raised. */
  predicate StillUp(env: Env, st: State, id: string, i: nat)
    requires i <= |env.assocs|
    decreases |env.assocs| - i
  {
    i < |env.assocs|
    && var a := env.assocs[i];
       if a.AlarmRule? && a.id == id then Raised(st, a) else StillUp(env, st, id, i + 1)
  }

  lemma {:induction false} StillUpIs(env: Env, st: State, id: string, i: nat)
    requires i <= |env.assocs|
    ensures var k := FirstRule(env, id, i);
            StillUp(env, st, id, i) <==> k < |env.assocs| && Condition(st, env.assocs[k])
    decreases |env.assocs| - i
  {
    hide Condition, Raised;
    if i < |env.assocs| {
      var a := env.assocs[i];
      if a.AlarmRule? && a.id == id {
        RaisedIsCondition(st, a);
      } else {
        StillUpIs(env, st, id, i + 1);
      }
    }
  }

  /** Acknowledging an alarm that is still up only ends its latch; any other goes off and leaves the list. */
  function Acked(env: Env, st: State, id: string): State {
    if id !in st.alarms then st
    else if StillUp(env, st, id, 0) then st.(alarms := st.alarms[id := AlarmState(st.alarms[id].active, false)])
    else st.(alarms := st.alarms[id := AlarmState(false, false)], fired := Without(st.fired, id))
  }

  lemma {:induction false} AcknowledgeAgenda(env: Env, st: State, id: string)
    ensures Acknowledge(env, st, id) == Acked(env, st, id)
  {
    hide StillUp, Condition, Without, Removed;
    StillUpIs(env, st, id, 0);
    WithoutIsRemoved(st.fired, id);
  }

  function AckedEach(env: Env, st: State, ids: seq<string>): State
    decreases |ids|
  {
    if ids == [] then st else AckedEach(env, Acked(env, st, ids[0]), ids[1..])
  }

  ghost function ReportedEach(env: Env, st: State, us: seq<TagReadResult>): State
    decreases |us|
  {
    if us == [] then st else ReportedEach(env, Reported(env, st, us[0]), us[1..])
  }

  /** One operation, told by the agenda it makes. */
  ghost function Operated(env: Env, st: State, op: Op): State {
    match op
    case Updates(us) => ReportedEach(env, st, us)
    case Event(id, ev) => WorkOff(env, st, Reactions(env, id, ev, 0, 0))
    case Input(id, key, v) => Entered(env, st, id, key, v)
    case Ack(rule) => Acked(env, st, rule)
    case AckAll => AckedEach(env, st, st.fired)
    case Tick(now) => st.(now := now)
    case DrainActions => st.(actions := [])
  }

  ghost function OperatedAll(env: Env, st: State, ops: seq<Op>): State
    decreases |ops|
  {
    if ops == [] then st else OperatedAll(env, Operated(env, st, ops[0]), ops[1..])
  }

  lemma {:induction false} ReportedEachIs(env: Env, st: State, us: seq<TagReadResult>, k: nat)
    requires k <= |us|
    ensures ApplyUpdates(env, st, us, k) == ReportedEach(env, st, us[k..])
    decreases |us| - k
  {
    hide ApplyUpdate, Reported;
    if k < |us| {
      UpdateAgenda(env, st, us[k]);
      assert us[k..][1..] == us[k + 1..];
      ReportedEachIs(env, ApplyUpdate(env, st, us[k]), us, k + 1);
    }
  }

  lemma {:induction false} AckedEachIs(env: Env, st: State, ids: seq<string>, k: nat)
    requires k <= |ids|
    ensures AcknowledgeEach(env, st, ids, k) == AckedEach(env, st, ids[k..])
    decreases |ids| - k
  {
    hide Acknowledge, Acked;
    if k < |ids| {
      AcknowledgeAgenda(env, st, ids[k]);
      assert ids[k..][1..] == ids[k + 1..];
      AckedEachIs(env, Acknowledge(env, st, ids[k]), ids, k + 1);
    }
  }

  lemma {:induction false} OperatedIs(env: Env, st: State, op: Op)
    ensures Apply(env, st, op) == Operated(env, st, op)
  {
    hide WorkOff, Fire, ApplyUpdates, ReportedEach, Interact, Acked, Acknowledge, AckedEach, AcknowledgeEach;
    hide Reactions, Entered;
    match op
    case Updates(us) =>
      assert us[0..] == us;
      ReportedEachIs(env, st, us, 0);
    case Event(id, ev) => EventAgenda(env, st, id, ev);
    case Input(id, key, v) => InputAgenda(env, st, id, key, v);
    case Ack(rule) => AcknowledgeAgenda(env, st, rule);
    case AckAll =>
      assert st.fired[0..] == st.fired;
      AckedEachIs(env, st, st.fired, 0);
    case Tick(_) =>
    case DrainActions =>
  }

  /** Over every run the engine works off its agenda, operation by operation. */
  lemma {:induction false} RunWorksOff(env: Env, st: State, ops: seq<Op>)
    ensures Run(env, st, ops) == OperatedAll(env, st, ops)
    decreases |ops|
  {
    hide Apply, Operated;
    if ops != [] {
      OperatedIs(env, st, ops[0]);
      RunWorksOff(env, Apply(env, st, ops[0]), ops[1..]);
    }
  }
}
