/** The rules of the runtime engine as functions on its state: bindings, the linkage cascade with its
    depth cap, and alarms. */
module RuntimeModel {

  import opened Values

  datatype PropertyValue =
    | BoolProp(b: bool) | IntProp(i: int) | RealProp(r: real) | TextProp(s: string)
    | ColorProp(rgba: int) | Vec2Prop(x: real, y: real)

  datatype TagQuality = Good | Bad | CommLost

  datatype Tag = Tag(value: TagValue, quality: TagQuality, lastUpdate: int)

  datatype TagReadResult = TagReadResult(tag: string, ok: bool, value: TagValue, quality: TagQuality)

  datatype Component = Component(typeId: string, visible: bool, props: map<string, PropertyValue>)

  datatype LinkageEvent = Click | ValueChanged | AlarmActive | AlarmCleared

  datatype LinkageAction = SetProperty | Navigate | ToggleVisible | SetTagValue | Pulse

  datatype Comparator = GT | GE | LT | LE | EQ | NE

  datatype Association =
    | DataBinding(id: string, component: string, property: string, tag: string)
    | LinkageRule(id: string, source: string, event: LinkageEvent, target: string,
                  action: LinkageAction, param: string, value: PropertyValue)
    | AlarmRule(id: string, tag: string, cmp: Comparator, threshold: real, latching: bool, components: seq<string>)

  datatype PendingAction = NavigateTo(page: string) | WriteTag(tag: string, value: TagValue)

  datatype AlarmState = AlarmState(active: bool, latched: bool)

  datatype SpecType = BoolSpec | TextSpec | OtherSpec

  /** What does not change while a project runs: its associations, the property types of the component
      registry, and how the platform prints numbers. */
  datatype Env = Env(assocs: seq<Association>, specs: map<(string, string), SpecType>, format: TagValue -> string)

  const MAX_DEPTH: nat := 8

  const HISTORY_CAP: nat := 512

  const PULSE_MS: int := 400

  datatype State = State(
    tags: map<string, Tag>,
    comps: map<string, Component>,
    bound: map<(string, string), PropertyValue>,
    history: map<string, seq<(int, real)>>,
    alarms: map<string, AlarmState>,
    fired: seq<string>,
    pulse: map<string, int>,
    actions: seq<PendingAction>,
    now: int,
    executed: nat)  // linkage actions carried out so far

  // ---- Values ----

  predicate Compare(c: Comparator, actual: real, threshold: real) {
    match c
    case GT => actual > threshold
    case GE => actual >= threshold
    case LT => actual < threshold
    case LE => actual <= threshold
    case EQ => actual == threshold
    case NE => actual != threshold
  }

  function AsBool(v: PropertyValue, d: bool): bool {
    match v
    case BoolProp(b) => b
    case IntProp(i) => i != 0
    case _ => d
  }

  function PropertyToTag(v: PropertyValue): TagValue {
    match v
    case BoolProp(b) => BoolValue(b)
    case IntProp(i) => IntValue(i)
    case RealProp(r) => RealValue(r)
    case TextProp(s) => TextValue(s)
    case _ => TextValue("")
  }

  /** A tag value in the type the target property is declared with. */
  function TagToProperty(env: Env, v: TagValue, target: Option<Component>, key: string): PropertyValue {
    var spec := if target.Some? && (target.value.typeId, key) in env.specs
                then env.specs[(target.value.typeId, key)] else OtherSpec;
    match v
    case TextValue(s) => TextProp(s)
    case BoolValue(b) =>
      if spec == TextSpec then TextProp(if b then "true" else "false")
      else if spec == BoolSpec then BoolProp(b) else IntProp(if b then 1 else 0)
    case IntValue(i) =>
      if spec == TextSpec then TextProp(env.format(v))
      else if spec == BoolSpec then BoolProp(i != 0) else IntProp(i)
    case RealValue(r) =>
      if spec == TextSpec then TextProp(env.format(v))
      else if spec == BoolSpec then BoolProp(r != 0.0) else RealProp(r)
  }

  // ---- The linkage cascade ----

  predicate Bound(env: Env, id: string, key: string) {
    exists i :: 0 <= i < |env.assocs| && Binds(env.assocs[i], id, key)
  }

  predicate Binds(a: Association, id: string, key: string) {
    a.DataBinding? && a.component == id && a.property == key
  }

  predicate Triggers(a: Association, source: string, ev: LinkageEvent) {
    a.LinkageRule? && a.source == source && a.event == ev
  }

  /** The property itself, without the cascade. */
  function WriteProperty(env: Env, st: State, id: string, key: string, v: PropertyValue): State
    requires id in st.comps
  {
    var c := st.comps[id];
    if key == "visible" then st.(comps := st.comps[id := c.(visible := AsBool(v, c.visible))])
    else
      st.(comps := st.comps[id := c.(props := c.props[key := v])],
          bound := if Bound(env, id, key) then st.bound[(id, key) := v] else st.bound)
  }

  /** Every action but SetProperty: no cascade follows. */
  function Leaf(st: State, l: Association): State
    requires l.LinkageRule?
  {
    match l.action
    case SetProperty => st
    case Navigate => st.(actions := st.actions + [NavigateTo(l.param)])
    case ToggleVisible =>
      if l.target in st.comps
      then st.(comps := st.comps[l.target := st.comps[l.target].(visible := !st.comps[l.target].visible)])
      else st
    case SetTagValue => st.(actions := st.actions + [WriteTag(l.param, PropertyToTag(l.value))])
    case Pulse => st.(pulse := st.pulse[l.target := st.now + PULSE_MS])
  }

  function Left(depth: nat): nat {
    if depth > MAX_DEPTH then 0 else MAX_DEPTH + 1 - depth
  }

  function Execute(env: Env, st: State, l: Association, depth: nat): State
    requires l.LinkageRule?
    decreases Left(depth), 2, 0
  {
    if depth > MAX_DEPTH then st
    else
      var st := st.(executed := st.executed + 1);
      if l.action == SetProperty then SetValue(env, st, l.target, l.param, l.value, depth)
      else Leaf(st, l)
  }

  /** Writes a property and fires the ValueChanged rules of its component. */
  function SetValue(env: Env, st: State, id: string, key: string, v: PropertyValue, depth: nat): State
    decreases Left(depth), 1, 0
  {
    if id !in st.comps then st
    else
      var st := WriteProperty(env, st, id, key, v);
      if depth > MAX_DEPTH then st else Fire(env, st, id, ValueChanged, depth + 1, 0)
  }

  /** Executes the rules from index i on that the event triggers. */
  function Fire(env: Env, st: State, source: string, ev: LinkageEvent, depth: nat, i: nat): State
    requires i <= |env.assocs|
    decreases Left(depth), 3, |env.assocs| - i
  {
    if i == |env.assocs| then st
    else
      var st := if Triggers(env.assocs[i], source, ev) then Execute(env, st, env.assocs[i], depth) else st;
      Fire(env, st, source, ev, depth, i + 1)
  }

  // ---- Tag values and alarms ----

  function FindComponent(st: State, id: string): Option<Component> {
    if id in st.comps then Some(st.comps[id]) else None
  }

  /** Refreshes the bindings of a tag with value v from index i on, firing what depends on each. */
  function Refresh(env: Env, st: State, tag: string, v: TagValue, depth: nat, i: nat): State
    requires i <= |env.assocs|
    decreases |env.assocs| - i
  {
    if i == |env.assocs| then st
    else
      var a := env.assocs[i];
      if a.DataBinding? && a.tag == tag then
        var p := TagToProperty(env, v, FindComponent(st, a.component), a.property);
        var st := st.(bound := st.bound[(a.component, a.property) := p]);
        Refresh(env, Fire(env, st, a.component, ValueChanged, depth + 1, 0), tag, v, depth, i + 1)
      else Refresh(env, st, tag, v, depth, i + 1)
  }

  predicate Condition(st: State, r: Association)
    requires r.AlarmRule?
  {
    && r.tag in st.tags
    && st.tags[r.tag].quality == Good
    && Compare(r.cmp, Numeric(st.tags[r.tag].value), r.threshold)
  }

  function BoundComponents(env: Env, tag: string, i: nat): seq<string>
    requires i <= |env.assocs|
    decreases |env.assocs| - i
  {
    if i == |env.assocs| then []
    else
      var a := env.assocs[i];
      (if a.DataBinding? && a.tag == tag then [a.component] else []) + BoundComponents(env, tag, i + 1)
  }

  function Affected(env: Env, r: Association): seq<string>
    requires r.AlarmRule?
  {
    r.components + BoundComponents(env, r.tag, 0)
  }

  function FireEach(env: Env, st: State, ids: seq<string>, ev: LinkageEvent, depth: nat, k: nat): State
    requires k <= |ids|
    decreases |ids| - k
  {
    if k == |ids| then st
    else FireEach(env, Fire(env, st, ids[k], ev, depth, 0), ids, ev, depth, k + 1)
  }

  function Removed(s: seq<string>, x: string): seq<string> {
    if s == [] then []
    else (if s[0] == x then [] else [s[0]]) + Removed(s[1..], x)
  }

  function AlarmOf(st: State, id: string): AlarmState {
    if id in st.alarms then st.alarms[id] else AlarmState(false, false)
  }

  /** The alarm and the list of active alarms after rule r has been looked at, before its events fire. */
  function Judge(st: State, r: Association): State
    requires r.AlarmRule?
  {
    var a := AlarmOf(st, r.id);
    if Condition(st, r) && !a.active then
      st.(alarms := st.alarms[r.id := AlarmState(true, r.latching || a.latched)],
          fired := if r.id in st.fired then st.fired else st.fired + [r.id])
    else if !Condition(st, r) && a.active && !a.latched then
      st.(alarms := st.alarms[r.id := AlarmState(false, false)], fired := Removed(st.fired, r.id))
    else st.(alarms := st.alarms[r.id := a])
  }

  function Evaluate(env: Env, st: State, r: Association, depth: nat): State
    requires r.AlarmRule?
  {
    var was, st' := AlarmOf(st, r.id).active, Judge(st, r);
    var is_ := AlarmOf(st', r.id).active;
    if r.tag !in st.tags then st
    else if is_ && !was then FireEach(env, st', Affected(env, r), AlarmActive, depth, 0)
    else if !is_ && was then FireEach(env, st', Affected(env, r), AlarmCleared, depth, 0)
    else st'
  }

  function EvaluateAll(env: Env, st: State, tag: string, depth: nat, i: nat): State
    requires i <= |env.assocs|
    decreases |env.assocs| - i
  {
    if i == |env.assocs| then st
    else
      var a := env.assocs[i];
      EvaluateAll(env, if a.AlarmRule? && a.tag == tag then Evaluate(env, st, a, depth) else st, tag, depth, i + 1)
  }

  function TagChanged(env: Env, st: State, tag: string, depth: nat): State {
    if depth > MAX_DEPTH || tag !in st.tags then st
    else EvaluateAll(env, Refresh(env, st, tag, st.tags[tag].value, depth, 0), tag, depth + 1, 0)
  }

  function ApplyUpdate(env: Env, st: State, u: TagReadResult): State {
    if u.tag !in st.tags then st
    else
      var t := st.tags[u.tag];
      var quality := if u.ok then Good else if u.quality == CommLost then CommLost else Bad;
      var t := Tag(if u.ok then u.value else t.value, quality, st.now);
      var st := st.(tags := st.tags[u.tag := t]);
      if !u.ok then st
      else
        var samples := (if u.tag in st.history then st.history[u.tag] else []) + [(st.now, Numeric(t.value))];
        TagChanged(env, st.(history := st.history[u.tag := LastN(samples, HISTORY_CAP)]), u.tag, 0)
  }

  function ApplyUpdates(env: Env, st: State, us: seq<TagReadResult>, k: nat): State
    requires k <= |us|
    decreases |us| - k
  {
    if k == |us| then st else ApplyUpdates(env, ApplyUpdate(env, st, us[k]), us, k + 1)
  }

  // ---- Interaction ----

  /** The first binding of a property, from index i on. */
  function FirstBinding(env: Env, id: string, key: string, i: nat): (k: nat)
    requires i <= |env.assocs|
    ensures i <= k <= |env.assocs| && (k < |env.assocs| ==> Binds(env.assocs[k], id, key))
    ensures forall j :: i <= j < k ==> !Binds(env.assocs[j], id, key)
    decreases |env.assocs| - i
  {
    if i == |env.assocs| || Binds(env.assocs[i], id, key) then i else FirstBinding(env, id, key, i + 1)
  }

  function Interact(env: Env, st: State, id: string, key: string, v: TagValue): State {
    if id !in st.comps then st
    else
      var st := SetValue(env, st, id, key, TagToProperty(env, v, FindComponent(st, id), key), 0);
      var k := FirstBinding(env, id, key, 0);
      if k < |env.assocs| then st.(actions := st.actions + [WriteTag(env.assocs[k].tag, v)]) else st
  }

  /** The first alarm rule with this id, from index i on. */
  function FirstRule(env: Env, id: string, i: nat): (k: nat)
    requires i <= |env.assocs|
    ensures i <= k <= |env.assocs|
    ensures k < |env.assocs| ==> env.assocs[k].AlarmRule? && env.assocs[k].id == id
    ensures forall j :: i <= j < k ==> !(env.assocs[j].AlarmRule? && env.assocs[j].id == id)
    decreases |env.assocs| - i
  {
    if i == |env.assocs| || (env.assocs[i].AlarmRule? && env.assocs[i].id == id) then i
    else FirstRule(env, id, i + 1)
  }

  function Acknowledge(env: Env, st: State, id: string): State {
    if id !in st.alarms then st
    else
      var k := FirstRule(env, id, 0);
      if k < |env.assocs| && Condition(st, env.assocs[k])
      then st.(alarms := st.alarms[id := st.alarms[id].(latched := false)])
      else st.(alarms := st.alarms[id := AlarmState(false, false)], fired := Removed(st.fired, id))
  }

  /** Acknowledges each of the alarms that were active when the command was given. */
  function AcknowledgeEach(env: Env, st: State, ids: seq<string>, k: nat): State
    requires k <= |ids|
    decreases |ids| - k
  {
    if k == |ids| then st else AcknowledgeEach(env, Acknowledge(env, st, ids[k]), ids, k + 1)
  }

  // ---- Whole runs ----

  datatype Op =
    | Updates(us: seq<TagReadResult>)
    | Event(id: string, ev: LinkageEvent)
    | Input(id: string, key: string, v: TagValue)
    | Ack(rule: string)
    | AckAll
    | Tick(now: int)
    | DrainActions

  function Apply(env: Env, st: State, op: Op): State {
    match op
    case Updates(us) => ApplyUpdates(env, st, us, 0)
    case Event(id, ev) => Fire(env, st, id, ev, 0, 0)
    case Input(id, key, v) => Interact(env, st, id, key, v)
    case Ack(rule) => Acknowledge(env, st, rule)
    case AckAll => AcknowledgeEach(env, st, st.fired, 0)
    case Tick(now) => st.(now := now)
    case DrainActions => st.(actions := [])
  }

  function Run(env: Env, st: State, ops: seq<Op>): State
    decreases |ops|
  {
    if ops == [] then st else Run(env, Apply(env, st, ops[0]), ops[1..])
  }

  /** The engine right after a project has been bound to it. */
  function Rebound(tags: map<string, Tag>, comps: map<string, Component>): State {
    State(tags, comps, map[], map[], map[], [], map[], [], 0, 0)
  }
}
