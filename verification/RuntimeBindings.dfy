/** What bound properties and curves show: over every run a property that only one tag feeds shows that
    tag's value, and the curve of a tag is the end of its good samples. */
module RuntimeBindings {
  import opened Values
  import opened RuntimeModel
  import opened RuntimeCascade
  import opened RuntimeAlarms

  /** What the overlay holds for a property. */
  function Shown(st: State, id: string, key: string): Option<PropertyValue> {
    if (id, key) in st.bound then Some(st.bound[(id, key)]) else None
  }

  function HistoryOf(st: State, tag: string): seq<(int, real)> {
    if tag in st.history then st.history[tag] else []
  }

  /** Tag values, curves and the clock are the same, and components keep their types. */
  ghost predicate SameSources(st: State, st': State) {
    && st'.tags == st.tags && st'.history == st.history && st'.now == st.now
    && st'.comps.Keys == st.comps.Keys
    && forall c :: c in st.comps ==> st'.comps[c].typeId == st.comps[c].typeId
  }

  /** And so is what the overlay holds for this property. */
  ghost predicate Spares(st: State, st': State, id: string, key: string) {
    SameSources(st, st') && Shown(st', id, key) == Shown(st, id, key)
  }

  lemma {:induction false} SparesThen(st: State, mid: State, st': State, id: string, key: string)
    requires Spares(st, mid, id, key) && Spares(mid, st', id, key)
    ensures Spares(st, st', id, key)
  {
  }

  /** The association neither binds the property to another tag nor sets it. */
  predicate LeavesTo(a: Association, id: string, key: string, tag: string) {
    && (Binds(a, id, key) ==> a.tag == tag)
    && !(a.LinkageRule? && a.action == SetProperty && a.target == id && a.param == key)
  }

  /** Only the tag feeds the property. */
  ghost predicate FedOnlyBy(env: Env, id: string, key: string, tag: string) {
    Bound(env, id, key) && forall i :: 0 <= i < |env.assocs| ==> LeavesTo(env.assocs[i], id, key, tag)
  }

  // ---- The cascade leaves the property alone ----

  lemma {:induction false} WriteSpares(env: Env, st: State, target: string, prop: string, v: PropertyValue,
                                       id: string, key: string)
    requires target in st.comps && (target, prop) != (id, key)
    ensures Spares(st, WriteProperty(env, st, target, prop, v), id, key)
  {
    hide Bound;
  }

  lemma {:induction false} ExecuteSpares(env: Env, st: State, l: Association, depth: nat, id: string, key: string,
                                         tag: string)
    requires FedOnlyBy(env, id, key, tag) && l.LinkageRule? && LeavesTo(l, id, key, tag)
    ensures Spares(st, Execute(env, st, l, depth), id, key)
    decreases Left(depth), 2, 0
  {
    hide SetValue, Bound, FedOnlyBy;
    if depth <= MAX_DEPTH && l.action == SetProperty {
      SetValueSpares(env, st.(executed := st.executed + 1), l.target, l.param, l.value, depth, id, key, tag);
    }
  }

  lemma {:induction false} SetValueSpares(env: Env, st: State, target: string, prop: string, v: PropertyValue,
                                          depth: nat,
                                          id: string, key: string, tag: string)
    requires FedOnlyBy(env, id, key, tag) && (target, prop) != (id, key)
    ensures Spares(st, SetValue(env, st, target, prop, v, depth), id, key)
    decreases Left(depth), 1, 0
  {
    hide Fire, WriteProperty, Spares, FedOnlyBy;
    if target in st.comps {
      var written := WriteProperty(env, st, target, prop, v);
      WriteSpares(env, st, target, prop, v, id, key);
      if depth <= MAX_DEPTH {
        FireSpares(env, written, target, ValueChanged, depth + 1, 0, id, key, tag);
        SparesThen(st, written, SetValue(env, st, target, prop, v, depth), id, key);
      }
    } else {
      SparesItself(st, id, key);
    }
  }

  lemma {:induction false} SparesItself(st: State, id: string, key: string)
    ensures Spares(st, st, id, key)
  {
  }

  lemma {:induction false} FireSpares(env: Env, st: State, source: string, ev: LinkageEvent, depth: nat, i: nat,
                                      id: string, key: string, tag: string)
    requires i <= |env.assocs| && FedOnlyBy(env, id, key, tag)
    ensures Spares(st, Fire(env, st, source, ev, depth, i), id, key)
    decreases Left(depth), 3, |env.assocs| - i
  {
    hide Execute, Spares, Bound;
    SparesItself(st, id, key);
    if i < |env.assocs| {
      var l := env.assocs[i];
      var next := if Triggers(l, source, ev) then Execute(env, st, l, depth) else st;
      if Triggers(l, source, ev) {
        ExecuteSpares(env, st, l, depth, id, key, tag);
      }
      FireSpares(env, next, source, ev, depth, i + 1, id, key, tag);
      SparesThen(st, next, Fire(env, st, source, ev, depth, i), id, key);
    }
  }

  lemma {:induction false} FireEachSpares(env: Env, st: State, ids: seq<string>, ev: LinkageEvent, depth: nat, k: nat,
                                          id: string, key: string, tag: string)
    requires k <= |ids| && FedOnlyBy(env, id, key, tag)
    ensures Spares(st, FireEach(env, st, ids, ev, depth, k), id, key)
    decreases |ids| - k
  {
    hide Fire, Spares, FedOnlyBy;
    SparesItself(st, id, key);
    if k < |ids| {
      var next := Fire(env, st, ids[k], ev, depth, 0);
      FireSpares(env, st, ids[k], ev, depth, 0, id, key, tag);
      FireEachSpares(env, next, ids, ev, depth, k + 1, id, key, tag);
      SparesThen(st, next, FireEach(env, st, ids, ev, depth, k), id, key);
    }
  }

  lemma {:induction false} JudgeSpares(st: State, r: Association, id: string, key: string)
    requires r.AlarmRule?
    ensures Spares(st, Judge(st, r), id, key)
  {
  }

  lemma {:induction false} EvaluateSpares(env: Env, st: State, r: Association, depth: nat, id: string, key: string,
                                          tag: string)
    requires r.AlarmRule? && FedOnlyBy(env, id, key, tag)
    ensures Spares(st, Evaluate(env, st, r, depth), id, key)
  {
    hide Judge, FireEach, Spares, AlarmOf, FedOnlyBy;
    var st' := Judge(st, r);
    SparesItself(st, id, key);
    JudgeSpares(st, r, id, key);
    FireEachSpares(env, st', Affected(env, r), AlarmActive, depth, 0, id, key, tag);
    FireEachSpares(env, st', Affected(env, r), AlarmCleared, depth, 0, id, key, tag);
    SparesThen(st, st', FireEach(env, st', Affected(env, r), AlarmActive, depth, 0), id, key);
    SparesThen(st, st', FireEach(env, st', Affected(env, r), AlarmCleared, depth, 0), id, key);
  }

  lemma {:induction false} EvaluateAllSpares(env: Env, st: State, changed: string, depth: nat, i: nat,
                                             id: string, key: string, tag: string)
    requires i <= |env.assocs| && FedOnlyBy(env, id, key, tag)
    ensures Spares(st, EvaluateAll(env, st, changed, depth, i), id, key)
    decreases |env.assocs| - i
  {
    hide Evaluate, Spares, FedOnlyBy;
    SparesItself(st, id, key);
    if i < |env.assocs| {
      var a := env.assocs[i];
      var next := if a.AlarmRule? && a.tag == changed then Evaluate(env, st, a, depth) else st;
      if a.AlarmRule? && a.tag == changed {
        EvaluateSpares(env, st, a, depth, id, key, tag);
      }
      EvaluateAllSpares(env, next, changed, depth, i + 1, id, key, tag);
      SparesThen(st, next, EvaluateAll(env, st, changed, depth, i), id, key);
    }
  }

  // ---- A changed tag reaches the property ----

  /** A tag value as the property would show it. */
  function Rendered(env: Env, st: State, v: TagValue, id: string, key: string): PropertyValue {
    TagToProperty(env, v, FindComponent(st, id), key)
  }

  lemma {:induction false} RenderedSame(env: Env, st: State, st': State, v: TagValue, id: string, key: string)
    requires SameSources(st, st')
    ensures Rendered(env, st', v, id, key) == Rendered(env, st, v, id, key)
  {
  }

  ghost predicate BoundFrom(env: Env, id: string, key: string, i: nat) {
    exists j :: i <= j < |env.assocs| && Binds(env.assocs[j], id, key)
  }

  /** The overlay after one binding of the tag has been refreshed. */
  function Overlaid(env: Env, st: State, a: Association, v: TagValue): State
    requires a.DataBinding?
  {
    st.(bound := st.bound[(a.component, a.property) := Rendered(env, st, v, a.component, a.property)])
  }

  lemma {:induction false} RefreshShows(env: Env, st: State, changed: string, v: TagValue, depth: nat, i: nat,
                                        id: string, key: string, tag: string)
    requires i <= |env.assocs| && FedOnlyBy(env, id, key, tag)
    ensures var st' := Refresh(env, st, changed, v, depth, i);
            && SameSources(st, st')
            && (changed != tag ==> Shown(st', id, key) == Shown(st, id, key))
            && var want := Some(Rendered(env, st, v, id, key));
               changed == tag && (BoundFrom(env, id, key, i) || Shown(st, id, key) == want) ==>
                 Shown(st', id, key) == want
    decreases |env.assocs| - i
  {
    hide Fire, Rendered, Bound;
    if i < |env.assocs| {
      var a := env.assocs[i];
      assert LeavesTo(a, id, key, tag);
      if a.DataBinding? && a.tag == changed {
        var laid := Overlaid(env, st, a, v);
        var next := Fire(env, laid, a.component, ValueChanged, depth + 1, 0);
        FireSpares(env, laid, a.component, ValueChanged, depth + 1, 0, id, key, tag);
        RenderedSame(env, st, next, v, id, key);
        RefreshUnfolds(env, st, changed, v, depth, i);
        RefreshShows(env, next, changed, v, depth, i + 1, id, key, tag);
      } else {
        RefreshShows(env, st, changed, v, depth, i + 1, id, key, tag);
      }
    }
  }

  lemma {:induction false} RefreshUnfolds(env: Env, st: State, changed: string, v: TagValue, depth: nat, i: nat)
    requires i < |env.assocs| && env.assocs[i].DataBinding? && env.assocs[i].tag == changed
    ensures Refresh(env, st, changed, v, depth, i)
         == Refresh(env,
                    Fire(env, Overlaid(env, st, env.assocs[i], v), env.assocs[i].component, ValueChanged, depth + 1, 0),
                    changed, v, depth, i + 1)
  {
    hide Fire;
  }

  lemma {:induction false} TagChangedShows(env: Env, st: State, changed: string, id: string, key: string, tag: string)
    requires FedOnlyBy(env, id, key, tag) && changed in st.tags
    ensures var st' := TagChanged(env, st, changed, 0);
            && SameSources(st, st')
            && Shown(st', id, key)
               == if changed == tag then Some(Rendered(env, st, st.tags[tag].value, id, key)) else Shown(st, id, key)
  {
    hide Refresh, EvaluateAll, Rendered;
    var next := Refresh(env, st, changed, st.tags[changed].value, 0, 0);
    assert BoundFrom(env, id, key, 0);
    RefreshShows(env, st, changed, st.tags[changed].value, 0, 0, id, key, tag);
    EvaluateAllSpares(env, next, changed, 1, 0, id, key, tag);
  }

  // ---- What every step keeps ----

  /** Components are those of a project, with the types they have there. */
  predicate TypesOf(st: State, comps: map<string, Component>) {
    st.comps.Keys == comps.Keys && forall c :: c in comps ==> st.comps[c].typeId == comps[c].typeId
  }

  /** The value the tag has had from good data, if any, is its value still, and the property shows it. */
  ghost predicate UpToDate(env: Env, st: State, id: string, key: string, tag: string, good: Option<TagValue>) {
    && tag in st.tags
    && (good.Some? ==>
          st.tags[tag].value == good.value && Shown(st, id, key) == Some(Rendered(env, st, good.value, id, key)))
  }

  lemma {:induction false} SparesUpToDate(env: Env, st: State, st': State, id: string, key: string, tag: string,
                                          good: Option<TagValue>)
    requires UpToDate(env, st, id, key, tag, good) && Spares(st, st', id, key)
    ensures UpToDate(env, st', id, key, tag, good)
  {
    if good.Some? {
      RenderedSame(env, st, st', good.value, id, key);
    }
  }

  /** The state in which a good value has been recorded and nothing has reacted to it yet. */
  function Recorded(st: State, u: TagReadResult): State
    requires u.ok
  {
    st.(tags := st.tags[u.tag := Tag(u.value, Good, st.now)],
        history := st.history[u.tag := LastN(HistoryOf(st, u.tag) + [(st.now, Numeric(u.value))], HISTORY_CAP)])
  }

  lemma {:induction false} GoodUpdateUnfolds(env: Env, st: State, u: TagReadResult)
    requires u.ok && u.tag in st.tags
    ensures ApplyUpdate(env, st, u) == TagChanged(env, Recorded(st, u), u.tag, 0)
  {
    hide TagChanged;
  }

  /** The last good value of the tag after one more update. */
  function GoodAfter(u: TagReadResult, tag: string, good: Option<TagValue>): Option<TagValue> {
    if u.ok && u.tag == tag then Some(u.value) else good
  }

  lemma {:induction false} ApplyUpdateUpToDate(env: Env, st: State, u: TagReadResult, id: string, key: string,
                                             tag: string,
                                               good: Option<TagValue>)
    requires FedOnlyBy(env, id, key, tag) && UpToDate(env, st, id, key, tag, good)
    ensures UpToDate(env, ApplyUpdate(env, st, u), id, key, tag, GoodAfter(u, tag, good))
    ensures TypesOf(ApplyUpdate(env, st, u), st.comps)
  {
    hide TagChanged, FedOnlyBy;
    if u.ok && u.tag in st.tags {
      var mid := Recorded(st, u);
      GoodUpdateUnfolds(env, st, u);
      TagChangedShows(env, mid, u.tag, id, key, tag);
      RenderedSame(env, mid, TagChanged(env, mid, u.tag, 0), mid.tags[tag].value, id, key);
    }
  }

  /** The last good value of the tag after the updates from index k on. */
  function GoodAfterAll(us: seq<TagReadResult>, k: nat, tag: string, good: Option<TagValue>): Option<TagValue>
    requires k <= |us|
    decreases |us| - k
  {
    if k == |us| then good else GoodAfterAll(us, k + 1, tag, GoodAfter(us[k], tag, good))
  }

  lemma {:induction false} ApplyUpdatesUpToDate(env: Env, st: State, us: seq<TagReadResult>, k: nat,
                                                id: string, key: string, tag: string, good: Option<TagValue>)
    requires k <= |us| && FedOnlyBy(env, id, key, tag) && UpToDate(env, st, id, key, tag, good)
    ensures UpToDate(env, ApplyUpdates(env, st, us, k), id, key, tag, GoodAfterAll(us, k, tag, good))
    ensures TypesOf(ApplyUpdates(env, st, us, k), st.comps)
    decreases |us| - k
  {
    hide ApplyUpdate, FedOnlyBy, UpToDate, GoodAfter;
    if k < |us| {
      ApplyUpdateUpToDate(env, st, us[k], id, key, tag, good);
      ApplyUpdatesUpToDate(env, ApplyUpdate(env, st, us[k]), us, k + 1, id, key, tag, GoodAfter(us[k], tag, good));
    }
  }

  lemma {:induction false} AcknowledgeSpares(env: Env, st: State, rule: string, id: string, key: string)
    ensures Spares(st, Acknowledge(env, st, rule), id, key)
  {
    hide Condition, Removed, FirstRule;
  }

  lemma {:induction false} AcknowledgeEachSpares(env: Env, st: State, ids: seq<string>, k: nat, id: string, key: string)
    requires k <= |ids|
    ensures Spares(st, AcknowledgeEach(env, st, ids, k), id, key)
    decreases |ids| - k
  {
    hide Acknowledge, Spares;
    SparesItself(st, id, key);
    if k < |ids| {
      var next := Acknowledge(env, st, ids[k]);
      AcknowledgeSpares(env, st, ids[k], id, key);
      AcknowledgeEachSpares(env, next, ids, k + 1, id, key);
      SparesThen(st, next, AcknowledgeEach(env, st, ids, k), id, key);
    }
  }

  /** Somebody operates the property. */
  predicate Operates(op: Op, id: string, key: string) {
    op.Input? && op.id == id && op.key == key
  }

  lemma {:induction false} InteractSpares(env: Env, st: State, target: string, prop: string, v: TagValue,
                                          id: string, key: string, tag: string)
    requires FedOnlyBy(env, id, key, tag) && (target, prop) != (id, key)
    ensures Spares(st, Interact(env, st, target, prop, v), id, key)
  {
    hide SetValue, TagToProperty, FirstBinding, FedOnlyBy;
    if target in st.comps {
      SetValueSpares(env, st, target, prop, TagToProperty(env, v, FindComponent(st, target), prop), 0, id, key, tag);
    }
  }

  /** Everything but updates and the clock leaves the property and its sources alone. */
  lemma {:induction false} ApplySpares(env: Env, st: State, op: Op, id: string, key: string, tag: string)
    requires FedOnlyBy(env, id, key, tag) && !Operates(op, id, key) && !op.Updates? && !op.Tick?
    ensures Spares(st, Apply(env, st, op), id, key)
  {
    hide Fire, Interact, Acknowledge, AcknowledgeEach, FedOnlyBy;
    match op
    case Event(source, ev) => FireSpares(env, st, source, ev, 0, 0, id, key, tag);
    case Input(target, prop, v) => InteractSpares(env, st, target, prop, v, id, key, tag);
    case Ack(rule) => AcknowledgeSpares(env, st, rule, id, key);
    case AckAll => AcknowledgeEachSpares(env, st, st.fired, 0, id, key);
    case DrainActions =>
  }

  function GoodAfterOp(op: Op, tag: string, good: Option<TagValue>): Option<TagValue> {
    if op.Updates? then GoodAfterAll(op.us, 0, tag, good) else good
  }

  lemma {:induction false} ApplyUpToDate(env: Env, st: State, op: Op, id: string, key: string, tag: string,
                                         good: Option<TagValue>)
    requires FedOnlyBy(env, id, key, tag) && UpToDate(env, st, id, key, tag, good) && !Operates(op, id, key)
    ensures UpToDate(env, Apply(env, st, op), id, key, tag, GoodAfterOp(op, tag, good))
    ensures TypesOf(Apply(env, st, op), st.comps)
  {
    hide ApplyUpdates, FedOnlyBy;
    if op.Updates? {
      ApplyUpdatesUpToDate(env, st, op.us, 0, id, key, tag, good);
    } else if !op.Tick? {
      hide Apply;
      ApplySpares(env, st, op, id, key, tag);
      SparesUpToDate(env, st, Apply(env, st, op), id, key, tag, good);
    }
  }

  /** The last good value of the tag in a run. */
  function LastGood(ops: seq<Op>, tag: string, good: Option<TagValue>): Option<TagValue>
    decreases |ops|
  {
    if ops == [] then good else LastGood(ops[1..], tag, GoodAfterOp(ops[0], tag, good))
  }

  lemma {:induction false} RunUpToDate(env: Env, st: State, ops: seq<Op>, id: string, key: string, tag: string,
                                       good: Option<TagValue>)
    requires FedOnlyBy(env, id, key, tag) && UpToDate(env, st, id, key, tag, good)
    requires forall op :: op in ops ==> !Operates(op, id, key)
    ensures UpToDate(env, Run(env, st, ops), id, key, tag, LastGood(ops, tag, good))
    ensures TypesOf(Run(env, st, ops), st.comps)
    decreases |ops|
  {
    hide Apply, FedOnlyBy, UpToDate, GoodAfterOp;
    if ops != [] {
      assert !Operates(ops[0], id, key);
      ApplyUpToDate(env, st, ops[0], id, key, tag, good);
      RunUpToDate(env, Apply(env, st, ops[0]), ops[1..], id, key, tag, GoodAfterOp(ops[0], tag, good));
    }
  }

  /** From a freshly bound project on, over every run in which nobody operates the property: a property
      that only one tag feeds shows the last good value of that tag, in the type the project declares
      for the property, whatever cascades and alarms run. */
  lemma {:induction false} BindingShowsLastGood(env: Env, tags: map<string, Tag>, comps: map<string, Component>,
                                             ops: seq<Op>,
                                                id: string, key: string, tag: string)
    requires tag in tags && FedOnlyBy(env, id, key, tag) && forall op :: op in ops ==> !Operates(op, id, key)
    ensures var good := LastGood(ops, tag, None);
            good.Some? ==> Shown(Run(env, Rebound(tags, comps), ops), id, key)
                           == Some(TagToProperty(env, good.value, if id in comps then Some(comps[id]) else None, key))
  {
    hide Run, FedOnlyBy, LastGood;
    RunUpToDate(env, Rebound(tags, comps), ops, id, key, tag, None);
  }

  // ---- Curves ----

  ghost predicate SameCurves(st: State, st': State) {
    st'.tags == st.tags && st'.history == st.history && st'.now == st.now
  }

  lemma {:induction false} EvaluateAllKeepsRecord(env: Env, st: State, tag: string, depth: nat, i: nat)
    requires i <= |env.assocs|
    ensures SameCurves(st, EvaluateAll(env, st, tag, depth, i))
    decreases |env.assocs| - i
  {
    hide Evaluate;
    if i < |env.assocs| {
      var a := env.assocs[i];
      if a.AlarmRule? && a.tag == tag {
        EvaluateKeepsRecord(env, st, a, depth);
        EvaluateAllKeepsRecord(env, Evaluate(env, st, a, depth), tag, depth, i + 1);
      } else {
        EvaluateAllKeepsRecord(env, st, tag, depth, i + 1);
      }
    }
  }

  lemma {:induction false} EvaluateKeepsRecord(env: Env, st: State, r: Association, depth: nat)
    requires r.AlarmRule?
    ensures SameCurves(st, Evaluate(env, st, r, depth))
  {
    hide FireEach, Affected, Judge, AlarmOf;
    JudgeSpares(st, r, "", "");
    FireEachKeepsCore(env, Judge(st, r), Affected(env, r), AlarmActive, depth, 0);
    FireEachKeepsCore(env, Judge(st, r), Affected(env, r), AlarmCleared, depth, 0);
  }

  lemma {:induction false} TagChangedKeepsRecord(env: Env, st: State, tag: string)
    ensures SameCurves(st, TagChanged(env, st, tag, 0))
  {
    hide Refresh, EvaluateAll;
    if tag in st.tags {
      RefreshKeepsCore(env, st, tag, st.tags[tag].value, 0, 0);
      EvaluateAllKeepsRecord(env, Refresh(env, st, tag, st.tags[tag].value, 0, 0), tag, 1, 0);
    }
  }

  /** The good values of the tag among the updates from index k on, stamped with the time. */
  function Samples(us: seq<TagReadResult>, k: nat, tag: string, now: int): seq<(int, real)>
    requires k <= |us|
    decreases |us| - k
  {
    if k == |us| then []
    else (if us[k].ok && us[k].tag == tag then [(now, Numeric(us[k].value))] else []) + Samples(us, k + 1, tag, now)
  }

  /** The samples of a run; the clock moves with its ticks. */
  function SamplesOf(ops: seq<Op>, tag: string, now: int): seq<(int, real)>
    decreases |ops|
  {
    if ops == [] then []
    else
      match ops[0]
      case Updates(us) => Samples(us, 0, tag, now) + SamplesOf(ops[1..], tag, now)
      case Tick(then_) => SamplesOf(ops[1..], tag, then_)
      case _ => SamplesOf(ops[1..], tag, now)
  }

  /** The curve of the tag in st' is that in st with the samples appended, cut to its end. */
  ghost predicate CurveGrows(st: State, st': State, tag: string, samples: seq<(int, real)>) {
    tag in st'.tags && HistoryOf(st', tag) == LastN(HistoryOf(st, tag) + samples, HISTORY_CAP)
  }

  lemma {:induction false} CurveGrowsTwice(st: State, mid: State, st': State, tag: string, s: seq<(int, real)>,
                                           t: seq<(int, real)>)
    requires CurveGrows(st, mid, tag, s) && CurveGrows(mid, st', tag, t)
    ensures CurveGrows(st, st', tag, s + t)
  {
    hide HistoryOf;
    LastNAppends(HistoryOf(st, tag) + s, t, HISTORY_CAP);
    assert HistoryOf(st, tag) + s + t == HistoryOf(st, tag) + (s + t);
  }

  /** Nothing was recorded. */
  lemma {:induction false} CurveStands(st: State, st': State, tag: string)
    requires tag in st'.tags && HistoryOf(st', tag) == HistoryOf(st, tag) && |HistoryOf(st, tag)| <= HISTORY_CAP
    ensures CurveGrows(st, st', tag, [])
  {
    assert HistoryOf(st, tag) + [] == HistoryOf(st, tag);
  }

  lemma {:induction false} UpdateRecords(env: Env, st: State, u: TagReadResult, tag: string)
    requires tag in st.tags && |HistoryOf(st, tag)| <= HISTORY_CAP
    ensures var st' := ApplyUpdate(env, st, u);
            && st'.now == st.now
            && CurveGrows(st, st', tag, if u.ok && u.tag == tag then [(st.now, Numeric(u.value))] else [])
  {
    hide TagChanged;
    if u.ok && u.tag in st.tags {
      GoodUpdateUnfolds(env, st, u);
      TagChangedKeepsRecord(env, Recorded(st, u), u.tag);
    }
    if !(u.ok && u.tag == tag) {
      CurveStands(st, ApplyUpdate(env, st, u), tag);
    }
  }

  lemma {:induction false} UpdatesRecord(env: Env, st: State, us: seq<TagReadResult>, k: nat, tag: string)
    requires k <= |us| && tag in st.tags && |HistoryOf(st, tag)| <= HISTORY_CAP
    ensures ApplyUpdates(env, st, us, k).now == st.now
    ensures CurveGrows(st, ApplyUpdates(env, st, us, k), tag, Samples(us, k, tag, st.now))
    decreases |us| - k
  {
    hide ApplyUpdate;
    if k == |us| {
      CurveStands(st, st, tag);
    } else {
      var next := ApplyUpdate(env, st, us[k]);
      var first := if us[k].ok && us[k].tag == tag then [(st.now, Numeric(us[k].value))] else [];
      UpdateRecords(env, st, us[k], tag);
      UpdatesRecord(env, next, us, k + 1, tag);
      CurveGrowsTwice(st, next, ApplyUpdates(env, st, us, k), tag, first, Samples(us, k + 1, tag, st.now));
    }
  }

  /** Only updates record samples, and only ticks move the clock. */
  lemma {:induction false} OthersRecordNothing(env: Env, st: State, op: Op)
    requires !op.Updates?
    ensures var st' := Apply(env, st, op);
            st'.tags == st.tags && st'.history == st.history && st'.now == if op.Tick? then op.now else st.now
  {
    hide Fire, Interact, Acknowledge, AcknowledgeEach;
    match op
    case Event(source, ev) => FireKeepsCore(env, st, source, ev, 0, 0);
    case Input(target, prop, v) => InteractKeepsCore(env, st, target, prop, v);
    case Ack(rule) => AcknowledgeSpares(env, st, rule, "", "");
    case AckAll => AcknowledgeEachSpares(env, st, st.fired, 0, "", "");
    case Tick(_) =>
    case DrainActions =>
  }

  lemma {:induction false} RunRecords(env: Env, st: State, ops: seq<Op>, tag: string)
    requires tag in st.tags && |HistoryOf(st, tag)| <= HISTORY_CAP
    ensures CurveGrows(st, Run(env, st, ops), tag, SamplesOf(ops, tag, st.now))
    decreases |ops|
  {
    hide Apply, Samples, CurveGrows;
    if ops == [] {
      CurveStands(st, st, tag);
    } else {
      var op, next := ops[0], Apply(env, st, ops[0]);
      var first := if op.Updates? then Samples(op.us, 0, tag, st.now) else [];
      OpRecords(env, st, op, tag);
      RunRecords(env, next, ops[1..], tag);
      CurveGrowsTwice(st, next, Run(env, st, ops), tag, first, SamplesOf(ops[1..], tag, next.now));
      assert [] + SamplesOf(ops[1..], tag, next.now) == SamplesOf(ops[1..], tag, next.now);
    }
  }

  lemma {:induction false} OpRecords(env: Env, st: State, op: Op, tag: string)
    requires tag in st.tags && |HistoryOf(st, tag)| <= HISTORY_CAP
    ensures var st' := Apply(env, st, op);
            && st'.now == (if op.Tick? then op.now else st.now)
            && tag in st'.tags && |HistoryOf(st', tag)| <= HISTORY_CAP
            && CurveGrows(st, st', tag, if op.Updates? then Samples(op.us, 0, tag, st.now) else [])
  {
    hide ApplyUpdates, Samples;
    if op.Updates? {
      UpdatesRecord(env, st, op.us, 0, tag);
    } else {
      hide Apply;
      OthersRecordNothing(env, st, op);
      CurveStands(st, Apply(env, st, op), tag);
    }
  }

  /** Over every run the curve of a tag is the last 512 of its good samples, each with the time of its
      arrival, whatever rules and alarms it sets off. */
  lemma {:induction false} CurveIsLastSamples(env: Env, tags: map<string, Tag>, comps: map<string, Component>,
                                             ops: seq<Op>, tag: string)
    requires tag in tags
    ensures HistoryOf(Run(env, Rebound(tags, comps), ops), tag) == LastN(SamplesOf(ops, tag, 0), HISTORY_CAP)
  {
    hide Run, SamplesOf;
    RunRecords(env, Rebound(tags, comps), ops, tag);
    assert [] + SamplesOf(ops, tag, 0) == SamplesOf(ops, tag, 0);
  }
}
