/** The runtime engine: the object whose methods carry out the rules, each proved to do to the
    engine's state what the rules say. */
module Engine {
  import opened Values
  import opened RuntimeModel

  class RuntimeEngine {
    var env: Env
    var tags: map<string, Tag>
    var comps: map<string, Component>
    var bound: map<(string, string), PropertyValue>
    var history: map<string, seq<(int, real)>>
    var alarms: map<string, AlarmState>
    var fired: seq<string>
    var pulse: map<string, int>
    var actions: seq<PendingAction>
    var now: int
    ghost var executed: nat

    ghost function View(): State
      reads this
    {
      State(tags, comps, bound, history, alarms, fired, pulse, actions, now, executed)
    }

    constructor (env: Env, tags: map<string, Tag>, comps: map<string, Component>)
      ensures this.env == env && View() == Rebound(tags, comps)
    {
      this.env, this.tags, this.comps := env, tags, comps;
      bound, history, alarms, fired := map[], map[], map[], [];
      pulse, actions, now, executed := map[], [], 0, 0;
    }

    method Rebind(env: Env, tags: map<string, Tag>, comps: map<string, Component>)
      modifies this
      ensures this.env == env && View() == Rebound(tags, comps)
    {
      this.env, this.tags, this.comps := env, tags, comps;
      bound := map[];
      history := map[];
      alarms := map[];
      fired := [];
      pulse := map[];
      actions := [];
      now := 0;
      executed := 0;
    }

    method Tick(now: int)
      modifies `now
      ensures View() == Apply(env, old(View()), Op.Tick(now))
    {
      this.now := now;
    }

    // ---- Linkage ----

    method ExecuteAction(l: Association, depth: nat)
      requires l.LinkageRule?
      modifies this
      ensures env == old(env) && View() == Execute(env, old(View()), l, depth)
      decreases Left(depth), 2, 0
    {
      if depth > MAX_DEPTH {
        return;
      }
      executed := executed + 1;
      match l.action
      case SetProperty => SetValueProperty(l.target, l.param, l.value, depth);
      case Navigate => actions := actions + [NavigateTo(l.param)];
      case ToggleVisible =>
        if l.target in comps {
          var c := comps[l.target];
          comps := comps[l.target := c.(visible := !c.visible)];
        }
      case SetTagValue => actions := actions + [WriteTag(l.param, PropertyToTag(l.value))];
      case Pulse => pulse := pulse[l.target := now + PULSE_MS];
    }

    method IsBound(id: string, key: string) returns (yes: bool)
      ensures yes == Bound(env, id, key)
    {
      for i := 0 to |env.assocs|
        invariant forall j :: 0 <= j < i ==> !Binds(env.assocs[j], id, key)
      {
        if Binds(env.assocs[i], id, key) {
          return true;
        }
      }
      return false;
    }

    method SetValueProperty(id: string, key: string, v: PropertyValue, depth: nat)
      modifies this
      ensures env == old(env) && View() == SetValue(env, old(View()), id, key, v, depth)
      decreases Left(depth), 1, 0
    {
      hide Fire;
      if id !in comps {
        return;
      }
      var isBound := IsBound(id, key);
      var c := comps[id];
      if key == "visible" {
        comps := comps[id := c.(visible := AsBool(v, c.visible))];
      } else {
        comps := comps[id := c.(props := c.props[key := v])];
        if isBound {
          bound := bound[(id, key) := v];
        }
      }
      if depth > MAX_DEPTH {
        return;
      }
      FireRules(id, ValueChanged, depth + 1);
    }

    /** Executes every rule the event of component source triggers. */
    method FireRules(source: string, ev: LinkageEvent, depth: nat)
      modifies this
      ensures env == old(env) && View() == Fire(env, old(View()), source, ev, depth, 0)
      decreases Left(depth), 3, 0
    {
      hide Execute;
      for i := 0 to |env.assocs|
        invariant env == old(env)
        invariant Fire(env, View(), source, ev, depth, i) == Fire(env, old(View()), source, ev, depth, 0)
      {
        if Triggers(env.assocs[i], source, ev) {
          ExecuteAction(env.assocs[i], depth);
        }
      }
    }

    method RaiseComponentEvent(id: string, ev: LinkageEvent)
      modifies this
      ensures env == old(env) && View() == Apply(env, old(View()), Event(id, ev))
    {
      FireRules(id, ev, 0);
    }

    method SetInteractiveValue(id: string, key: string, v: TagValue)
      modifies this
      ensures env == old(env) && View() == Apply(env, old(View()), Input(id, key, v))
    {
      hide SetValue;
      if id !in comps {
        return;
      }
      SetValueProperty(id, key, TagToProperty(env, v, Some(comps[id]), key), 0);
      for i := 0 to |env.assocs|
        invariant env == old(env)
        invariant View() == SetValue(env, old(View()), id, key,
                                     TagToProperty(env, v, FindComponent(old(View()), id), key), 0)
        invariant FirstBinding(env, id, key, 0) == FirstBinding(env, id, key, i)
      {
        if Binds(env.assocs[i], id, key) {
          actions := actions + [WriteTag(env.assocs[i].tag, v)];
          return;
        }
      }
    }

    method Drain() returns (out: seq<PendingAction>)
      modifies `actions
      ensures out == old(actions) && View() == Apply(env, old(View()), DrainActions)
    {
      out := actions;
      actions := [];
    }

    // ---- Tags and alarms ----

    method OnTagChanged(tag: string, depth: nat)
      modifies this
      ensures env == old(env) && View() == TagChanged(env, old(View()), tag, depth)
    {
      hide Refresh, EvaluateAll;
      if depth > MAX_DEPTH || tag !in tags {
        return;
      }
      RefreshBindings(tag, tags[tag].value, depth);
      EvaluateAlarmRules(tag, depth + 1);
    }

    method RefreshBindings(tag: string, v: TagValue, depth: nat)
      modifies this
      ensures env == old(env) && View() == Refresh(env, old(View()), tag, v, depth, 0)
    {
      hide Fire;
      for i := 0 to |env.assocs|
        invariant env == old(env)
        invariant Refresh(env, View(), tag, v, depth, i) == Refresh(env, old(View()), tag, v, depth, 0)
      {
        var a := env.assocs[i];
        if a.DataBinding? && a.tag == tag {
          var comp := if a.component in comps then Some(comps[a.component]) else None;
          bound := bound[(a.component, a.property) := TagToProperty(env, v, comp, a.property)];
          FireRules(a.component, ValueChanged, depth + 1);
        }
      }
    }

    method EvaluateAlarmRules(tag: string, depth: nat)
      modifies this
      ensures env == old(env) && View() == EvaluateAll(env, old(View()), tag, depth, 0)
    {
      hide Evaluate;
      for i := 0 to |env.assocs|
        invariant env == old(env)
        invariant EvaluateAll(env, View(), tag, depth, i) == EvaluateAll(env, old(View()), tag, depth, 0)
      {
        var a := env.assocs[i];
        if a.AlarmRule? && a.tag == tag {
          EvaluateAlarmRule(a, depth);
        }
      }
    }

    method EvaluateAlarmRule(r: Association, depth: nat)
      requires r.AlarmRule?
      modifies this
      ensures env == old(env) && View() == Evaluate(env, old(View()), r, depth)
    {
      hide FireEach, Affected, Removed;
      if r.tag !in tags {
        return;
      }
      var a := if r.id in alarms then alarms[r.id] else AlarmState(false, false);
      var condition := tags[r.tag].quality == Good && Compare(r.cmp, Numeric(tags[r.tag].value), r.threshold);
      if condition && !a.active {
        alarms := alarms[r.id := AlarmState(true, r.latching || a.latched)];
        if r.id !in fired {
          fired := fired + [r.id];
        }
        NotifyAffected(r, AlarmActive, depth);
      } else if !condition && a.active && !a.latched {
        alarms := alarms[r.id := AlarmState(false, a.latched)];
        fired := WithoutId(fired, r.id);
        NotifyAffected(r, AlarmCleared, depth);
      } else {
        alarms := alarms[r.id := a];
      }
    }

    /** Fires the event for the listed components and then for those bound to the tag. */
    method NotifyAffected(r: Association, ev: LinkageEvent, depth: nat)
      requires r.AlarmRule?
      modifies this
      ensures env == old(env) && View() == FireEach(env, old(View()), Affected(env, r), ev, depth, 0)
    {
      hide Fire;
      var ids := AlarmAffectedComponents(r);
      for k := 0 to |ids|
        invariant env == old(env)
        invariant FireEach(env, View(), ids, ev, depth, k) == FireEach(env, old(View()), ids, ev, depth, 0)
      {
        FireRules(ids[k], ev, depth);
      }
    }

    method AlarmAffectedComponents(r: Association) returns (ids: seq<string>)
      requires r.AlarmRule?
      ensures ids == Affected(env, r)
    {
      ids := r.components;
      for i := 0 to |env.assocs|
        invariant ids + BoundComponents(env, r.tag, i) == Affected(env, r)
      {
        var a := env.assocs[i];
        if a.DataBinding? && a.tag == r.tag {
          ids := ids + [a.component];
        }
      }
    }

    method ApplyTagUpdates(us: seq<TagReadResult>)
      modifies this
      ensures env == old(env) && View() == Apply(env, old(View()), Updates(us))
    {
      hide ApplyUpdate;
      for k := 0 to |us|
        invariant env == old(env)
        invariant ApplyUpdates(env, View(), us, k) == ApplyUpdates(env, old(View()), us, 0)
      {
        ApplyTagUpdate(us[k]);
      }
    }

    method ApplyTagUpdate(u: TagReadResult)
      modifies this
      ensures env == old(env) && View() == ApplyUpdate(env, old(View()), u)
    {
      hide TagChanged;
      if u.tag !in tags {
        return;
      }
      var t := tags[u.tag];
      if u.ok {
        t := t.(value := u.value, quality := Good);
      } else {
        t := t.(quality := if u.quality == CommLost then CommLost else Bad);
      }
      t := t.(lastUpdate := now);
      tags := tags[u.tag := t];
      if u.ok {
        var samples := (if u.tag in history then history[u.tag] else []) + [(now, Numeric(t.value))];
        if |samples| > HISTORY_CAP {
          samples := samples[|samples| - HISTORY_CAP..];
        }
        history := history[u.tag := samples];
        OnTagChanged(u.tag, 0);
      }
    }

    method AcknowledgeAlarm(id: string)
      modifies `alarms, `fired
      ensures View() == Acknowledge(env, old(View()), id)
    {
      if id !in alarms {
        return;
      }
      var k := FindRule(id);
      var condition := false;
      if k < |env.assocs| {
        var r := env.assocs[k];
        condition := r.tag in tags && tags[r.tag].quality == Good
                     && Compare(r.cmp, Numeric(tags[r.tag].value), r.threshold);
      }
      if !condition {
        alarms := alarms[id := AlarmState(false, false)];
        fired := WithoutId(fired, id);
      } else {
        alarms := alarms[id := alarms[id].(latched := false)];
      }
    }

    method FindRule(id: string) returns (k: nat)
      ensures k == FirstRule(env, id, 0)
    {
      k := 0;
      while k < |env.assocs|
        invariant k <= |env.assocs| && FirstRule(env, id, 0) == FirstRule(env, id, k)
      {
        if env.assocs[k].AlarmRule? && env.assocs[k].id == id {
          return;
        }
        k := k + 1;
      }
    }

    /** Acknowledges what was active when the method was called. */
    method AcknowledgeAllAlarms()
      modifies `alarms, `fired
      ensures View() == Apply(env, old(View()), AckAll)
    {
      hide Acknowledge;
      var ids := fired;
      for k := 0 to |ids|
        invariant AcknowledgeEach(env, View(), ids, k) == AcknowledgeEach(env, old(View()), ids, 0)
      {
        AcknowledgeAlarm(ids[k]);
      }
    }
  }

  /** The erase-remove idiom. */
  method WithoutId(s: seq<string>, x: string) returns (r: seq<string>)
    ensures r == Removed(s, x)
  {
    r := [];
    var rest := s;
    while rest != []
      invariant Removed(s, x) == r + Removed(rest, x)
      decreases |rest|
    {
      if rest[0] != x {
        r := r + [rest[0]];
      }
      rest := rest[1..];
    }
  }
}
