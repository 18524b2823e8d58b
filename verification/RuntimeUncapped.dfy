/** Whole runs of the engine without a depth cap, and when the cap makes no difference to them. */
module RuntimeUncapped {
  import opened Values
  import opened RuntimeModel
  import opened RuntimeCascade
  import opened RuntimeBindings

  // ---- The rules without a cap ----

  /** Executes the rules from index i on that the event triggers, with unlimited cascades. */
  ghost function FireFully(env: Env, rank: string -> nat, st: State, source: string, ev: LinkageEvent, i: nat): State
    requires i <= |env.assocs| && Ranked(env, rank)
    decreases |env.assocs| - i
  {
    if i == |env.assocs| then st
    else
      var st := if Triggers(env.assocs[i], source, ev) then ExecuteFully(env, rank, st, env.assocs[i]) else st;
      FireFully(env, rank, st, source, ev, i + 1)
  }

  ghost function RefreshFully(env: Env, rank: string -> nat, st: State, tag: string, v: TagValue, i: nat): State
    requires i <= |env.assocs| && Ranked(env, rank)
    decreases |env.assocs| - i
  {
    if i == |env.assocs| then st
    else
      var a := env.assocs[i];
      if a.DataBinding? && a.tag == tag then
        var p := TagToProperty(env, v, FindComponent(st, a.component), a.property);
        var st := st.(bound := st.bound[(a.component, a.property) := p]);
        RefreshFully(env, rank, FireFully(env, rank, st, a.component, ValueChanged, 0), tag, v, i + 1)
      else RefreshFully(env, rank, st, tag, v, i + 1)
  }

  ghost function FireEachFully(env: Env, rank: string -> nat, st: State, ids: seq<string>, ev: LinkageEvent,
                               k: nat): State
    requires k <= |ids| && Ranked(env, rank)
    decreases |ids| - k
  {
    if k == |ids| then st
    else FireEachFully(env, rank, FireFully(env, rank, st, ids[k], ev, 0), ids, ev, k + 1)
  }

  ghost function EvaluateFully(env: Env, rank: string -> nat, st: State, r: Association): State
    requires r.AlarmRule? && Ranked(env, rank)
  {
    var was, st' := AlarmOf(st, r.id).active, Judge(st, r);
    var is_ := AlarmOf(st', r.id).active;
    if r.tag !in st.tags then st
    else if is_ && !was then FireEachFully(env, rank, st', Affected(env, r), AlarmActive, 0)
    else if !is_ && was then FireEachFully(env, rank, st', Affected(env, r), AlarmCleared, 0)
    else st'
  }

  ghost function EvaluateAllFully(env: Env, rank: string -> nat, st: State, tag: string, i: nat): State
    requires i <= |env.assocs| && Ranked(env, rank)
    decreases |env.assocs| - i
  {
    if i == |env.assocs| then st
    else
      var a := env.assocs[i];
      var st := if a.AlarmRule? && a.tag == tag then EvaluateFully(env, rank, st, a) else st;
      EvaluateAllFully(env, rank, st, tag, i + 1)
  }

  ghost function TagChangedFully(env: Env, rank: string -> nat, st: State, tag: string): State
    requires Ranked(env, rank)
  {
    if tag !in st.tags then st
    else EvaluateAllFully(env, rank, RefreshFully(env, rank, st, tag, st.tags[tag].value, 0), tag, 0)
  }

  ghost function ApplyUpdateFully(env: Env, rank: string -> nat, st: State, u: TagReadResult): State
    requires Ranked(env, rank)
  {
    if u.ok && u.tag in st.tags then TagChangedFully(env, rank, Recorded(st, u), u.tag) else ApplyUpdate(env, st, u)
  }

  ghost function ApplyUpdatesFully(env: Env, rank: string -> nat, st: State, us: seq<TagReadResult>, k: nat): State
    requires k <= |us| && Ranked(env, rank)
    decreases |us| - k
  {
    if k == |us| then st else ApplyUpdatesFully(env, rank, ApplyUpdateFully(env, rank, st, us[k]), us, k + 1)
  }

  ghost function InteractFully(env: Env, rank: string -> nat, st: State, id: string, key: string, v: TagValue): State
    requires Ranked(env, rank)
  {
    if id !in st.comps then st
    else
      var st := SetValueFully(env, rank, st, id, key, TagToProperty(env, v, FindComponent(st, id), key));
      var k := FirstBinding(env, id, key, 0);
      if k < |env.assocs| then st.(actions := st.actions + [WriteTag(env.assocs[k].tag, v)]) else st
  }

  ghost function ApplyFully(env: Env, rank: string -> nat, st: State, op: Op): State
    requires Ranked(env, rank)
  {
    match op
    case Updates(us) => ApplyUpdatesFully(env, rank, st, us, 0)
    case Event(id, ev) => FireFully(env, rank, st, id, ev, 0)
    case Input(id, key, v) => InteractFully(env, rank, st, id, key, v)
    case _ => Apply(env, st, op)
  }

  ghost function RunFully(env: Env, rank: string -> nat, st: State, ops: seq<Op>): State
    requires Ranked(env, rank)
    decreases |ops|
  {
    if ops == [] then st else RunFully(env, rank, ApplyFully(env, rank, st, ops[0]), ops[1..])
  }

  // ---- When the cap is out of reach ----

  /** Clicks start at depth 0; value changes and alarms may start at depth 1. */
  function StartDepth(ev: LinkageEvent): nat {
    if ev == Click then 0 else 1
  }

  /** From where its event may start, no rule reaches the cap. */
  ghost predicate UnderCap(env: Env, rank: string -> nat) {
    && Ranked(env, rank)
    && forall i :: 0 <= i < |env.assocs| && env.assocs[i].LinkageRule? ==>
         StartDepth(env.assocs[i].event) + Height(env.assocs[i], rank) <= MAX_DEPTH
  }

  lemma {:induction false} FireUncapped(env: Env, rank: string -> nat, st: State, source: string, ev: LinkageEvent,
                                        depth: nat, i: nat)
    requires UnderCap(env, rank) && depth <= StartDepth(ev) && i <= |env.assocs|
    ensures Fire(env, st, source, ev, depth, i) == FireFully(env, rank, st, source, ev, i)
    decreases |env.assocs| - i
  {
    hide Execute, ExecuteFully;
    if i < |env.assocs| {
      var l := env.assocs[i];
      if Triggers(l, source, ev) {
        CapMakesNoDifference(env, rank, st, l, depth);
        FireUncapped(env, rank, ExecuteFully(env, rank, st, l), source, ev, depth, i + 1);
      } else {
        FireUncapped(env, rank, st, source, ev, depth, i + 1);
      }
    }
  }

  lemma {:induction false} FireEachUncapped(env: Env, rank: string -> nat, st: State, ids: seq<string>,
                                            ev: LinkageEvent, k: nat)
    requires UnderCap(env, rank) && 1 <= StartDepth(ev) && k <= |ids|
    ensures FireEach(env, st, ids, ev, 1, k) == FireEachFully(env, rank, st, ids, ev, k)
    decreases |ids| - k
  {
    hide Fire, FireFully, UnderCap, Ranked;
    if k < |ids| {
      FireUncapped(env, rank, st, ids[k], ev, 1, 0);
      FireEachUncapped(env, rank, Fire(env, st, ids[k], ev, 1, 0), ids, ev, k + 1);
    }
  }

  lemma {:induction false} RefreshUncapped(env: Env, rank: string -> nat, st: State, tag: string, v: TagValue, i: nat)
    requires UnderCap(env, rank) && i <= |env.assocs|
    ensures Refresh(env, st, tag, v, 0, i) == RefreshFully(env, rank, st, tag, v, i)
    decreases |env.assocs| - i
  {
    hide Fire, FireFully, TagToProperty, UnderCap;
    if i < |env.assocs| {
      var a := env.assocs[i];
      if a.DataBinding? && a.tag == tag {
        var p := TagToProperty(env, v, FindComponent(st, a.component), a.property);
        var laid := st.(bound := st.bound[(a.component, a.property) := p]);
        FireUncapped(env, rank, laid, a.component, ValueChanged, 1, 0);
        RefreshUncapped(env, rank, Fire(env, laid, a.component, ValueChanged, 1, 0), tag, v, i + 1);
      } else {
        RefreshUncapped(env, rank, st, tag, v, i + 1);
      }
    }
  }

  lemma {:induction false} EvaluateUncapped(env: Env, rank: string -> nat, st: State, r: Association)
    requires UnderCap(env, rank) && r.AlarmRule?
    ensures Evaluate(env, st, r, 1) == EvaluateFully(env, rank, st, r)
  {
    hide FireEach, FireEachFully, Judge, AlarmOf, Affected, UnderCap;
    FireEachUncapped(env, rank, Judge(st, r), Affected(env, r), AlarmActive, 0);
    FireEachUncapped(env, rank, Judge(st, r), Affected(env, r), AlarmCleared, 0);
  }

  lemma {:induction false} EvaluateAllUncapped(env: Env, rank: string -> nat, st: State, tag: string, i: nat)
    requires UnderCap(env, rank) && i <= |env.assocs|
    ensures EvaluateAll(env, st, tag, 1, i) == EvaluateAllFully(env, rank, st, tag, i)
    decreases |env.assocs| - i
  {
    hide Evaluate, EvaluateFully, UnderCap;
    if i < |env.assocs| {
      var a := env.assocs[i];
      if a.AlarmRule? && a.tag == tag {
        EvaluateUncapped(env, rank, st, a);
        EvaluateAllUncapped(env, rank, Evaluate(env, st, a, 1), tag, i + 1);
      } else {
        EvaluateAllUncapped(env, rank, st, tag, i + 1);
      }
    }
  }

  lemma {:induction false} ApplyUpdateUncapped(env: Env, rank: string -> nat, st: State, u: TagReadResult)
    requires UnderCap(env, rank)
    ensures ApplyUpdate(env, st, u) == ApplyUpdateFully(env, rank, st, u)
  {
    hide Refresh, RefreshFully, EvaluateAll, EvaluateAllFully, UnderCap, ApplyUpdate, Recorded;
    if u.ok && u.tag in st.tags {
      GoodUpdateUnfolds(env, st, u);
      var mid := Recorded(st, u);
      RecordedHasTag(st, u);
      var v := mid.tags[u.tag].value;
      RefreshUncapped(env, rank, mid, u.tag, v, 0);
      EvaluateAllUncapped(env, rank, Refresh(env, mid, u.tag, v, 0, 0), u.tag, 0);
    }
  }

  lemma {:induction false} RecordedHasTag(st: State, u: TagReadResult)
    requires u.ok
    ensures u.tag in Recorded(st, u).tags
  {
  }

  lemma {:induction false} ApplyUpdatesUncapped(env: Env, rank: string -> nat, st: State, us: seq<TagReadResult>,
                                                k: nat)
    requires UnderCap(env, rank) && k <= |us|
    ensures ApplyUpdates(env, st, us, k) == ApplyUpdatesFully(env, rank, st, us, k)
    decreases |us| - k
  {
    hide ApplyUpdate, ApplyUpdateFully, UnderCap;
    if k < |us| {
      ApplyUpdateUncapped(env, rank, st, us[k]);
      ApplyUpdatesUncapped(env, rank, ApplyUpdate(env, st, us[k]), us, k + 1);
    }
  }

  /** The unlimited cascade of a written property fires its ValueChanged rules. */
  lemma {:induction false} CascadeIsFire(env: Env, rank: string -> nat, st: State, source: string, i: nat)
    requires Ranked(env, rank) && i <= |env.assocs|
    ensures CascadeFully(env, rank, st, source, i) == FireFully(env, rank, st, source, ValueChanged, i)
    decreases |env.assocs| - i
  {
    hide ExecuteFully;
    if i < |env.assocs| {
      var l := env.assocs[i];
      var next := if Triggers(l, source, ValueChanged) then ExecuteFully(env, rank, st, l) else st;
      CascadeIsFire(env, rank, next, source, i + 1);
    }
  }

  lemma {:induction false} InputUncapped(env: Env, rank: string -> nat, st: State, id: string, key: string,
                                         v: PropertyValue)
    requires UnderCap(env, rank)
    ensures SetValue(env, st, id, key, v, 0) == SetValueFully(env, rank, st, id, key, v)
  {
    hide Fire, FireFully, CascadeFully, WriteProperty;
    if id in st.comps {
      var written := WriteProperty(env, st, id, key, v);
      FireUncapped(env, rank, written, id, ValueChanged, 1, 0);
      CascadeIsFire(env, rank, written, id, 0);
    }
  }

  lemma {:induction false} ApplyUncapped(env: Env, rank: string -> nat, st: State, op: Op)
    requires UnderCap(env, rank)
    ensures Apply(env, st, op) == ApplyFully(env, rank, st, op)
  {
    hide ApplyUpdates, ApplyUpdatesFully, Fire, FireFully, SetValue, SetValueFully, TagToProperty, UnderCap;
    match op
    case Updates(us) => ApplyUpdatesUncapped(env, rank, st, us, 0);
    case Event(id, ev) => FireUncapped(env, rank, st, id, ev, 0, 0);
    case Input(id, key, v) =>
      InputUncapped(env, rank, st, id, key, TagToProperty(env, v, FindComponent(st, id), key));
    case _ =>
  }

  /** If a rank drops along every ValueChanged rule, and no rule reaches the cap from where its event may
      start, then every run of updates, events, inputs and acknowledgements is the run without a cap. */
  lemma {:induction false} RunUncapped(env: Env, rank: string -> nat, st: State, ops: seq<Op>)
    requires UnderCap(env, rank)
    ensures Run(env, st, ops) == RunFully(env, rank, st, ops)
    decreases |ops|
  {
    hide Apply, ApplyFully, UnderCap;
    if ops != [] {
      ApplyUncapped(env, rank, st, ops[0]);
      RunUncapped(env, rank, Apply(env, st, ops[0]), ops[1..]);
    }
  }
}
