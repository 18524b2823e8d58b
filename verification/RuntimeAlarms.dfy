/** Laws the alarms keep over every run of updates, events, inputs and acknowledgements. */
module RuntimeAlarms {
  import opened Values
  import opened RuntimeModel
  import opened RuntimeCascade

  // ---- The list of active alarms ----

  predicate NoDuplicates(s: seq<string>) {
    forall i, j :: 0 <= i < j < |s| ==> s[i] != s[j]
  }

  /** The list names exactly the active rules, each once; a latched alarm is active. */
  ghost predicate AlarmsConsistent(st: State) {
    && NoDuplicates(st.fired)
    && (forall id :: id in st.fired <==> AlarmOf(st, id).active)
    && (forall id :: AlarmOf(st, id).latched ==> AlarmOf(st, id).active)
  }

  lemma {:induction false} RemovedIs(s: seq<string>, x: string)
    ensures forall y :: y in Removed(s, x) <==> y in s && y != x
    ensures NoDuplicates(s) ==> NoDuplicates(Removed(s, x))
  {
    if s != [] {
      RemovedIs(s[1..], x);
      assert s == [s[0]] + s[1..];
      if NoDuplicates(s) {
        var r := Removed(s[1..], x);
        assert forall i :: 0 <= i < |r| ==> r[i] in s[1..];
      }
    }
  }

  /** Alarm states other than that of rule id are the same. */
  ghost predicate OthersKept(st: State, st': State, id: string) {
    forall j :: j != id ==> AlarmOf(st', j) == AlarmOf(st, j)
  }

  /** st with the alarm of rule id in state a and the given list of active alarms. */
  function WithAlarm(st: State, id: string, a: AlarmState, fired: seq<string>): State {
    st.(alarms := st.alarms[id := a], fired := fired)
  }

  lemma {:induction false} WithAlarmLookup(st: State, id: string, a: AlarmState, fired: seq<string>)
    ensures AlarmOf(WithAlarm(st, id, a, fired), id) == a
    ensures OthersKept(st, WithAlarm(st, id, a, fired), id)
  {
  }

  lemma {:induction false} Activated(st: State, id: string, latched: bool)
    requires AlarmsConsistent(st) && !AlarmOf(st, id).active
    ensures id !in st.fired && AlarmsConsistent(WithAlarm(st, id, AlarmState(true, latched), st.fired + [id]))
  {
    hide AlarmOf;
    WithAlarmLookup(st, id, AlarmState(true, latched), st.fired + [id]);
  }

  lemma {:induction false} Deactivated(st: State, id: string)
    requires AlarmsConsistent(st)
    ensures AlarmsConsistent(WithAlarm(st, id, AlarmState(false, false), Removed(st.fired, id)))
  {
    hide AlarmOf;
    WithAlarmLookup(st, id, AlarmState(false, false), Removed(st.fired, id));
    RemovedIs(st.fired, id);
  }

  lemma {:induction false} Retouched(st: State, id: string, a: AlarmState)
    requires AlarmsConsistent(st) && a.active == AlarmOf(st, id).active && (a.latched ==> a.active)
    ensures AlarmsConsistent(WithAlarm(st, id, a, st.fired))
  {
    hide AlarmOf;
    WithAlarmLookup(st, id, a, st.fired);
  }

  /** Looking at rule r: its alarm is active exactly if its condition holds or it is latched, a latched
      alarm stays as it is, and no other alarm is touched. */
  ghost predicate Judged(st: State, st': State, r: Association)
    requires r.AlarmRule?
  {
    && AlarmsConsistent(st')
    && OthersKept(st, st', r.id)
    && st'.tags == st.tags
    && (r.tag in st.tags ==> (AlarmOf(st', r.id).active <==> Condition(st, r) || AlarmOf(st', r.id).latched))
    && (AlarmOf(st, r.id).latched ==> AlarmOf(st', r.id) == AlarmOf(st, r.id))
  }

  lemma {:induction false} JudgeIs(st: State, r: Association)
    requires r.AlarmRule? && AlarmsConsistent(st)
    ensures var a := AlarmOf(st, r.id);
            Judge(st, r) ==
              if Condition(st, r) && !a.active then WithAlarm(st, r.id, AlarmState(true, r.latching), st.fired + [r.id])
              else if !Condition(st, r) && a.active && !a.latched
              then WithAlarm(st, r.id, AlarmState(false, false), Removed(st.fired, r.id))
              else WithAlarm(st, r.id, a, st.fired)
  {
    hide Condition, Removed;
  }

  lemma {:induction false} JudgeLaws(st: State, r: Association)
    requires r.AlarmRule? && AlarmsConsistent(st)
    ensures Judged(st, Judge(st, r), r)
  {
    hide Judge, AlarmOf, Condition, Removed;
    JudgeIs(st, r);
    var a, id := AlarmOf(st, r.id), r.id;
    if Condition(st, r) && !a.active {
      Activated(st, id, r.latching);
      WithAlarmLookup(st, id, AlarmState(true, r.latching), st.fired + [id]);
    } else if !Condition(st, r) && a.active && !a.latched {
      Deactivated(st, id);
      WithAlarmLookup(st, id, AlarmState(false, false), Removed(st.fired, id));
    } else {
      Retouched(st, id, a);
      WithAlarmLookup(st, id, a, st.fired);
    }
  }

  lemma {:induction false} FireEachKeepsCore(env: Env, st: State, ids: seq<string>, ev: LinkageEvent, depth: nat,
                                             k: nat)
    requires k <= |ids|
    ensures SameCore(st, FireEach(env, st, ids, ev, depth, k))
    decreases |ids| - k
  {
    hide Fire;
    if k < |ids| {
      FireKeepsCore(env, st, ids[k], ev, depth, 0);
      FireEachKeepsCore(env, Fire(env, st, ids[k], ev, depth, 0), ids, ev, depth, k + 1);
    }
  }

  lemma {:induction false} SameCoreSameAlarms(st: State, st': State)
    requires SameCore(st, st')
    ensures AlarmsConsistent(st) == AlarmsConsistent(st')
    ensures forall id :: AlarmOf(st', id) == AlarmOf(st, id)
    ensures forall r: Association :: r.AlarmRule? ==> Condition(st', r) == Condition(st, r)
  {
    assert forall id :: AlarmOf(st', id) == AlarmOf(st, id);
    SameAlarmsConsistent(st, st');
    SameAlarmsConsistent(st', st);
  }

  lemma {:induction false} SameAlarmsConsistent(st: State, st': State)
    requires st'.fired == st.fired && forall id :: AlarmOf(st', id) == AlarmOf(st, id)
    ensures AlarmsConsistent(st) ==> AlarmsConsistent(st')
  {
    hide AlarmOf;
  }

  /** Firing the events of an alarm changes no alarm. */
  lemma {:induction false} EvaluateLaws(env: Env, st: State, r: Association, depth: nat)
    requires r.AlarmRule? && AlarmsConsistent(st)
    ensures Judged(st, Evaluate(env, st, r, depth), r)
  {
    hide Judge, FireEach, AlarmOf, Condition;
    if r.tag in st.tags {
      var st' := Judge(st, r);
      JudgeLaws(st, r);
      FireEachKeepsCore(env, st', Affected(env, r), AlarmActive, depth, 0);
      FireEachKeepsCore(env, st', Affected(env, r), AlarmCleared, depth, 0);
      SameCoreSameAlarms(st', Evaluate(env, st, r, depth));
    } else {
      UnknownTag(st, r);
    }
  }

  lemma {:induction false} UnknownTag(st: State, r: Association)
    requires r.AlarmRule? && r.tag !in st.tags
    ensures !Condition(st, r)
  {
  }

  // ---- Tag updates ----

  predicate IsRule(a: Association, id: string, tag: string) {
    a.AlarmRule? && a.id == id && a.tag == tag
  }

  ghost predicate UniqueRuleIds(env: Env) {
    forall i, j :: 0 <= i < j < |env.assocs| && env.assocs[i].AlarmRule? && env.assocs[j].AlarmRule? ==>
      env.assocs[i].id != env.assocs[j].id
  }

  /** The alarm of rule r is active exactly if its condition holds or it is latched. */
  predicate Follows(st: State, r: Association)
    requires r.AlarmRule?
  {
    AlarmOf(st, r.id).active <==> Condition(st, r) || AlarmOf(st, r.id).latched
  }

  predicate HasGoodData(st: State, r: Association)
    requires r.AlarmRule?
  {
    r.tag in st.tags && st.tags[r.tag].quality == Good
  }

  /** Every alarm whose tag has good data follows its rule. */
  ghost predicate AlarmsFollow(env: Env, st: State) {
    forall i :: 0 <= i < |env.assocs| && env.assocs[i].AlarmRule? && HasGoodData(st, env.assocs[i]) ==>
      Follows(st, env.assocs[i])
  }

  ghost predicate FollowExcept(env: Env, st: State, tag: string, from: nat) {
    forall i :: 0 <= i < |env.assocs| && env.assocs[i].AlarmRule? && HasGoodData(st, env.assocs[i]) ==>
      Follows(st, env.assocs[i]) || (env.assocs[i].tag == tag && i >= from)
  }

  /** No latched alarm has changed. */
  ghost predicate LatchesKept(st: State, st': State) {
    forall id :: AlarmOf(st, id).latched ==> AlarmOf(st', id) == AlarmOf(st, id)
  }

  /** Alarms of rules on other tags are as they were. */
  ghost predicate OnlyTagAlarms(env: Env, st: State, st': State, tag: string) {
    forall id :: (forall i :: 0 <= i < |env.assocs| ==> !IsRule(env.assocs[i], id, tag)) ==>
          AlarmOf(st', id) == AlarmOf(st, id)
  }

  lemma {:induction false} EvaluateAllLaws(env: Env, st: State, tag: string, depth: nat, i: nat)
    requires i <= |env.assocs| && AlarmsConsistent(st)
    ensures var st' := EvaluateAll(env, st, tag, depth, i);
            && AlarmsConsistent(st')
            && st'.tags == st.tags
            && LatchesKept(st, st')
            && OnlyTagAlarms(env, st, st', tag)
            && (UniqueRuleIds(env) && FollowExcept(env, st, tag, i) ==> AlarmsFollow(env, st'))
    decreases |env.assocs| - i
  {
    hide Evaluate, AlarmOf, Condition, AlarmsConsistent;
    if i < |env.assocs| {
      var a := env.assocs[i];
      if a.AlarmRule? && a.tag == tag {
        var next := Evaluate(env, st, a, depth);
        EvaluateLaws(env, st, a, depth);
        if UniqueRuleIds(env) && FollowExcept(env, st, tag, i) {
          EvaluatedFollows(env, st, next, tag, i);
        }
        EvaluateAllLaws(env, next, tag, depth, i + 1);
      } else {
        EvaluateAllLaws(env, st, tag, depth, i + 1);
      }
    }
  }

  lemma {:induction false} EvaluatedFollows(env: Env, st: State, next: State, tag: string, i: nat)
    requires i < |env.assocs| && env.assocs[i].AlarmRule? && env.assocs[i].tag == tag
    requires UniqueRuleIds(env) && FollowExcept(env, st, tag, i) && Judged(st, next, env.assocs[i])
    ensures FollowExcept(env, next, tag, i + 1)
  {
    hide AlarmOf, AlarmsConsistent;
    forall j | 0 <= j < |env.assocs| && env.assocs[j].AlarmRule?
      ensures Condition(next, env.assocs[j]) == Condition(st, env.assocs[j])
    {
    }
  }

  lemma {:induction false} RefreshKeepsCore(env: Env, st: State, tag: string, v: TagValue, depth: nat, i: nat)
    requires i <= |env.assocs|
    ensures SameCore(st, Refresh(env, st, tag, v, depth, i))
    decreases |env.assocs| - i
  {
    hide Fire, TagToProperty;
    if i < |env.assocs| {
      var a := env.assocs[i];
      if a.DataBinding? && a.tag == tag {
        var p := TagToProperty(env, v, FindComponent(st, a.component), a.property);
        var bound := st.(bound := st.bound[(a.component, a.property) := p]);
        FireKeepsCore(env, bound, a.component, ValueChanged, depth + 1, 0);
        RefreshKeepsCore(env, Fire(env, bound, a.component, ValueChanged, depth + 1, 0), tag, v, depth, i + 1);
      } else {
        RefreshKeepsCore(env, st, tag, v, depth, i + 1);
      }
    }
  }

  /** The alarm laws of one step: what every step keeps of the alarms. */
  ghost predicate AlarmStep(env: Env, st: State, st': State) {
    && AlarmsConsistent(st')
    && (UniqueRuleIds(env) && AlarmsFollow(env, st) ==> AlarmsFollow(env, st'))
  }

  lemma {:induction false} SameCoreAlarmStep(env: Env, st: State, st': State)
    requires SameCore(st, st') && AlarmsConsistent(st)
    ensures AlarmStep(env, st, st') && LatchesKept(st, st')
  {
    hide AlarmsConsistent, AlarmOf, Condition;
    SameCoreSameAlarms(st, st');
  }

  /** st with a tag replaced, before anything reacts to it. */
  function WithTag(st: State, tag: string, t: Tag): State {
    st.(tags := st.tags[tag := t])
  }

  lemma {:induction false} WithTagKeeps(env: Env, st: State, tag: string, t: Tag)
    requires AlarmsConsistent(st)
    ensures var st' := WithTag(st, tag, t);
            && AlarmsConsistent(st')
            && (forall id :: AlarmOf(st', id) == AlarmOf(st, id))
            && (AlarmsFollow(env, st) ==> FollowExcept(env, st', tag, 0))
            && (AlarmsFollow(env, st) && t.quality != Good ==> AlarmsFollow(env, st'))
  {
  }

  lemma {:induction false} TagChangedLaws(env: Env, st: State, tag: string)
    requires AlarmsConsistent(st) && tag in st.tags
    ensures var st' := TagChanged(env, st, tag, 0);
            && AlarmsConsistent(st') && LatchesKept(st, st')
            && (UniqueRuleIds(env) && FollowExcept(env, st, tag, 0) ==> AlarmsFollow(env, st'))
  {
    hide Refresh, EvaluateAll, AlarmOf, Condition, AlarmsConsistent;
    var next := Refresh(env, st, tag, st.tags[tag].value, 0, 0);
    RefreshKeepsCore(env, st, tag, st.tags[tag].value, 0, 0);
    SameCoreSameAlarms(st, next);
    EvaluateAllLaws(env, next, tag, 1, 0);
  }

  lemma {:induction false} ApplyUpdateUnfolds(env: Env, st: State, u: TagReadResult) returns (t: Tag, mid: State)
    requires u.tag in st.tags
    ensures t.quality == Good <==> u.ok
    ensures mid == WithTag(st, u.tag, t).(history := mid.history)
    ensures ApplyUpdate(env, st, u) == if u.ok then TagChanged(env, mid, u.tag, 0) else mid
    ensures !u.ok ==> mid == WithTag(st, u.tag, t)
  {
    hide TagChanged;
    var quality := if u.ok then Good else if u.quality == CommLost then CommLost else Bad;
    t := Tag(if u.ok then u.value else st.tags[u.tag].value, quality, st.now);
    mid := WithTag(st, u.tag, t);
    if u.ok {
      var samples := (if u.tag in st.history then st.history[u.tag] else []) + [(st.now, Numeric(t.value))];
      mid := mid.(history := st.history[u.tag := LastN(samples, HISTORY_CAP)]);
    }
  }

  lemma {:induction false} ApplyUpdateLaws(env: Env, st: State, u: TagReadResult)
    requires AlarmsConsistent(st)
    ensures AlarmStep(env, st, ApplyUpdate(env, st, u)) && LatchesKept(st, ApplyUpdate(env, st, u))
  {
    if u.tag in st.tags {
      ApplyKnownUpdateLaws(env, st, u);
    }
  }

  lemma {:induction false} ApplyKnownUpdateLaws(env: Env, st: State, u: TagReadResult)
    requires AlarmsConsistent(st) && u.tag in st.tags
    ensures AlarmStep(env, st, ApplyUpdate(env, st, u)) && LatchesKept(st, ApplyUpdate(env, st, u))
  {
    hide ApplyUpdate, TagChanged, AlarmOf, Condition, AlarmsConsistent, AlarmsFollow, FollowExcept;
    var t, mid := ApplyUpdateUnfolds(env, st, u);
    var changed := WithTag(st, u.tag, t);
    WithTagKeeps(env, st, u.tag, t);
    if u.ok {
      HistoryKeeps(env, changed, mid, u.tag);
      TagChangedLaws(env, mid, u.tag);
    }
  }

  lemma {:induction false} HistoryKeeps(env: Env, st: State, st': State, tag: string)
    requires st' == st.(history := st'.history)
    ensures AlarmsConsistent(st) ==> AlarmsConsistent(st')
    ensures forall id :: AlarmOf(st', id) == AlarmOf(st, id)
    ensures FollowExcept(env, st, tag, 0) ==> FollowExcept(env, st', tag, 0)
  {
  }

  lemma {:induction false} ApplyUpdatesLaws(env: Env, st: State, us: seq<TagReadResult>, k: nat)
    requires AlarmsConsistent(st) && k <= |us|
    ensures AlarmStep(env, st, ApplyUpdates(env, st, us, k)) && LatchesKept(st, ApplyUpdates(env, st, us, k))
    decreases |us| - k
  {
    hide ApplyUpdate, AlarmOf, AlarmsConsistent, AlarmsFollow;
    if k < |us| {
      ApplyUpdateLaws(env, st, us[k]);
      ApplyUpdatesLaws(env, ApplyUpdate(env, st, us[k]), us, k + 1);
    }
  }

  // ---- Interaction and acknowledgement ----

  lemma {:induction false} InteractKeepsCore(env: Env, st: State, id: string, key: string, v: TagValue)
    ensures SameCore(st, Interact(env, st, id, key, v))
  {
    hide SetValue, TagToProperty, FirstBinding;
    if id in st.comps {
      SetValueKeepsCore(env, st, id, key, TagToProperty(env, v, FindComponent(st, id), key), 0);
    }
  }

  lemma {:induction false} AcknowledgeLaws(env: Env, st: State, id: string)
    requires AlarmsConsistent(st)
    ensures AlarmStep(env, st, Acknowledge(env, st, id)) && OthersKept(st, Acknowledge(env, st, id), id)
  {
    hide AlarmsConsistent, Condition, AlarmsFollow;
    if id in st.alarms {
      var k := FirstRule(env, id, 0);
      if k < |env.assocs| && Condition(st, env.assocs[k]) {
        var a := st.alarms[id].(latched := false);
        Retouched(st, id, a);
        AcknowledgeFollows(env, st, id, a, st.fired, k);
      } else {
        Deactivated(st, id);
        AcknowledgeFollows(env, st, id, AlarmState(false, false), Removed(st.fired, id), k);
      }
    }
  }

  /** Acknowledging ends the latch; the alarm stays active exactly if it was and its rule's condition holds. */
  lemma {:induction false} AcknowledgeEnds(env: Env, st: State, id: string, i: nat)
    requires UniqueRuleIds(env) && i < |env.assocs| && env.assocs[i].AlarmRule? && env.assocs[i].id == id
    ensures AlarmOf(Acknowledge(env, st, id), id)
         == AlarmState(AlarmOf(st, id).active && Condition(st, env.assocs[i]), false)
  {
    hide Condition, Removed;
    var k := FirstRule(env, id, 0);
    assert k == i;
  }

  lemma {:induction false} AcknowledgeFollows(env: Env, st: State, id: string, a: AlarmState, fired: seq<string>,
                                              k: nat)
    requires k == FirstRule(env, id, 0)
    requires !a.latched
    requires a.active <==> k < |env.assocs| && Condition(st, env.assocs[k]) && AlarmOf(st, id).active
    ensures UniqueRuleIds(env) && AlarmsFollow(env, st) ==> AlarmsFollow(env, WithAlarm(st, id, a, fired))
  {
    hide AlarmOf;
    var st' := WithAlarm(st, id, a, fired);
    WithAlarmLookup(st, id, a, fired);
    forall i | 0 <= i < |env.assocs| && env.assocs[i].AlarmRule?
      ensures Condition(st', env.assocs[i]) == Condition(st, env.assocs[i])
    {
    }
  }

  lemma {:induction false} AcknowledgeEachLaws(env: Env, st: State, ids: seq<string>, k: nat)
    requires AlarmsConsistent(st) && k <= |ids|
    ensures AlarmStep(env, st, AcknowledgeEach(env, st, ids, k))
    decreases |ids| - k
  {
    hide Acknowledge, AlarmOf, AlarmsConsistent, AlarmsFollow;
    if k < |ids| {
      AcknowledgeLaws(env, st, ids[k]);
      AcknowledgeEachLaws(env, Acknowledge(env, st, ids[k]), ids, k + 1);
    }
  }

  // ---- When acknowledging everything is defined in the source ----

  /** The first rule with this id has a condition that holds. */
  predicate StillRaised(env: Env, st: State, id: string) {
    var k := FirstRule(env, id, 0);
    k < |env.assocs| && Condition(st, env.assocs[k])
  }

  lemma {:induction false} AcknowledgeList(env: Env, st: State, id: string)
    requires id in st.alarms
    ensures var st' := Acknowledge(env, st, id);
            && st'.tags == st.tags && st'.alarms.Keys == st.alarms.Keys
            && st'.fired == if StillRaised(env, st, id) then st.fired else Removed(st.fired, id)
  {
    hide Removed, Condition;
  }

  /** The list keeps its length exactly as long as only alarms are acknowledged that are still raised. */
  lemma {:induction false} AcknowledgeEachList(env: Env, st: State, ids: seq<string>, k: nat)
    requires k <= |ids| && forall i :: k <= i < |ids| ==> ids[i] in st.alarms
    ensures var fired := AcknowledgeEach(env, st, ids, k).fired;
            && |fired| <= |st.fired|
            && ((forall i :: k <= i < |ids| ==> StillRaised(env, st, ids[i])) ==> fired == st.fired)
            && forall i :: k <= i < |ids| && ids[i] in st.fired && !StillRaised(env, st, ids[i]) ==>
                 |fired| < |st.fired|
    decreases |ids| - k
  {
    hide Acknowledge, Condition, Removed;
    if k < |ids| {
      var next := Acknowledge(env, st, ids[k]);
      AcknowledgeList(env, st, ids[k]);
      RemovedShorter(st.fired, ids[k]);
      AcknowledgeEachList(env, next, ids, k + 1);
      forall i | k <= i < |ids|
        ensures StillRaised(env, next, ids[i]) == StillRaised(env, st, ids[i])
      {
        SameTagsSameRaised(env, st, next, ids[i]);
      }
    }
  }

  lemma {:induction false} SameTagsSameRaised(env: Env, st: State, st': State, id: string)
    requires st'.tags == st.tags
    ensures StillRaised(env, st', id) == StillRaised(env, st, id)
  {
  }

  lemma {:induction false} RemovedShorter(s: seq<string>, x: string)
    ensures |Removed(s, x)| <= |s|
    ensures x in s ==> |Removed(s, x)| < |s|
    ensures forall y :: y in Removed(s, x) <==> y in s && y != x
  {
    RemovedIs(s, x);
    if s != [] {
      RemovedShorter(s[1..], x);
    }
  }

  /** The source iterates over the very list that acknowledging erases from. That is defined exactly if
      nothing is erased, which is when the condition of every active alarm's rule still holds. */
  lemma {:induction false} AcknowledgeAllErasesNothingIff(env: Env, st: State)
    requires AlarmsConsistent(st)
    ensures AcknowledgeEach(env, st, st.fired, 0).fired == st.fired
       <==> forall id :: id in st.fired ==> StillRaised(env, st, id)
  {
    hide AcknowledgeEach, StillRaised;
    forall i | 0 <= i < |st.fired|
      ensures st.fired[i] in st.alarms
    {
      assert AlarmOf(st, st.fired[i]).active;
    }
    AcknowledgeEachList(env, st, st.fired, 0);
  }

  // ---- Every run ----

  predicate Acknowledges(op: Op, id: string) {
    op.AckAll? || (op.Ack? && op.rule == id)
  }

  lemma {:induction false} ApplyLaws(env: Env, st: State, op: Op)
    requires AlarmsConsistent(st)
    ensures AlarmStep(env, st, Apply(env, st, op))
    ensures forall id :: AlarmOf(st, id).latched && !Acknowledges(op, id) ==>
              AlarmOf(Apply(env, st, op), id) == AlarmOf(st, id)
  {
    hide ApplyUpdates, Fire, Interact, Acknowledge, AcknowledgeEach, AlarmOf, AlarmsConsistent, AlarmsFollow;
    var st' := Apply(env, st, op);
    match op
    case Updates(us) => ApplyUpdatesLaws(env, st, us, 0);
    case Event(id, ev) =>
      FireKeepsCore(env, st, id, ev, 0, 0);
      SameCoreAlarmStep(env, st, st');
    case Input(id, key, v) =>
      InteractKeepsCore(env, st, id, key, v);
      SameCoreAlarmStep(env, st, st');
    case Ack(rule) => AcknowledgeLaws(env, st, rule);
    case AckAll => AcknowledgeEachLaws(env, st, st.fired, 0);
    case Tick(now) => ClockKeepsAlarms(env, st, st');
    case DrainActions => ClockKeepsAlarms(env, st, st');
  }

  lemma {:induction false} ClockKeepsAlarms(env: Env, st: State, st': State)
    requires st' == st.(now := st'.now, actions := st'.actions) && AlarmsConsistent(st)
    ensures AlarmStep(env, st, st') && LatchesKept(st, st')
  {
  }

  /** Over every run: the list of active alarms names exactly the active rules, once each; every latched
      alarm is active; with unique rule ids, while a rule's tag has good data its alarm is active exactly
      if its condition holds or the alarm is latched. */
  lemma {:induction false} AlarmLaws(env: Env, st: State, ops: seq<Op>)
    requires AlarmsConsistent(st)
    ensures AlarmStep(env, st, Run(env, st, ops))
    decreases |ops|
  {
    hide Apply, AlarmOf, AlarmsConsistent, AlarmsFollow;
    if ops != [] {
      ApplyLaws(env, st, ops[0]);
      AlarmLaws(env, Apply(env, st, ops[0]), ops[1..]);
    }
  }

  /** Over every run without an acknowledgement of rule id: once latched, its alarm stays latched and active. */
  lemma {:induction false} LatchedUntilAcknowledged(env: Env, st: State, ops: seq<Op>, id: string)
    requires AlarmsConsistent(st) && AlarmOf(st, id).latched
    requires forall op :: op in ops ==> !Acknowledges(op, id)
    ensures AlarmOf(Run(env, st, ops), id) == AlarmState(true, true)
    decreases |ops|
  {
    hide Apply;
    if ops != [] {
      assert !Acknowledges(ops[0], id);
      ApplyLaws(env, st, ops[0]);
      LatchedUntilAcknowledged(env, Apply(env, st, ops[0]), ops[1..], id);
    }
  }

  /** From a freshly bound project without good data on, all the laws hold after every run. */
  lemma {:induction false} AlarmLawsFromRebind(env: Env, tags: map<string, Tag>, comps: map<string, Component>,
                                             ops: seq<Op>)
    requires UniqueRuleIds(env) && forall t :: t in tags ==> tags[t].quality != Good
    ensures var st := Run(env, Rebound(tags, comps), ops); AlarmsConsistent(st) && AlarmsFollow(env, st)
  {
    hide Run;
    AlarmLaws(env, Rebound(tags, comps), ops);
  }

  /** Updates that bring no good data change the quality of tags and nothing else. */
  lemma {:induction false} BadUpdatesChangeNoAlarm(env: Env, st: State, us: seq<TagReadResult>, k: nat)
    requires k <= |us| && forall u :: u in us ==> !u.ok
    ensures ApplyUpdates(env, st, us, k) == st.(tags := ApplyUpdates(env, st, us, k).tags)
    decreases |us| - k
  {
    hide TagChanged;
    if k < |us| {
      assert us[k] in us;
      BadUpdatesChangeNoAlarm(env, ApplyUpdate(env, st, us[k]), us, k + 1);
    }
  }
}
