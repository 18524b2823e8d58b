/** What an operator sees over a whole run: tags, curves, bound properties and alarms, told by the updates that
    came in, and by the acknowledgements. */
module RuntimeMeaning {
  import opened Values
  import opened RuntimeModel
  import opened RuntimeCascade
  import opened RuntimeAlarms
  import opened RuntimeBindings
  import opened RuntimeAgenda

  // ---- Tags ----

  /** An update of one tag and when it came. */
  datatype Reading = Reading(at: int, ok: bool, value: TagValue, quality: TagQuality)

  function ReadingsIn(us: seq<TagReadResult>, k: nat, tag: string, now: int): seq<Reading>
    requires k <= |us|
    decreases |us| - k
  {
    if k == |us| then []
    else
      var u := us[k];
      (if u.tag == tag then [Reading(now, u.ok, u.value, u.quality)] else []) + ReadingsIn(us, k + 1, tag, now)
  }

  /** All updates of the tag in a run, in order; the clock moves with the ticks of the run. */
  function Readings(ops: seq<Op>, tag: string, now: int): seq<Reading>
    decreases |ops|
  {
    if ops == [] then []
    else
      match ops[0]
      case Updates(us) => ReadingsIn(us, 0, tag, now) + Readings(ops[1..], tag, now)
      case Tick(then_) => Readings(ops[1..], tag, then_)
      case _ => Readings(ops[1..], tag, now)
  }

  /** The last update gives time and quality, the last good one the value. */
  ghost predicate TagTells(was: Tag, rs: seq<Reading>, t: Tag) {
    && (rs == [] ==> t == was)
    && (rs != [] ==>
          var last := rs[|rs| - 1];
          && t.lastUpdate == last.at
          && (t.quality == Good <==> last.ok)
          && (t.quality == CommLost <==> !last.ok && last.quality == CommLost))
    && ((forall k :: 0 <= k < |rs| ==> !rs[k].ok) ==> t.value == was.value)
    && (forall k :: IsLastGood(rs, k) ==> t.value == rs[k].value)
  }

  predicate IsLastGood(rs: seq<Reading>, k: int) {
    0 <= k < |rs| && rs[k].ok && forall j :: k < j < |rs| ==> !rs[j].ok
  }

  lemma {:induction false} TellsMore(was: Tag, rs: seq<Reading>, t: Tag, x: Reading, t': Tag)
    requires TagTells(was, rs, t) && t'.lastUpdate == x.at
    requires t'.value == if x.ok then x.value else t.value
    requires t'.quality == if x.ok then Good else if x.quality == CommLost then CommLost else Bad
    ensures TagTells(was, rs + [x], t')
  {
    var more := rs + [x];
    forall k | IsLastGood(more, k)
      ensures t'.value == more[k].value
    {
      if k < |rs| {
        assert !more[|rs|].ok;
        forall j | k < j < |rs|
          ensures !rs[j].ok
        {
          assert !more[j].ok;
        }
        assert IsLastGood(rs, k);
      }
    }
    if forall k :: 0 <= k < |more| ==> !more[k].ok {
      assert !more[|rs|].ok;
      forall k | 0 <= k < |rs|
        ensures !rs[k].ok
      {
        assert !more[k].ok;
      }
    }
  }

  lemma {:induction false} UpdateTells(env: Env, st: State, u: TagReadResult, tag: string, was: Tag, rs: seq<Reading>)
    requires tag in st.tags && TagTells(was, rs, st.tags[tag])
    ensures var st' := ApplyUpdate(env, st, u);
            && st'.now == st.now && tag in st'.tags
            && TagTells(was, rs + (if u.tag == tag then [Reading(st.now, u.ok, u.value, u.quality)] else []),
                        st'.tags[tag])
  {
    hide TagChanged, TagTells;
    if u.ok && u.tag in st.tags {
      GoodUpdateUnfolds(env, st, u);
      TagChangedKeepsRecord(env, Recorded(st, u), u.tag);
    }
    if u.tag == tag {
      TellsMore(was, rs, st.tags[tag], Reading(st.now, u.ok, u.value, u.quality), ApplyUpdate(env, st, u).tags[tag]);
    } else {
      assert rs + [] == rs;
    }
  }

  lemma {:induction false} UpdatesTell(env: Env, st: State, us: seq<TagReadResult>, k: nat, tag: string, was: Tag,
                                       rs: seq<Reading>)
    requires k <= |us| && tag in st.tags && TagTells(was, rs, st.tags[tag])
    ensures var st' := ApplyUpdates(env, st, us, k);
            st'.now == st.now && tag in st'.tags && TagTells(was, rs + ReadingsIn(us, k, tag, st.now), st'.tags[tag])
    decreases |us| - k
  {
    hide ApplyUpdate, TagTells;
    if k == |us| {
      assert rs + [] == rs;
    } else {
      var u := us[k];
      var first := if u.tag == tag then [Reading(st.now, u.ok, u.value, u.quality)] else [];
      UpdateTells(env, st, u, tag, was, rs);
      UpdatesTell(env, ApplyUpdate(env, st, u), us, k + 1, tag, was, rs + first);
      assert rs + first + ReadingsIn(us, k + 1, tag, st.now) == rs + (first + ReadingsIn(us, k + 1, tag, st.now));
    }
  }

  lemma {:induction false} RunTells(env: Env, st: State, ops: seq<Op>, tag: string, was: Tag, rs: seq<Reading>)
    requires tag in st.tags && TagTells(was, rs, st.tags[tag])
    ensures var st' := Run(env, st, ops);
            tag in st'.tags && TagTells(was, rs + Readings(ops, tag, st.now), st'.tags[tag])
    decreases |ops|
  {
    hide Apply, TagTells, ReadingsIn;
    if ops == [] {
      assert rs + [] == rs;
    } else {
      var next := Apply(env, st, ops[0]);
      if ops[0].Updates? {
        var first := ReadingsIn(ops[0].us, 0, tag, st.now);
        OpTells(env, st, ops[0], tag, was, rs);
        RunTells(env, next, ops[1..], tag, was, rs + first);
        assert rs + first + Readings(ops[1..], tag, st.now) == rs + (first + Readings(ops[1..], tag, st.now));
      } else {
        OthersRecordNothing(env, st, ops[0]);
        RunTells(env, next, ops[1..], tag, was, rs);
      }
    }
  }

  lemma {:induction false} OpTells(env: Env, st: State, op: Op, tag: string, was: Tag, rs: seq<Reading>)
    requires op.Updates? && tag in st.tags && TagTells(was, rs, st.tags[tag])
    ensures var st' := Apply(env, st, op);
            st'.now == st.now && tag in st'.tags && TagTells(was, rs + ReadingsIn(op.us, 0, tag, st.now), st'.tags[tag])
  {
    hide TagTells, ReadingsIn, ApplyUpdates;
    UpdatesTell(env, st, op.us, 0, tag, was, rs);
  }

  /** Over every run from a rebind: a tag has the time and the quality of its last update and the value of
      its last good one. */
  lemma {:induction false} TagIsLastReading(env: Env, tags: map<string, Tag>, comps: map<string, Component>,
                                           ops: seq<Op>, tag: string)
    requires tag in tags
    ensures var st := Run(env, Rebound(tags, comps), ops);
            tag in st.tags && TagTells(tags[tag], Readings(ops, tag, 0), st.tags[tag])
  {
    hide Run, Readings;
    RunTells(env, Rebound(tags, comps), ops, tag, tags[tag], []);
    assert [] + Readings(ops, tag, 0) == Readings(ops, tag, 0);
  }

  // ---- Curves ----

  /** The good ones among the readings, as points of a curve. */
  function Points(rs: seq<Reading>): seq<(int, real)> {
    if rs == [] then []
    else (if rs[0].ok then [(rs[0].at, Number(rs[0].value))] else []) + Points(rs[1..])
  }

  lemma {:induction false} PointsAdd(a: seq<Reading>, b: seq<Reading>)
    ensures Points(a + b) == Points(a) + Points(b)
  {
    hide Points;
    PointsUnfold(a);
    if a == [] {
      assert a + b == b && [] + Points(b) == Points(b);
    } else {
      PointsUnfold(a + b);
      assert (a + b)[1..] == a[1..] + b && (a + b)[0] == a[0];
      PointsAdd(a[1..], b);
      var first := if a[0].ok then [(a[0].at, Number(a[0].value))] else [];
      assert first + (Points(a[1..]) + Points(b)) == first + Points(a[1..]) + Points(b);
    }
  }

  lemma {:induction false} PointsUnfold(rs: seq<Reading>)
    ensures rs == [] ==> Points(rs) == []
    ensures rs != [] ==>
              Points(rs) == (if rs[0].ok then [(rs[0].at, Number(rs[0].value))] else []) + Points(rs[1..])
  {
  }

  lemma {:induction false} SamplesArePoints(us: seq<TagReadResult>, k: nat, tag: string, now: int)
    requires k <= |us|
    ensures Samples(us, k, tag, now) == Points(ReadingsIn(us, k, tag, now))
    decreases |us| - k
  {
    if k < |us| {
      var u, later := us[k], ReadingsIn(us, k + 1, tag, now);
      SamplesArePoints(us, k + 1, tag, now);
      if u.tag == tag {
        assert ([Reading(now, u.ok, u.value, u.quality)] + later)[1..] == later;
      } else {
        assert [] + later == later;
      }
    }
  }

  lemma {:induction false} SamplesOfArePoints(ops: seq<Op>, tag: string, now: int)
    ensures SamplesOf(ops, tag, now) == Points(Readings(ops, tag, now))
    decreases |ops|
  {
    hide Samples, ReadingsIn;
    if ops != [] {
      match ops[0]
      case Updates(us) =>
        SamplesArePoints(us, 0, tag, now);
        SamplesOfArePoints(ops[1..], tag, now);
        PointsAdd(ReadingsIn(us, 0, tag, now), Readings(ops[1..], tag, now));
      case Tick(then_) => SamplesOfArePoints(ops[1..], tag, then_);
      case _ => SamplesOfArePoints(ops[1..], tag, now);
    }
  }

  /** Over every run from a rebind the curve of a tag is the last 512 of its good readings, as numbers with
      their times. */
  lemma {:induction false} CurveIsLastPoints(env: Env, tags: map<string, Tag>, comps: map<string, Component>,
                                            ops: seq<Op>, tag: string)
    requires tag in tags
    ensures var points, curve := Points(Readings(ops, tag, 0)), HistoryOf(Run(env, Rebound(tags, comps), ops), tag);
            && |curve| == (if |points| > 512 then 512 else |points|)
            && curve == points[|points| - |curve|..]
  {
    hide Run, SamplesOf, Readings, Points;
    CurveIsLastSamples(env, tags, comps, ops, tag);
    SamplesOfArePoints(ops, tag, 0);
  }

  // ---- Bound properties ----

  lemma {:induction false} DepictsConversion(env: Env, comps: map<string, Component>, id: string, key: string,
                                             v: TagValue)
    ensures TagToProperty(env, v, if id in comps then Some(comps[id]) else None, key)
         == Depicted(env, comps, id, key, v)
  {
  }

  lemma {:induction false} GoodIsLastGood(us: seq<TagReadResult>, k: nat, tag: string, now: int, good: Option<TagValue>)
    requires k <= |us|
    ensures GoodAfterAll(us, k, tag, good) == LastOf(ReadingsIn(us, k, tag, now), good)
    decreases |us| - k
  {
    if k < |us| {
      var u, later := us[k], ReadingsIn(us, k + 1, tag, now);
      GoodIsLastGood(us, k + 1, tag, now, GoodAfter(u, tag, good));
      if u.tag == tag {
        assert ([Reading(now, u.ok, u.value, u.quality)] + later)[1..] == later;
      } else {
        assert [] + later == later;
      }
    }
  }

  function LastOf(rs: seq<Reading>, good: Option<TagValue>): Option<TagValue>
    decreases |rs|
  {
    if rs == [] then good else LastOf(rs[1..], if rs[0].ok then Some(rs[0].value) else good)
  }

  lemma {:induction false} LastOfAdds(a: seq<Reading>, b: seq<Reading>, good: Option<TagValue>)
    ensures LastOf(a + b, good) == LastOf(b, LastOf(a, good))
    decreases |a|
  {
    if a == [] {
      assert a + b == b;
    } else {
      assert (a + b)[1..] == a[1..] + b;
      LastOfAdds(a[1..], b, if a[0].ok then Some(a[0].value) else good);
    }
  }

  lemma {:induction false} LastOfIs(rs: seq<Reading>, k: nat, good: Option<TagValue>)
    requires IsLastGood(rs, k)
    ensures LastOf(rs, good) == Some(rs[k].value)
    decreases |rs|
  {
    var first := if rs[0].ok then Some(rs[0].value) else good;
    if k > 0 {
      assert IsLastGood(rs[1..], k - 1);
      LastOfIs(rs[1..], k - 1, first);
    } else {
      NoneGood(rs[1..], first);
    }
  }

  lemma {:induction false} NoneGood(rs: seq<Reading>, good: Option<TagValue>)
    requires forall j :: 0 <= j < |rs| ==> !rs[j].ok
    ensures LastOf(rs, good) == good
    decreases |rs|
  {
    if rs != [] {
      NoneGood(rs[1..], good);
    }
  }

  lemma {:induction false} LastGoodIs(ops: seq<Op>, tag: string, now: int, good: Option<TagValue>)
    ensures LastGood(ops, tag, good) == LastOf(Readings(ops, tag, now), good)
    decreases |ops|
  {
    hide LastOf, GoodAfterAll, ReadingsIn;
    if ops == [] {
      NoneGood([], good);
    } else {
      match ops[0]
      case Updates(us) =>
        GoodIsLastGood(us, 0, tag, now, good);
        LastGoodIs(ops[1..], tag, now, LastOf(ReadingsIn(us, 0, tag, now), good));
        LastOfAdds(ReadingsIn(us, 0, tag, now), Readings(ops[1..], tag, now), good);
      case Tick(then_) => LastGoodIs(ops[1..], tag, then_, good);
      case _ => LastGoodIs(ops[1..], tag, now, good);
    }
  }

  /** Over every run in which nobody operates the property: a property that only one tag feeds shows the last
      good reading of the tag, as text, flag or number just as the project declares the property. */
  lemma {:induction false} PropertyDepictsLastGood(env: Env, tags: map<string, Tag>, comps: map<string, Component>,
                                                  ops: seq<Op>, id: string, key: string, tag: string, k: nat)
    requires tag in tags && FedOnlyBy(env, id, key, tag) && forall op :: op in ops ==> !Operates(op, id, key)
    requires IsLastGood(Readings(ops, tag, 0), k)
    ensures var st := Run(env, Rebound(tags, comps), ops);
            && (id, key) in st.bound
            && st.bound[(id, key)] == Depicted(env, comps, id, key, Readings(ops, tag, 0)[k].value)
  {
    hide Run, Readings, LastGood, LastOf, FedOnlyBy, Depicted, TagToProperty;
    LastGoodIs(ops, tag, 0, None);
    LastOfIs(Readings(ops, tag, 0), k, None);
    BindingShowsLastGood(env, tags, comps, ops, id, key, tag);
    DepictsConversion(env, comps, id, key, Readings(ops, tag, 0)[k].value);
  }

  // ---- Alarms ----

  /** What decides about an alarm: the last good value of its tag, whether that is also the last update, and
      whether the alarm has been acknowledged since then without good data. */
  datatype Sight = Sight(good: Option<TagValue>, current: bool, silenced: bool)

  function SightAfter(w: Sight, u: TagReadResult, tag: string): Sight {
    if u.tag != tag then w
    else if u.ok then Sight(Some(u.value), true, false)
    else Sight(w.good, false, w.silenced)
  }

  function SightAfterEach(w: Sight, us: seq<TagReadResult>, k: nat, tag: string): Sight
    requires k <= |us|
    decreases |us| - k
  {
    if k == |us| then w else SightAfterEach(SightAfter(w, us[k], tag), us, k + 1, tag)
  }

  function SightOf(w: Sight, ops: seq<Op>, r: Alarm): Sight
    decreases |ops|
  {
    if ops == [] then w
    else
      var next :=
        if ops[0].Updates? then SightAfterEach(w, ops[0].us, 0, r.tag)
        else if Acknowledges(ops[0], r.id) then Sight(w.good, w.current, w.silenced || !w.current)
        else w;
      SightOf(next, ops[1..], r)
  }

  /** An alarm that is not latched is on exactly if the last good value of its tag exceeds the threshold and
      nobody has acknowledged it while the data was bad. */
  predicate Tells(st: State, r: Alarm, w: Sight) {
    && r.tag in st.tags
    && (w.good.Some? ==> st.tags[r.tag].value == w.good.value && (w.current <==> st.tags[r.tag].quality == Good))
    && (w.good.Some? && w.current ==> !w.silenced)
    && (w.good.None? ==> AlarmNow(st, r) == AlarmState(false, false))
    && (AlarmNow(st, r).active <==>
          AlarmNow(st, r).latched || (w.good.Some? && !w.silenced && Exceeds(r, w.good.value)))
  }

  ghost predicate SameAlarmAndTag(st: State, st': State, r: Alarm) {
    && AlarmNow(st', r) == AlarmNow(st, r)
    && (r.tag in st.tags ==> r.tag in st'.tags && st'.tags[r.tag] == st.tags[r.tag])
  }

  lemma {:induction false} SameTells(st: State, st': State, r: Alarm, w: Sight)
    requires Tells(st, r, w) && SameAlarmAndTag(st, st', r)
    ensures Tells(st', r, w)
  {
  }

  /** Rule r is on the agenda of a changed tag, so in the end its alarm follows. */
  lemma {:induction false} EvaluateAllFollows(env: Env, st: State, depth: nat, i: nat, j: nat)
    requires i <= |env.assocs| && j < |env.assocs| && env.assocs[j].AlarmRule? && UniqueRuleIds(env)
    requires AlarmsConsistent(st) && env.assocs[j].tag in st.tags
    requires i > j ==> Follows(st, env.assocs[j])
    ensures Follows(EvaluateAll(env, st, env.assocs[j].tag, depth, i), env.assocs[j])
    decreases |env.assocs| - i
  {
    hide Evaluate, AlarmOf, Condition, AlarmsConsistent;
    if i < |env.assocs| {
      var a, tag := env.assocs[i], env.assocs[j].tag;
      if a.AlarmRule? && a.tag == tag {
        EvaluateLaws(env, st, a, depth);
        SameTagsSameCondition(st, Evaluate(env, st, a, depth), env.assocs[j]);
        EvaluateAllFollows(env, Evaluate(env, st, a, depth), depth, i + 1, j);
      } else {
        EvaluateAllFollows(env, st, depth, i + 1, j);
      }
    }
  }

  lemma {:induction false} SameTagsSameCondition(st: State, st': State, r: Alarm)
    requires st'.tags == st.tags
    ensures Condition(st', r) == Condition(st, r)
  {
  }

  lemma {:induction false} ChangeTells(env: Env, st: State, j: nat, changed: string)
    requires j < |env.assocs| && env.assocs[j].AlarmRule? && UniqueRuleIds(env) && AlarmsConsistent(st)
    requires changed in st.tags
    ensures var st', r := TagChanged(env, st, changed, 0), env.assocs[j];
            && st'.tags == st.tags
            && (changed == r.tag ==> Follows(st', r))
            && (changed != r.tag ==> AlarmOf(st', r.id) == AlarmOf(st, r.id))
  {
    hide Refresh, EvaluateAll, AlarmOf, Condition, AlarmsConsistent;
    var r, next := env.assocs[j], Refresh(env, st, changed, st.tags[changed].value, 0, 0);
    RefreshKeepsCore(env, st, changed, st.tags[changed].value, 0, 0);
    SameCoreSameAlarms(st, next);
    EvaluateAllLaws(env, next, changed, 1, 0);
    if changed == r.tag {
      EvaluateAllFollows(env, next, 1, 0, j);
    } else {
      NotItsRule(env, j, changed);
    }
  }

  lemma {:induction false} NotItsRule(env: Env, j: nat, tag: string)
    requires j < |env.assocs| && env.assocs[j].AlarmRule? && env.assocs[j].tag != tag && UniqueRuleIds(env)
    ensures forall i :: 0 <= i < |env.assocs| ==> !IsRule(env.assocs[i], env.assocs[j].id, tag)
  {
  }

  lemma {:induction false} UpdateTellsAlarm(env: Env, st: State, u: TagReadResult, j: nat, w: Sight)
    requires j < |env.assocs| && env.assocs[j].AlarmRule? && UniqueRuleIds(env) && AlarmsConsistent(st)
    requires Tells(st, env.assocs[j], w)
    ensures var st' := ApplyUpdate(env, st, u);
            AlarmsConsistent(st') && Tells(st', env.assocs[j], SightAfter(w, u, env.assocs[j].tag))
  {
    hide TagChanged, Exceeds, AlarmsConsistent;
    var r: Alarm := env.assocs[j];
    ApplyUpdateLaws(env, st, u);
    if u.ok && u.tag in st.tags {
      var mid := Recorded(st, u);
      GoodUpdateUnfolds(env, st, u);
      RecordedSameAlarms(st, u);
      ChangeTells(env, mid, j, u.tag);
      FollowsTells(TagChanged(env, mid, u.tag, 0), r);
    }
  }

  lemma {:induction false} RecordedSameAlarms(st: State, u: TagReadResult)
    requires u.ok
    ensures AlarmsConsistent(st) ==> AlarmsConsistent(Recorded(st, u))
    ensures forall id :: AlarmOf(Recorded(st, u), id) == AlarmOf(st, id)
  {
    SameAlarmsConsistent(st, Recorded(st, u));
  }

  lemma {:induction false} FollowsTells(st: State, r: Alarm)
    ensures AlarmNow(st, r) == AlarmOf(st, r.id)
    ensures Follows(st, r) ==> (AlarmNow(st, r).active <==> Raised(st, r) || AlarmNow(st, r).latched)
  {
    RaisedIsCondition(st, r);
  }

  lemma {:induction false} UpdatesTellAlarm(env: Env, st: State, us: seq<TagReadResult>, k: nat, j: nat, w: Sight)
    requires k <= |us| && j < |env.assocs| && env.assocs[j].AlarmRule? && UniqueRuleIds(env)
    requires AlarmsConsistent(st) && Tells(st, env.assocs[j], w)
    ensures Tells(ApplyUpdates(env, st, us, k), env.assocs[j], SightAfterEach(w, us, k, env.assocs[j].tag))
    decreases |us| - k
  {
    hide ApplyUpdate, Tells, SightAfter, AlarmsConsistent;
    if k < |us| {
      UpdateTellsAlarm(env, st, us[k], j, w);
      UpdatesTellAlarm(env, ApplyUpdate(env, st, us[k]), us, k + 1, j, SightAfter(w, us[k], env.assocs[j].tag));
    }
  }

  lemma {:induction false} AckTells(env: Env, st: State, j: nat, w: Sight)
    requires j < |env.assocs| && env.assocs[j].AlarmRule? && UniqueRuleIds(env)
    requires Tells(st, env.assocs[j], w)
    ensures Tells(Acknowledge(env, st, env.assocs[j].id), env.assocs[j],
                  Sight(w.good, w.current, w.silenced || !w.current))
  {
    hide Acknowledge, Exceeds, Condition, Raised;
    var r: Alarm := env.assocs[j];
    AcknowledgeEnds(env, st, r.id, j);
    AcknowledgeKeepsTags(env, st, r.id);
    RaisedIsCondition(st, r);
    if w.good.Some? {
      RaisedTells(st, r, w);
    }
  }

  lemma {:induction false} RaisedTells(st: State, r: Alarm, w: Sight)
    requires Tells(st, r, w) && w.good.Some?
    ensures Raised(st, r) <==> w.current && Exceeds(r, w.good.value)
  {
    hide Exceeds;
  }

  lemma {:induction false} AcknowledgeKeepsTags(env: Env, st: State, id: string)
    ensures Acknowledge(env, st, id).tags == st.tags
    ensures forall other :: other != id ==> AlarmOf(Acknowledge(env, st, id), other) == AlarmOf(st, other)
  {
    hide Condition, Removed, FirstRule, AlarmOf;
    if id in st.alarms {
      WithAlarmLookup(st, id, st.alarms[id].(latched := false), st.fired);
      WithAlarmLookup(st, id, AlarmState(false, false), Removed(st.fired, id));
    }
  }

  lemma {:induction false} AckOther(env: Env, st: State, id: string, r: Alarm)
    requires id != r.id
    ensures SameAlarmAndTag(st, Acknowledge(env, st, id), r)
  {
    hide Acknowledge, AlarmOf, AlarmNow;
    AcknowledgeKeepsTags(env, st, id);
    FollowsTells(st, r);
    FollowsTells(Acknowledge(env, st, id), r);
  }

  lemma {:induction false} AckEachTells(env: Env, st: State, ids: seq<string>, k: nat, j: nat, w: Sight)
    requires k <= |ids| && j < |env.assocs| && env.assocs[j].AlarmRule? && UniqueRuleIds(env)
    requires Tells(st, env.assocs[j], w)
    ensures Tells(AcknowledgeEach(env, st, ids, k), env.assocs[j],
                  if env.assocs[j].id in ids[k..] then Sight(w.good, w.current, w.silenced || !w.current) else w)
    decreases |ids| - k
  {
    hide Acknowledge, Tells;
    if k < |ids| {
      var r, next := env.assocs[j], Acknowledge(env, st, ids[k]);
      assert ids[k..] == [ids[k]] + ids[k + 1..];
      if ids[k] == r.id {
        AckTells(env, st, j, w);
        AckEachTells(env, next, ids, k + 1, j, Sight(w.good, w.current, w.silenced || !w.current));
      } else {
        AckOther(env, st, ids[k], r);
        SameTells(st, next, r, w);
        AckEachTells(env, next, ids, k + 1, j, w);
      }
    }
  }

  /** Acknowledging everything silences an alarm that is off already just as well. */
  lemma {:induction false} AckAllTells(env: Env, st: State, j: nat, w: Sight)
    requires j < |env.assocs| && env.assocs[j].AlarmRule? && UniqueRuleIds(env) && AlarmsConsistent(st)
    requires Tells(st, env.assocs[j], w)
    ensures Tells(AcknowledgeEach(env, st, st.fired, 0), env.assocs[j],
                  Sight(w.good, w.current, w.silenced || !w.current))
  {
    hide AcknowledgeEach, Exceeds;
    var r: Alarm := env.assocs[j];
    assert st.fired[0..] == st.fired;
    AckEachTells(env, st, st.fired, 0, j, w);
    if r.id !in st.fired {
      assert !AlarmOf(st, r.id).active;
      AckedOthers(env, st, st.fired, 0, r.id);
    }
  }

  lemma {:induction false} AckedOthers(env: Env, st: State, ids: seq<string>, k: nat, id: string)
    requires k <= |ids| && id !in ids[k..]
    ensures AlarmOf(AcknowledgeEach(env, st, ids, k), id) == AlarmOf(st, id)
    decreases |ids| - k
  {
    hide Acknowledge, AlarmOf;
    if k < |ids| {
      assert ids[k..] == [ids[k]] + ids[k + 1..];
      AcknowledgeKeepsTags(env, st, ids[k]);
      AckedOthers(env, Acknowledge(env, st, ids[k]), ids, k + 1, id);
    }
  }

  /** Everything but updates and acknowledgements leaves tags and alarms alone. */
  lemma {:induction false} OthersTell(env: Env, st: State, op: Op, r: Alarm)
    requires !op.Updates? && !Acknowledges(op, r.id)
    ensures SameAlarmAndTag(st, Apply(env, st, op), r)
  {
    hide Fire, Interact, Acknowledge, AlarmOf;
    match op
    case Event(id, ev) => FireKeepsCore(env, st, id, ev, 0, 0);
    case Input(id, key, v) => InteractKeepsCore(env, st, id, key, v);
    case Ack(rule) => AckOther(env, st, rule, r);
    case Tick(_) =>
    case DrainActions =>
  }

  lemma {:induction false} RunTellsAlarm(env: Env, st: State, ops: seq<Op>, j: nat, w: Sight)
    requires j < |env.assocs| && env.assocs[j].AlarmRule? && UniqueRuleIds(env) && AlarmsConsistent(st)
    requires Tells(st, env.assocs[j], w)
    ensures Tells(Run(env, st, ops), env.assocs[j], SightOf(w, ops, env.assocs[j]))
    decreases |ops|
  {
    hide Apply, Tells, SightAfterEach, AlarmsConsistent;
    if ops != [] {
      var r: Alarm := env.assocs[j];
      var next := Apply(env, st, ops[0]);
      ApplyLaws(env, st, ops[0]);
      if ops[0].Updates? || Acknowledges(ops[0], r.id) {
        OpTellsAlarm(env, st, ops[0], j, w);
      } else {
        OthersTell(env, st, ops[0], r);
        SameTells(st, next, r, w);
        RunTellsAlarm(env, next, ops[1..], j, w);
      }
      if ops[0].Updates? {
        RunTellsAlarm(env, next, ops[1..], j, SightAfterEach(w, ops[0].us, 0, r.tag));
      } else if Acknowledges(ops[0], r.id) {
        RunTellsAlarm(env, next, ops[1..], j, Sight(w.good, w.current, w.silenced || !w.current));
      }
    }
  }

  lemma {:induction false} OpTellsAlarm(env: Env, st: State, op: Op, j: nat, w: Sight)
    requires j < |env.assocs| && env.assocs[j].AlarmRule? && UniqueRuleIds(env) && AlarmsConsistent(st)
    requires Tells(st, env.assocs[j], w) && (op.Updates? || Acknowledges(op, env.assocs[j].id))
    ensures op.Updates? ==>
              Tells(Apply(env, st, op), env.assocs[j], SightAfterEach(w, op.us, 0, env.assocs[j].tag))
    ensures !op.Updates? ==>
              Tells(Apply(env, st, op), env.assocs[j], Sight(w.good, w.current, w.silenced || !w.current))
  {
    hide Tells, SightAfterEach, AlarmsConsistent, ApplyUpdates, Acknowledge, AcknowledgeEach;
    match op
    case Updates(us) => UpdatesTellAlarm(env, st, us, 0, j, w);
    case Ack(rule) => AckTells(env, st, j, w);
    case AckAll => AckAllTells(env, st, j, w);
  }

  /** Over every run from a rebind with unique rule ids: once the tag of a rule has had good data, its alarm, if
      not latched, is on if and only if the last good value is beyond the threshold in the sense of the rule and
      the alarm has not been acknowledged while the data was bad. Without good data it is off. */
  lemma {:induction false} AlarmIsLastGood(env: Env, tags: map<string, Tag>, comps: map<string, Component>,
                                          ops: seq<Op>, j: nat)
    requires j < |env.assocs| && env.assocs[j].AlarmRule? && UniqueRuleIds(env) && env.assocs[j].tag in tags
    ensures var w := SightOf(Sight(None, false, false), ops, env.assocs[j]);
            var st, r := Run(env, Rebound(tags, comps), ops), env.assocs[j];
            && (w.good.Some? && !AlarmNow(st, r).latched ==>
                  (AlarmNow(st, r).active <==> Exceeds(r, w.good.value) && !w.silenced))
            && (w.good.None? ==> AlarmNow(st, r) == AlarmState(false, false))
            && (AlarmNow(st, r).latched ==> AlarmNow(st, r).active)
  {
    hide Run, SightOf, Exceeds;
    RunTellsAlarm(env, Rebound(tags, comps), ops, j, Sight(None, false, false));
  }

  lemma {:induction false} RunThen(env: Env, st: State, ops: seq<Op>, op: Op)
    ensures Run(env, st, ops + [op]) == Apply(env, Run(env, st, ops), op)
    decreases |ops|
  {
    hide Apply;
    if ops == [] {
      assert [op][1..] == [];
    } else {
      assert (ops + [op])[1..] == ops[1..] + [op];
      RunThen(env, Apply(env, st, ops[0]), ops[1..], op);
    }
  }

  lemma {:induction false} OneSight(w: Sight, u: TagReadResult, r: Alarm, rest: seq<Op>)
    ensures SightOf(w, [Updates([u])] + rest, r) == SightOf(SightAfter(w, u, r.tag), rest, r)
  {
    assert SightAfterEach(w, [u], 0, r.tag) == SightAfter(w, u, r.tag);
  }

  lemma {:induction false} AckSight(w: Sight, r: Alarm)
    ensures SightOf(w, [Ack(r.id)], r) == Sight(w.good, w.current, w.silenced || !w.current)
  {
  }

  /** The last good value alone does not decide: a rule for more than 50 whose tag reads 100, then loses its data,
      and is then acknowledged, has its alarm off. */
  lemma {:induction false} AcknowledgedWithoutData(env: Env, comps: map<string, Component>)
    requires env.assocs == [AlarmRule("r", "t", GT, 50.0, false, [])]
    ensures var tags := map["t" := Tag(IntValue(0), CommLost, 0)];
            var ops := [Updates([TagReadResult("t", true, IntValue(100), Good)])]
                       + ([Updates([TagReadResult("t", false, IntValue(0), Bad)])] + [Ack("r")]);
            var st := Run(env, Rebound(tags, comps), ops);
            && SightOf(Sight(None, false, false), ops, env.assocs[0]).good == Some(IntValue(100))
            && Exceeds(env.assocs[0], IntValue(100)) && AlarmNow(st, env.assocs[0]) == AlarmState(false, false)
  {
    hide Run, SightOf, SightAfterEach, Apply, Acknowledge;
    var r: Alarm := env.assocs[0];
    var tags := map["t" := Tag(IntValue(0), CommLost, 0)];
    var u, v := TagReadResult("t", true, IntValue(100), Good), TagReadResult("t", false, IntValue(0), Bad);
    var first, last := [Updates([u])] + [Updates([v])], [Updates([v])] + [Ack("r")];
    var ops := [Updates([u])] + last;
    OneSight(Sight(None, false, false), u, r, last);
    OneSight(Sight(Some(IntValue(100)), true, false), v, r, [Ack("r")]);
    AckSight(Sight(Some(IntValue(100)), false, false), r);
    AlarmIsLastGood(env, tags, comps, ops, 0);
    assert ops == first + [Ack("r")];
    RunThen(env, Rebound(tags, comps), first, Ack("r"));
    EndsUnlatched(env, Run(env, Rebound(tags, comps), first), 0);
  }

  lemma {:induction false} EndsUnlatched(env: Env, st: State, j: nat)
    requires UniqueRuleIds(env) && j < |env.assocs| && env.assocs[j].AlarmRule?
    ensures !AlarmNow(Apply(env, st, Ack(env.assocs[j].id)), env.assocs[j]).latched
  {
    hide Acknowledge, Condition, AlarmOf, AlarmNow;
    AcknowledgeEnds(env, st, env.assocs[j].id, j);
    FollowsTells(Acknowledge(env, st, env.assocs[j].id), env.assocs[j]);
  }
}
