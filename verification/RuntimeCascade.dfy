/** The linkage cascade: what it leaves alone, how much work it can do, and when its depth cap makes
    no difference. */
module RuntimeCascade {
  import opened Values
  import opened RuntimeModel

  // ---- What a cascade leaves alone ----

  /** Only properties, the overlay, pulses and the action queue differ. */
  ghost predicate SameCore(st: State, st': State) {
    && st'.tags == st.tags && st'.history == st.history && st'.alarms == st.alarms
    && st'.fired == st.fired && st'.now == st.now && st'.comps.Keys == st.comps.Keys
  }

  lemma {:induction false} ExecuteKeepsCore(env: Env, st: State, l: Association, depth: nat)
    requires l.LinkageRule?
    ensures SameCore(st, Execute(env, st, l, depth))
    decreases Left(depth), 2, 0
  {
    hide SetValue, Fire, Leaf;
    if depth <= MAX_DEPTH {
      if l.action == SetProperty {
        SetValueKeepsCore(env, st.(executed := st.executed + 1), l.target, l.param, l.value, depth);
      } else {
        LeafKeepsCore(st.(executed := st.executed + 1), l);
      }
    }
  }

  lemma {:induction false} LeafKeepsCore(st: State, l: Association)
    requires l.LinkageRule? && l.action != SetProperty
    ensures SameCore(st, Leaf(st, l)) && Leaf(st, l).executed == st.executed
  {
  }

  lemma {:induction false} SetValueKeepsCore(env: Env, st: State, id: string, key: string, v: PropertyValue, depth: nat)
    ensures SameCore(st, SetValue(env, st, id, key, v, depth))
    decreases Left(depth), 1, 0
  {
    hide Execute, Fire, WriteProperty;
    if id in st.comps {
      WriteKeepsCore(env, st, id, key, v);
    }
    if id in st.comps && depth <= MAX_DEPTH {
      FireKeepsCore(env, WriteProperty(env, st, id, key, v), id, ValueChanged, depth + 1, 0);
    }
  }

  lemma {:induction false} WriteKeepsCore(env: Env, st: State, id: string, key: string, v: PropertyValue)
    requires id in st.comps
    ensures SameCore(st, WriteProperty(env, st, id, key, v))
    ensures WriteProperty(env, st, id, key, v).executed == st.executed
  {
    hide Bound;
  }

  lemma {:induction false} FireKeepsCore(env: Env, st: State, source: string, ev: LinkageEvent, depth: nat, i: nat)
    requires i <= |env.assocs|
    ensures SameCore(st, Fire(env, st, source, ev, depth, i))
    decreases Left(depth), 3, |env.assocs| - i
  {
    hide Execute, SetValue;
    if i < |env.assocs| {
      var next := if Triggers(env.assocs[i], source, ev) then Execute(env, st, env.assocs[i], depth) else st;
      if Triggers(env.assocs[i], source, ev) {
        ExecuteKeepsCore(env, st, env.assocs[i], depth);
      }
      FireKeepsCore(env, next, source, ev, depth, i + 1);
    }
  }

  // ---- How many actions a cascade carries out ----

  /** The number of linkage rules from index i on. */
  function Rules(env: Env, i: nat): nat
    requires i <= |env.assocs|
    decreases |env.assocs| - i
  {
    if i == |env.assocs| then 0 else (if env.assocs[i].LinkageRule? then 1 else 0) + Rules(env, i + 1)
  }

  /** 1 + n + n² + ... with one term per level that is left. */
  function Tree(n: nat, levels: nat): nat {
    if levels == 0 then 0 else 1 + n * Tree(n, levels - 1)
  }

  lemma {:induction false} ExecuteWork(env: Env, st: State, l: Association, depth: nat)
    requires l.LinkageRule?
    ensures Execute(env, st, l, depth).executed <= st.executed + Tree(Rules(env, 0), Left(depth))
    decreases Left(depth), 2, 0
  {
    hide SetValue, Fire, Rules, Leaf, Tree;
    TreeUnfolds(Rules(env, 0), depth);
    if depth <= MAX_DEPTH {
      if l.action == SetProperty {
        SetValueWork(env, st.(executed := st.executed + 1), l.target, l.param, l.value, depth);
      } else {
        LeafKeepsCore(st.(executed := st.executed + 1), l);
      }
    }
  }

  lemma {:induction false} SetValueWork(env: Env, st: State, id: string, key: string, v: PropertyValue, depth: nat)
    ensures SetValue(env, st, id, key, v, depth).executed
         <= st.executed + if depth > MAX_DEPTH then 0 else Rules(env, 0) * Tree(Rules(env, 0), Left(depth + 1))
    decreases Left(depth), 1, 0
  {
    hide Execute, Fire, WriteProperty, Rules, Tree;
    if id in st.comps {
      WriteKeepsCore(env, st, id, key, v);
    }
    if id in st.comps && depth <= MAX_DEPTH {
      FireWork(env, WriteProperty(env, st, id, key, v), id, ValueChanged, depth + 1, 0);
    }
  }

  lemma {:induction false} FireWork(env: Env, st: State, source: string, ev: LinkageEvent, depth: nat, i: nat)
    requires i <= |env.assocs|
    ensures Fire(env, st, source, ev, depth, i).executed
         <= st.executed + Rules(env, i) * Tree(Rules(env, 0), Left(depth))
    decreases Left(depth), 3, |env.assocs| - i
  {
    hide Execute, SetValue, Tree;
    if i < |env.assocs| {
      var t := Tree(Rules(env, 0), Left(depth));
      var next := if Triggers(env.assocs[i], source, ev) then Execute(env, st, env.assocs[i], depth) else st;
      if Triggers(env.assocs[i], source, ev) {
        ExecuteWork(env, st, env.assocs[i], depth);
      }
      FireWork(env, next, source, ev, depth, i + 1);
      assert env.assocs[i].LinkageRule? ==> Rules(env, i) * t == t + Rules(env, i + 1) * t;
    }
  }

  function Pow(n: nat, k: nat): nat {
    if k == 0 then 1 else n * Pow(n, k - 1)
  }

  /** n + n² + ... + n^k */
  function PowerSum(n: nat, k: nat): nat {
    if k == 0 then 0 else PowerSum(n, k - 1) + Pow(n, k)
  }

  lemma {:induction false} Distribute(n: nat, a: nat, b: nat)
    ensures n * (a + b) == n * a + n * b
  {
  }

  lemma {:induction false} TreeIsPowerSum(n: nat, k: nat)
    ensures n * Tree(n, k) == PowerSum(n, k)
  {
    if k > 0 {
      TreeIsPowerSum(n, k - 1);
      PowerSumFactors(n, k - 1);
      Distribute(n, 1, n * Tree(n, k - 1));
    }
  }

  lemma {:induction false} PowerSumFactors(n: nat, k: nat)
    ensures n + n * PowerSum(n, k) == PowerSum(n, k + 1)
  {
    if k == 0 {
      assert Pow(n, 1) == n * Pow(n, 0);
    } else {
      PowerSumFactors(n, k - 1);
      Distribute(n, PowerSum(n, k - 1), Pow(n, k));
    }
  }

  /** However the rules refer to one another, one event of a component carries out at most
      n + n² + ... + n⁹ actions, n being the number of linkage rules. */
  lemma {:induction false} EventWorkBound(env: Env, st: State, id: string, ev: LinkageEvent)
    ensures Apply(env, st, Event(id, ev)).executed <= st.executed + PowerSum(Rules(env, 0), 9)
  {
    FireWork(env, st, id, ev, 0, 0);
    TreeIsPowerSum(Rules(env, 0), 9);
  }

  /** Every linkage rule makes component id set a property of itself whenever it changes. */
  ghost predicate AllSelfTriggering(env: Env, id: string) {
    forall i :: 0 <= i < |env.assocs| && env.assocs[i].LinkageRule? ==>
      && Triggers(env.assocs[i], id, ValueChanged)
      && env.assocs[i].action == SetProperty && env.assocs[i].target == id
  }

  lemma {:induction false} SelfTriggeringWork(env: Env, st: State, id: string, depth: nat, i: nat)
    requires AllSelfTriggering(env, id) && id in st.comps && i <= |env.assocs|
    ensures Fire(env, st, id, ValueChanged, depth, i).executed
         == st.executed + Rules(env, i) * Tree(Rules(env, 0), Left(depth))
    decreases Left(depth), |env.assocs| - i
  {
    hide Fire, Execute, WriteProperty, Rules, Tree;
    var t := Tree(Rules(env, 0), Left(depth));
    FireUnfolds(env, st, id, ValueChanged, depth, i);
    RulesUnfolds(env, i, t);
    if i < |env.assocs| {
      var l := env.assocs[i];
      if l.LinkageRule? {
        var next := Execute(env, st, l, depth);
        ExecuteKeepsCore(env, st, l, depth);
        SelfExecuteUnfolds(env, st, l, id, depth);
        TreeUnfolds(Rules(env, 0), depth);
        if depth <= MAX_DEPTH {
          var once := st.(executed := st.executed + 1);
          WriteKeepsCore(env, once, id, l.param, l.value);
          SelfTriggeringWork(env, WriteProperty(env, once, id, l.param, l.value), id, depth + 1, 0);
        }
        assert next.executed == st.executed + t;
        SelfTriggeringWork(env, next, id, depth, i + 1);
      } else {
        SelfTriggeringWork(env, st, id, depth, i + 1);
      }
    }
  }

  lemma {:induction false} FireUnfolds(env: Env, st: State, source: string, ev: LinkageEvent, depth: nat, i: nat)
    requires i <= |env.assocs|
    ensures Fire(env, st, source, ev, depth, i)
         == if i == |env.assocs| then st
            else Fire(env, if Triggers(env.assocs[i], source, ev) then Execute(env, st, env.assocs[i], depth) else st,
                      source, ev, depth, i + 1)
  {
    hide Execute, Triggers;
  }

  lemma {:induction false} RulesUnfolds(env: Env, i: nat, t: nat)
    requires i <= |env.assocs|
    ensures Rules(env, i) * t
         == if i == |env.assocs| then 0 else (if env.assocs[i].LinkageRule? then t else 0) + Rules(env, i + 1) * t
  {
  }

  lemma {:induction false} TreeUnfolds(n: nat, depth: nat)
    ensures Tree(n, Left(depth)) == if depth > MAX_DEPTH then 0 else 1 + n * Tree(n, Left(depth + 1))
  {
  }

  /** A rule that sets a property of component id writes it and fires the rules of the component. */
  lemma {:induction false} SelfExecuteUnfolds(env: Env, st: State, l: Association, id: string, depth: nat)
    requires l.LinkageRule? && l.action == SetProperty && l.target == id && id in st.comps
    ensures Execute(env, st, l, depth)
         == if depth > MAX_DEPTH then st
            else Fire(env, WriteProperty(env, st.(executed := st.executed + 1), id, l.param, l.value),
                      id, ValueChanged, depth + 1, 0)
  {
    hide Fire, WriteProperty;
  }

  /** The bound is attained, for any number of rules. */
  lemma {:induction false} EventWorkBoundAttained(env: Env, st: State, id: string)
    requires AllSelfTriggering(env, id) && id in st.comps
    ensures Apply(env, st, Event(id, ValueChanged)).executed == st.executed + PowerSum(Rules(env, 0), 9)
  {
    SelfTriggeringWork(env, st, id, 0, 0);
    TreeIsPowerSum(Rules(env, 0), 9);
  }

  // ---- The cascade without a cap ----

  /** A height for every component that drops along every ValueChanged rule. */
  ghost predicate Ranked(env: Env, rank: string -> nat) {
    forall i :: 0 <= i < |env.assocs| && env.assocs[i].LinkageRule? && env.assocs[i].event == ValueChanged ==>
      rank(env.assocs[i].source) > Height(env.assocs[i], rank)
  }

  /** How many levels of ValueChanged rules an action can still set off. */
  function Height(l: Association, rank: string -> nat): nat
    requires l.LinkageRule?
  {
    if l.action == SetProperty then rank(l.target) else 0
  }

  ghost function ExecuteFully(env: Env, rank: string -> nat, st: State, l: Association): State
    requires l.LinkageRule? && Ranked(env, rank)
    decreases Height(l, rank), 2, 0
  {
    var st := st.(executed := st.executed + 1);
    if l.action == SetProperty then SetValueFully(env, rank, st, l.target, l.param, l.value)
    else Leaf(st, l)
  }

  ghost function SetValueFully(env: Env, rank: string -> nat, st: State, id: string, key: string,
                               v: PropertyValue): State
    requires Ranked(env, rank)
    decreases rank(id), 1, 0
  {
    if id !in st.comps then st
    else CascadeFully(env, rank, WriteProperty(env, st, id, key, v), id, 0)
  }

  ghost function CascadeFully(env: Env, rank: string -> nat, st: State, source: string, i: nat): State
    requires i <= |env.assocs| && Ranked(env, rank)
    decreases rank(source), 0, |env.assocs| - i
  {
    if i == |env.assocs| then st
    else
      var st := if Triggers(env.assocs[i], source, ValueChanged)
                then ExecuteFully(env, rank, st, env.assocs[i]) else st;
      CascadeFully(env, rank, st, source, i + 1)
  }

  /** An action whose remaining levels fit under the cap does what unlimited recursion does. */
  lemma {:induction false} CapMakesNoDifference(env: Env, rank: string -> nat, st: State, l: Association, depth: nat)
    requires l.LinkageRule? && Ranked(env, rank) && depth + Height(l, rank) <= MAX_DEPTH
    ensures Execute(env, st, l, depth) == ExecuteFully(env, rank, st, l)
    decreases Height(l, rank), 2, 0
  {
    hide SetValue, Fire, SetValueFully, CascadeFully;
    if l.action == SetProperty {
      SetValueUncapped(env, rank, st.(executed := st.executed + 1), l.target, l.param, l.value, depth);
    }
  }

  lemma {:induction false} SetValueUncapped(env: Env, rank: string -> nat, st: State, id: string, key: string,
                                            v: PropertyValue, depth: nat)
    requires Ranked(env, rank) && depth + rank(id) <= MAX_DEPTH
    ensures SetValue(env, st, id, key, v, depth) == SetValueFully(env, rank, st, id, key, v)
    decreases rank(id), 1, 0
  {
    hide Execute, Fire, CascadeFully, WriteProperty;
    if id in st.comps {
      CascadeUncapped(env, rank, WriteProperty(env, st, id, key, v), id, depth, 0);
    }
  }

  lemma {:induction false} CascadeUncapped(env: Env, rank: string -> nat, st: State, source: string, depth: nat, i: nat)
    requires i <= |env.assocs| && Ranked(env, rank) && depth + rank(source) <= MAX_DEPTH
    ensures Fire(env, st, source, ValueChanged, depth + 1, i) == CascadeFully(env, rank, st, source, i)
    decreases rank(source), 0, |env.assocs| - i
  {
    hide Execute, SetValue, ExecuteFully, SetValueFully;
    if i < |env.assocs| {
      var l := env.assocs[i];
      if Triggers(l, source, ValueChanged) {
        CapMakesNoDifference(env, rank, st, l, depth + 1);
        CascadeUncapped(env, rank, ExecuteFully(env, rank, st, l), source, depth, i + 1);
      } else {
        CascadeUncapped(env, rank, st, source, depth, i + 1);
      }
    }
  }
}
