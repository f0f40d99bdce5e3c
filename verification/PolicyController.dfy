/** The controller for telemetry policies (telemetry-aware-scheduling/pkg/controller): adding, updating and deleting
    policies keeps the metric counts and the strategy registry in step with the policies alive. */
module PolicyController {
  import opened Text
  import opened Strategies
  import opened MetricCache
  import opened StrategyRegistry

  /** A policy: strategy type -> strategy. */
  datatype Policy = Policy(name: string, strategies: map<string, Strategy>)

  /** The metric counts, the metric store and the registry. */
  datatype State = State(counts: Counts, store: Store, registry: Registry)

  const NO_STRATEGY := Strategy("", "", [])

  function Of(p: Policy, t: string): Strategy { if t in p.strategies then p.strategies[t] else NO_STRATEGY }

  function Named(p: Policy, t: string): Strategy { Of(p, t).(policyName := p.name) }

  // ---- one strategy ----

  function WriteNil(st: State, m: string): State {
    if m == "" then st
    else st.(counts := Increment(st.counts, m), store := Handle(st.store, Write(m, None)))
  }

  function DropMetric(st: State, m: string): State {
    st.(counts := Decrement(st.counts, m), store := if IsLast(st.counts, m) then st.store - {m} else st.store)
  }

  function WriteRules(st: State, rules: seq<Rule>): State {
    if rules == [] then st else WriteNil(WriteRules(st, rules[..|rules| - 1]), rules[|rules| - 1].metricname)
  }

  function DropRules(st: State, rules: seq<Rule>): State {
    if rules == [] then st else DropMetric(DropRules(st, rules[..|rules| - 1]), rules[|rules| - 1].metricname)
  }

  function AddOne(st: State, s: Strategy, t: string): State {
    WriteRules(st.(registry := Added(st.registry, s, t)), s.rules)
  }

  function RemoveOne(st: State, s: Strategy, t: string): State {
    DropRules(st.(registry := Removed(st.registry, s, t)), s.rules)
  }

  // ---- one policy: its strategy types in the order in which its map is ranged over ----

  function Add(st: State, p: Policy, order: seq<string>): State {
    if order == [] then st
    else
      var t := order[|order| - 1];
      AddOne(Add(st, p, order[..|order| - 1]), Named(p, t), t)
  }

  /** For every type of the new policy the old strategy of that type, if any, is replaced. */
  function Update(st: State, older: Policy, newer: Policy, order: seq<string>): State {
    if order == [] then st
    else
      var t := order[|order| - 1];
      AddOne(RemoveOne(Update(st, older, newer, order[..|order| - 1]), Named(Policy(newer.name, older.strategies), t), t),
             Named(newer, t), t)
  }

  function Remove(st: State, p: Policy, order: seq<string>): State {
    if order == [] then st
    else
      var t := order[|order| - 1];
      RemoveOne(Remove(st, p, order[..|order| - 1]), Named(p, t), t)
  }

  lemma AddStep(st: State, p: Policy, order: seq<string>, t: string)
    ensures Add(st, p, order + [t]) == AddOne(Add(st, p, order), Named(p, t), t)
  {
    assert (order + [t])[..|order|] == order;
  }

  lemma UpdateStep(st: State, older: Policy, newer: Policy, order: seq<string>, t: string)
    ensures Update(st, older, newer, order + [t])
         == AddOne(RemoveOne(Update(st, older, newer, order), Named(Policy(newer.name, older.strategies), t), t),
                   Named(newer, t), t)
  {
    assert (order + [t])[..|order|] == order;
  }

  lemma RemoveStep(st: State, p: Policy, order: seq<string>, t: string)
    ensures Remove(st, p, order + [t]) == RemoveOne(Remove(st, p, order), Named(p, t), t)
  {
    assert (order + [t])[..|order|] == order;
  }

  /** The types handled: all of them, unless an invalid one stops the handler before its end. */
  ghost predicate Handled(p: Policy, order: seq<string>) {
    && (forall i, j :: 0 <= i < j < |order| ==> order[i] != order[j])
    && (forall t :: t in order ==> t in p.strategies && ValidType(t))
    && ((forall t :: t in p.strategies ==> ValidType(t)) ==> forall t :: t in p.strategies ==> t in order)
  }

  class TelemetryPolicyController {
    const cache: AutoUpdatingCache
    const enforcer: MetricEnforcer

    constructor (cache: AutoUpdatingCache, enforcer: MetricEnforcer)
      ensures this.cache == cache && this.enforcer == enforcer
    {
      this.cache, this.enforcer := cache, enforcer;
    }

    ghost function Now(): State
      reads cache, enforcer
    {
      State(cache.metricMap, cache.store, enforcer.registeredStrategies)
    }

    method AddStrategyAndMetrics(s: Strategy, t: string)
      modifies cache, enforcer
      ensures Now() == AddOne(old(Now()), s, t)
    {
      enforcer.AddStrategy(s, t);
      ghost var start := Now();
      for i := 0 to |s.rules|
        invariant Now() == WriteRules(start, s.rules[..i])
      {
        assert s.rules[..i + 1][..i] == s.rules[..i];
        var ok := cache.WriteMetric(s.rules[i].metricname, map[]);
      }
      assert s.rules[..|s.rules|] == s.rules;
    }

    method RemoveStrategyAndMetrics(s: Strategy, t: string)
      modifies cache, enforcer
      ensures Now() == RemoveOne(old(Now()), s, t)
    {
      enforcer.RemoveStrategy(s, t);
      ghost var start := Now();
      for i := 0 to |s.rules|
        invariant Now() == DropRules(start, s.rules[..i])
      {
        assert s.rules[..i + 1][..i] == s.rules[..i];
        cache.DeleteMetric(s.rules[i].metricname);
      }
      assert s.rules[..|s.rules|] == s.rules;
    }

    method OnAdd(p: Policy) returns (ghost order: seq<string>)
      modifies cache, enforcer
      ensures Now() == Add(old(Now()), p, order)
      ensures if p.name == "" then order == [] else Handled(p, order)
    {
      order := [];
      if p.name == "" {
        return;
      }
      var todo := p.strategies.Keys;
      while todo != {}
        invariant Progress(p, todo, order)
        invariant Now() == Add(old(Now()), p, order)
        decreases todo
      {
        var t := AnyOf(todo);
        if !ValidType(t) {
          return;
        }
        AddStrategyAndMetrics(Named(p, t), t);
        todo := todo - {t};
        AddStep(old(Now()), p, order, t);
        order := order + [t];
      }
    }

    method OnUpdate(older: Policy, newer: Policy) returns (ghost order: seq<string>)
      modifies cache, enforcer
      ensures Now() == Update(old(Now()), older, newer, order)
      ensures if newer.name == "" then order == [] else Handled(newer, order)
    {
      order := [];
      if newer.name == "" {
        return;
      }
      var todo := newer.strategies.Keys;
      while todo != {}
        invariant Progress(newer, todo, order)
        invariant Now() == Update(old(Now()), older, newer, order)
        decreases todo
      {
        var t := AnyOf(todo);
        if !ValidType(t) {
          return;
        }
        RemoveStrategyAndMetrics(Named(Policy(newer.name, older.strategies), t), t);
        AddStrategyAndMetrics(Named(newer, t), t);
        todo := todo - {t};
        UpdateStep(old(Now()), older, newer, order, t);
        order := order + [t];
      }
    }

    method OnDelete(p: Policy) returns (ghost order: seq<string>)
      modifies cache, enforcer
      ensures Now() == Remove(old(Now()), p, order)
      ensures Handled(p, order)
    {
      order := [];
      var todo := p.strategies.Keys;
      while todo != {}
        invariant Progress(p, todo, order)
        invariant Now() == Remove(old(Now()), p, order)
        decreases todo
      {
        var t := AnyOf(todo);
        if !ValidType(t) {
          return;
        }
        RemoveStrategyAndMetrics(Named(p, t), t);
        todo := todo - {t};
        RemoveStep(old(Now()), p, order, t);
        order := order + [t];
      }
    }
  }

  ghost predicate Progress(p: Policy, todo: set<string>, order: seq<string>) {
    && todo <= p.strategies.Keys
    && (forall i, j :: 0 <= i < j < |order| ==> order[i] != order[j])
    && (forall t :: t in order <==> t in p.strategies && t !in todo)
    && forall t :: t in order ==> ValidType(t)
  }
}
