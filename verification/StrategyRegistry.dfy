/** The enforcer's registry of strategies (strategies/core/enforcer.go) and the equality the strategy types use to
    find them in it. */
module StrategyRegistry {
  import opened Strategies

  const SCHEDULE_ON_METRIC := "scheduleonmetric"
  const DESCHEDULE := "deschedule"
  const DONT_SCHEDULE := "dontschedule"
  const LABELING := "labeling"

  /** The types castStrategy accepts. */
  predicate ValidType(t: string) { t == SCHEDULE_ON_METRIC || t == DESCHEDULE || t == DONT_SCHEDULE || t == LABELING }

  /** The types with both Enforce and Cleanup. */
  predicate Enforceable(t: string) { t == DESCHEDULE || t == LABELING }

  /** Only labeling looks at the labels, and only as far as a's go. */
  predicate EqualRules(a: Rule, b: Rule, t: string) {
    a.metricname == b.metricname && a.target == b.target && a.operator == b.operator
    && (t == LABELING ==> a.labels <= b.labels)
  }

  /** Strategies without rules equal nothing, not even themselves; the logical operator is not compared. */
  predicate Equals(d: Strategy, other: Strategy, t: string) {
    && other.policyName == d.policyName
    && |d.rules| > 0 && |d.rules| == |other.rules|
    && forall i :: 0 <= i < |d.rules| ==> EqualRules(d.rules[i], other.rules[i], t)
  }

  /** A strategy without what is not compared. */
  function Compared(s: Strategy): (plain: Strategy)
    ensures |plain.rules| == |s.rules|
    ensures forall i :: 0 <= i < |s.rules| ==> plain.rules[i] == s.rules[i].(labels := [])
  {
    Strategy(s.policyName, "", seq(|s.rules|, i requires 0 <= i < |s.rules| => s.rules[i].(labels := [])))
  }

  /** Strategies are equal exactly when they have rules and differ at most in the logical operator and in labels; for
      labeling, what one has in labels must be the beginning of what the other has. So only for labeling is it not
      symmetric. */
  lemma EqualsMeans(d: Strategy, other: Strategy, t: string)
    ensures Equals(d, other, t) <==>
      && d.rules != [] && Compared(d) == Compared(other)
      && (t == "labeling" ==> forall i :: 0 <= i < |d.rules| ==> d.rules[i].labels <= other.rules[i].labels)
    ensures t != "labeling" ==> (Equals(d, other, t) <==> Equals(other, d, t))
    ensures t == "labeling" && Equals(d, other, t) && Equals(other, d, t) ==> d.rules == other.rules
  {
    if Compared(d) == Compared(other) {
      assert |d.rules| == |other.rules|;
      forall i | 0 <= i < |d.rules| ensures d.rules[i].(labels := []) == other.rules[i].(labels := []) {
        assert Compared(d).rules[i] == Compared(other).rules[i];
      }
    }
    if Equals(d, other, t) {
      forall i | 0 <= i < |d.rules| ensures Compared(d).rules[i] == Compared(other).rules[i] {
        assert EqualRules(d.rules[i], other.rules[i], t);
      }
      assert Compared(d).rules == Compared(other).rules;
    }
    if t == "labeling" && Equals(d, other, t) && Equals(other, d, t) {
      forall i | 0 <= i < |d.rules| ensures d.rules[i] == other.rules[i] {
        assert EqualRules(d.rules[i], other.rules[i], t) && EqualRules(other.rules[i], d.rules[i], t);
      }
    }
  }

  /** Comparing the labels of a with those of b stays within b's. */
  predicate InBounds(d: Strategy, other: Strategy) {
    other.policyName == d.policyName && |d.rules| == |other.rules| ==>
      forall i :: 0 <= i < |d.rules| ==> |d.rules[i].labels| <= |other.rules[i].labels|
  }

  type Registry = map<string, seq<Strategy>>

  function Registered(registry: Registry, t: string): seq<Strategy> { if t in registry then registry[t] else [] }

  /** The strategies that do not equal str. */
  function Others(list: seq<Strategy>, str: Strategy, t: string): (others: seq<Strategy>)
    ensures forall s :: s in others <==> s in list && !Equals(s, str, t)
  {
    if list == [] then []
    else
      var rest := Others(list[..|list| - 1], str, t);
      if Equals(list[|list| - 1], str, t) then rest else rest + [list[|list| - 1]]
  }

  lemma OthersStep(list: seq<Strategy>, i: nat, str: Strategy, t: string)
    requires i < |list|
    ensures Others(list[..i + 1], str, t)
         == if Equals(list[i], str, t) then Others(list[..i], str, t) else Others(list[..i], str, t) + [list[i]]
  {
    assert list[..i + 1][..i] == list[..i];
  }

  lemma {:induction false} OthersDistinct(list: seq<Strategy>, str: Strategy, t: string)
    requires Distinct(list)
    ensures Distinct(Others(list, str, t))
  {
    if list != [] {
      OthersDistinct(list[..|list| - 1], str, t);
    }
  }

  lemma {:induction false} OthersNone(list: seq<Strategy>, str: Strategy, t: string)
    requires forall s :: s in list ==> !Equals(s, str, t)
    ensures Others(list, str, t) == list
  {
    if list != [] {
      OthersNone(list[..|list| - 1], str, t);
      assert list == list[..|list| - 1] + [list[|list| - 1]];
    }
  }

  ghost predicate Distinct(list: seq<Strategy>) { forall i, j :: 0 <= i < j < |list| ==> list[i] != list[j] }

  predicate HasEqual(list: seq<Strategy>, str: Strategy, t: string) { exists s :: s in list && Equals(s, str, t) }

  /** A strategy goes in once, if its type is registered and can be enforced. */
  function Added(registry: Registry, str: Strategy, t: string): Registry {
    if HasEqual(Registered(registry, t), str, t) || t !in registry || !Enforceable(t) then registry
    else registry[t := registry[t] + [str]]
  }

  function Removed(registry: Registry, str: Strategy, t: string): Registry {
    if t in registry then registry[t := Others(registry[t], str, t)] else registry
  }

  /** A registered strategy goes away when it is removed, and is not registered twice, exactly when it has rules:
      one without rules equals nothing, not even itself. */
  lemma WithoutRulesStays(registry: Registry, str: Strategy, t: string)
    requires t in registry && Enforceable(t)
    ensures var once := Added(registry, str, t);
      && (str !in Removed(once, str, t)[t] <==> str.rules != [])
      && (Added(once, str, t) == once <==> str.rules != [])
  {
    var once := Added(registry, str, t);
    if str.rules != [] {
      assert Equals(str, str, t);
      if !HasEqual(Registered(registry, t), str, t) {
        assert once[t][|registry[t]|] == str;
      }
      assert HasEqual(Registered(once, t), str, t);
    } else {
      assert once[t][|registry[t]|] == str;
      assert Added(once, str, t)[t] == once[t] + [str];
    }
  }

  class MetricEnforcer {
    var registeredStrategies: Registry

    constructor ()
      ensures registeredStrategies == map[]
    {
      registeredStrategies := map[];
    }

    method RegisterStrategyType(t: string)
      modifies this
      ensures registeredStrategies == old(registeredStrategies)[t := []]
    {
      registeredStrategies := registeredStrategies[t := []];
    }

    method RemoveStrategy(str: Strategy, t: string)
      modifies this
      ensures registeredStrategies == Removed(old(registeredStrategies), str, t)
    {
      if t in registeredStrategies {
        var list, kept := registeredStrategies[t], [];
        for i := 0 to |list|
          invariant registeredStrategies == old(registeredStrategies)
          invariant kept == Others(list[..i], str, t)
        {
          OthersStep(list, i, str, t);
          if !Equals(list[i], str, t) {
            kept := kept + [list[i]];
          }
        }
        assert list[..|list|] == list;
        assert kept == Others(list, str, t);
        registeredStrategies := registeredStrategies[t := kept];
      }
    }

    method AddStrategy(str: Strategy, t: string)
      modifies this
      ensures registeredStrategies == Added(old(registeredStrategies), str, t)
    {
      var list := Registered(registeredStrategies, t);
      for i := 0 to |list|
        invariant forall j :: 0 <= j < i ==> !Equals(list[j], str, t)
      {
        if Equals(list[i], str, t) {
          assert HasEqual(list, str, t);
          return;
        }
      }
      assert !HasEqual(list, str, t);
      if t in registeredStrategies {
        if Enforceable(t) {
          registeredStrategies := registeredStrategies[t := registeredStrategies[t] + [str]];
        }
      }
    }
  }
}
