/** Which labels the registered labeling strategies ask for on each node (nodeStatusForStrategy and createLabels in
    strategies/labeling/enforce.go). */
module LabelingStatus {
  import opened Text
  import opened Strategies
  import opened Labeling
  import opened LabelingEnforcement

  function GetPrefix(policyName: string): string { LABEL_PREFIX + policyName + "/" }

  /** Rule result r labels the node: it is the one kept for some label name. */
  ghost predicate Emits(s: Strategy, metrics: Metrics, n: string, r: RuleResult) {
    var results := BrokenRules(s.rules, metrics, n);
    Violates(s, metrics, n) && !Conflict(results) && exists name :: Best(results, name, r)
  }

  /** The labels a strategy asks for on a node: all labels of every kept rule. */
  ghost function EmittedTags(s: Strategy, metrics: Metrics, n: string): set<string> {
    set r, l | r in BrokenRules(s.rules, metrics, n) && Emits(s, metrics, n, r) && l in r.rule.labels
      :: GetPrefix(s.policyName) + l
  }

  /** What createLabels adds for the rules kept by the filter. */
  ghost function KeptTags(violatedRules: map<string, RuleResult>, policyName: string): set<string> {
    set name, l | name in violatedRules && l in violatedRules[name].rule.labels :: GetPrefix(policyName) + l
  }

  lemma KeptTagsAreEmitted(s: Strategy, metrics: Metrics, n: string, violated: map<string, RuleResult>)
    requires Violates(s, metrics, n)
    requires var results := BrokenRules(s.rules, metrics, n);
      && !Conflict(results)
      && (forall name :: name in violated <==> exists r :: r in results && Names(r, name))
      && forall name :: name in violated ==> Best(results, name, violated[name])
    ensures KeptTags(violated, s.policyName) == EmittedTags(s, metrics, n)
  {
    var results := BrokenRules(s.rules, metrics, n);
    forall name | name in violated ensures violated[name] in results && Emits(s, metrics, n, violated[name]) {
      assert Best(results, name, violated[name]);
    }
    forall r | r in results && Emits(s, metrics, n, r) ensures exists name :: name in violated && violated[name] == r {
      var name :| Best(results, name, r);
      BestIsUnique(results, name, r, violated[name]);
    }
  }

  /** The listing now has these tags of this policy too, and nothing else new. */
  ghost predicate ListsMore(before: map<string, seq<string>>, after: map<string, seq<string>>, policyName: string,
                            added: set<string>)
  {
    forall p, tag ::
      Listed(after, p, tag) <==> Listed(before, p, tag) || (p == policyName && tag in added)
  }

  ghost function PrefixedTags(policyName: string, labels: seq<string>): set<string> {
    set l | l in labels :: GetPrefix(policyName) + l
  }

  lemma ListOneMore(before: map<string, seq<string>>, now: map<string, seq<string>>, policyName: string,
                    added: set<string>, tag: string)
    requires ListsMore(before, now, policyName, added)
    ensures ListsMore(before,
                      now[policyName := (if policyName in now then now[policyName] else []) + [tag]],
                      policyName, added + {tag})
  {
    var after := now[policyName := (if policyName in now then now[policyName] else []) + [tag]];
    assert forall p, t :: Listed(after, p, t) <==> Listed(now, p, t) || (p == policyName && t == tag);
  }

  method AppendLabels(labels: seq<string>, policyName: string, policies: map<string, seq<string>>, tags: set<string>)
    returns (newPolicies: map<string, seq<string>>, newTags: set<string>)
    ensures newTags == tags + PrefixedTags(policyName, labels)
    ensures ListsMore(policies, newPolicies, policyName, PrefixedTags(policyName, labels))
  {
    newPolicies, newTags := policies, tags;
    for i := 0 to |labels|
      invariant newTags == tags + PrefixedTags(policyName, labels[..i])
      invariant ListsMore(policies, newPolicies, policyName, PrefixedTags(policyName, labels[..i]))
    {
      var tag := GetPrefix(policyName) + labels[i];
      assert PrefixedTags(policyName, labels[..i + 1]) == PrefixedTags(policyName, labels[..i]) + {tag} by {
        assert labels[..i + 1] == labels[..i] + [labels[i]];
      }
      ListOneMore(policies, newPolicies, policyName, PrefixedTags(policyName, labels[..i]), tag);
      newPolicies := newPolicies[policyName :=
        (if policyName in newPolicies then newPolicies[policyName] else []) + [tag]];
      newTags := newTags + {tag};
    }
    assert labels[..|labels|] == labels;
  }

  method CreateLabels(violatedRules: map<string, RuleResult>, policyName: string, policies: map<string, seq<string>>,
                      tags: set<string>)
    returns (newPolicies: map<string, seq<string>>, newTags: set<string>)
    ensures newTags == tags + KeptTags(violatedRules, policyName)
    ensures ListsMore(policies, newPolicies, policyName, KeptTags(violatedRules, policyName))
  {
    newPolicies, newTags := policies, tags;
    var todo := violatedRules.Keys;
    ghost var done: map<string, RuleResult> := map[];
    while todo != {}
      invariant todo <= violatedRules.Keys
      invariant done == violatedRules - todo
      invariant newTags == tags + KeptTags(done, policyName)
      invariant ListsMore(policies, newPolicies, policyName, KeptTags(done, policyName))
      decreases todo
    {
      var name := AnyOf(todo);
      var labels := violatedRules[name].rule.labels;
      KeptTagsMore(violatedRules, todo, name, policyName);
      newPolicies, newTags := AppendLabels(labels, policyName, newPolicies, newTags);
      todo := todo - {name};
      done := violatedRules - todo;
    }
    assert done == violatedRules;
  }

  lemma KeptTagsMore(violatedRules: map<string, RuleResult>, todo: set<string>, name: string, policyName: string)
    requires name in violatedRules && name in todo
    ensures KeptTags(violatedRules - (todo - {name}), policyName)
         == KeptTags(violatedRules - todo, policyName) + PrefixedTags(policyName, violatedRules[name].rule.labels)
  {
    var less, more := violatedRules - todo, violatedRules - (todo - {name});
    assert forall k :: k in more <==> k in less || k == name;
  }

  /** What a node's listing holds after the first k strategies. */
  ghost predicate ListsStrategies(policies: map<string, seq<string>>, tags: set<string>, strategies: seq<Strategy>, k: int,
                                  metrics: Metrics, n: string)
    requires 0 <= k <= |strategies|
  {
    && (forall p, tag ::
          Listed(policies, p, tag) <==>
          exists i :: 0 <= i < k && strategies[i].policyName == p && tag in EmittedTags(strategies[i], metrics, n))
    && forall tag :: tag in tags <==> exists i :: 0 <= i < k && tag in EmittedTags(strategies[i], metrics, n)
  }

  lemma MoreEmitted(policies: map<string, seq<string>>, tags: set<string>, strategies: seq<Strategy>, k: nat,
                    metrics: Metrics, n: string, newPolicies: map<string, seq<string>>, newTags: set<string>)
    requires k < |strategies| && ListsStrategies(policies, tags, strategies, k, metrics, n)
    requires var emitted := EmittedTags(strategies[k], metrics, n);
      newTags == tags + emitted && ListsMore(policies, newPolicies, strategies[k].policyName, emitted)
    ensures ListsStrategies(newPolicies, newTags, strategies, k + 1, metrics, n)
  {
  }

  /** One strategy's violations on one node. */
  method NodeStatus(s: Strategy, metrics: Metrics, n: string, results: seq<RuleResult>,
                    policies: map<string, seq<string>>, tags: set<string>)
    returns (newPolicies: map<string, seq<string>>, newTags: set<string>)
    requires Violates(s, metrics, n) && results == BrokenRules(s.rules, metrics, n)
    ensures Extended(s, metrics, n, policies, tags, newPolicies, newTags)
  {
    var violatedRules := MinMaxFilterViolatedRules(results);
    var rules: map<string, RuleResult> := if violatedRules.Some? then violatedRules.value else map[];
    newPolicies, newTags := CreateLabels(rules, s.policyName, policies, tags);
    if violatedRules.Some? {
      KeptTagsAreEmitted(s, metrics, n, rules);
    } else {
      assert EmittedTags(s, metrics, n) == {} && KeptTags(rules, s.policyName) == {};
    }
  }

  /** One strategy has been added to a node's listing. */
  ghost predicate Extended(s: Strategy, metrics: Metrics, n: string, policies: map<string, seq<string>>,
                           tags: set<string>, newPolicies: map<string, seq<string>>, newTags: set<string>)
  {
    && newTags == tags + EmittedTags(s, metrics, n)
    && ListsMore(policies, newPolicies, s.policyName, EmittedTags(s, metrics, n))
  }

  lemma NothingEmitted(s: Strategy, metrics: Metrics, n: string, policies: map<string, seq<string>>, tags: set<string>)
    requires !Violates(s, metrics, n)
    ensures Extended(s, metrics, n, policies, tags, policies, tags)
  {
    assert EmittedTags(s, metrics, n) == {};
  }

  /** The status of every node outside todo has been extended by s, that of the others is as it was. */
  ghost predicate ExtendedExcept(s: Strategy, metrics: Metrics, todo: set<string>, violations: Violations,
                                 all: NodeViolations, newViolations: Violations, newAll: NodeViolations)
  {
    forall n ::
      if n in todo then PoliciesOf(newViolations, n) == PoliciesOf(violations, n) && TagsOf(newAll, n) == TagsOf(all, n)
      else Extended(s, metrics, n, PoliciesOf(violations, n), TagsOf(all, n),
                    PoliciesOf(newViolations, n), TagsOf(newAll, n))
  }

  lemma ExtendOne(s: Strategy, metrics: Metrics, todo: set<string>, violations: Violations, all: NodeViolations,
                  now: Violations, nowAll: NodeViolations, n: string, policies: map<string, seq<string>>,
                  tags: set<string>)
    requires ExtendedExcept(s, metrics, todo, violations, all, now, nowAll) && n in todo
    requires Extended(s, metrics, n, PoliciesOf(violations, n), TagsOf(all, n), policies, tags)
    ensures ExtendedExcept(s, metrics, todo - {n}, violations, all, now[n := policies], nowAll[n := tags])
  {
    forall m | m != n
      ensures PoliciesOf(now[n := policies], m) == PoliciesOf(now, m) && TagsOf(nowAll[n := tags], m) == TagsOf(nowAll, m)
    {
    }
  }

  lemma NothingExtended(s: Strategy, metrics: Metrics, todo: set<string>, violations: Violations, all: NodeViolations)
    requires forall n :: n in todo <==> Violates(s, metrics, n)
    ensures ExtendedExcept(s, metrics, todo, violations, all, violations, all)
  {
    forall n | n !in todo
      ensures Extended(s, metrics, n, PoliciesOf(violations, n), TagsOf(all, n), PoliciesOf(violations, n), TagsOf(all, n))
    {
      NothingEmitted(s, metrics, n, PoliciesOf(violations, n), TagsOf(all, n));
    }
  }

  method StrategyStatus(s: Strategy, metrics: Metrics, violations: Violations, all: NodeViolations)
    returns (newViolations: Violations, newAll: NodeViolations)
    ensures ExtendedExcept(s, metrics, {}, violations, all, newViolations, newAll)
  {
    newViolations, newAll := violations, all;
    var nodes := Violated(s, metrics);
    var todo := nodes.Keys;
    NothingExtended(s, metrics, todo, violations, all);
    while todo != {}
      invariant todo <= nodes.Keys
      invariant ExtendedExcept(s, metrics, todo, violations, all, newViolations, newAll)
      decreases todo
    {
      var n := AnyOf(todo);
      var policies, tags := NodeStatus(s, metrics, n, nodes[n], PoliciesOf(newViolations, n), TagsOf(newAll, n));
      ExtendOne(s, metrics, todo, violations, all, newViolations, newAll, n, policies, tags);
      newViolations, newAll := newViolations[n := policies], newAll[n := tags];
      todo := todo - {n};
    }
  }

  /** Every node's violated labels: those of the strategies it violates, as the filter keeps them. The strategies
      come in whatever order the registry is ranged over. */
  method NodeStatusForStrategy(strategies: seq<Strategy>, metrics: Metrics)
    returns (violations: Violations, all: NodeViolations)
    ensures forall n ::
      ListsStrategies(PoliciesOf(violations, n), TagsOf(all, n), strategies, |strategies|, metrics, n)
  {
    violations, all := map[], map[];
    for k := 0 to |strategies|
      invariant forall n :: ListsStrategies(PoliciesOf(violations, n), TagsOf(all, n), strategies, k, metrics, n)
    {
      ghost var before, beforeAll := violations, all;
      violations, all := StrategyStatus(strategies[k], metrics, violations, all);
      AllExtended(strategies, k, metrics, before, beforeAll, violations, all);
    }
  }

  lemma AllExtended(strategies: seq<Strategy>, k: nat, metrics: Metrics, violations: Violations, all: NodeViolations,
                    newViolations: Violations, newAll: NodeViolations)
    requires k < |strategies|
    requires forall n :: ListsStrategies(PoliciesOf(violations, n), TagsOf(all, n), strategies, k, metrics, n)
    requires ExtendedExcept(strategies[k], metrics, {}, violations, all, newViolations, newAll)
    ensures forall n ::
      ListsStrategies(PoliciesOf(newViolations, n), TagsOf(newAll, n), strategies, k + 1, metrics, n)
  {
    var next := k + 1;
    forall n ensures ListsStrategies(PoliciesOf(newViolations, n), TagsOf(newAll, n), strategies, next, metrics, n) {
      assert ListsStrategies(PoliciesOf(violations, n), TagsOf(all, n), strategies, k, metrics, n);
      assert Extended(strategies[k], metrics, n, PoliciesOf(violations, n), TagsOf(all, n),
                      PoliciesOf(newViolations, n), TagsOf(newAll, n));
      MoreEmitted(PoliciesOf(violations, n), TagsOf(all, n), strategies, k, metrics, n,
                  PoliciesOf(newViolations, n), TagsOf(newAll, n));
    }
  }
}
