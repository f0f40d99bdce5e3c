/** The deschedule strategy (strategies/deschedule): which nodes violate it, by counting broken rules, and the
    patches that label exactly those nodes, which reach a fixed point in one round. */
module Deschedule {
  import opened Text
  import opened LabelPatch
  import opened Strategies

  const DEFAULT_POLICY_VALUE := "violating"

  // ---- violated strategies ----

  ghost function CountBroken(rules: seq<Rule>, metrics: Metrics, n: string): nat {
    if rules == [] then 0
    else CountBroken(rules[..|rules| - 1], metrics, n) + if Breaks(metrics, rules[|rules| - 1], n) then 1 else 0
  }

  lemma {:induction false} CountDecides(rules: seq<Rule>, metrics: Metrics, n: string)
    ensures CountBroken(rules, metrics, n) <= |rules|
    ensures CountBroken(rules, metrics, n) == |rules| <==> forall r :: r in rules ==> Breaks(metrics, r, n)
    ensures CountBroken(rules, metrics, n) > 0 <==> exists r :: r in rules && Breaks(metrics, r, n)
  {
    if rules != [] {
      CountDecides(rules[..|rules| - 1], metrics, n);
      assert forall r :: r in rules <==> r in rules[..|rules| - 1] || r == rules[|rules| - 1];
    }
  }

  lemma CountMore(rules: seq<Rule>, i: nat, metrics: Metrics, n: string)
    requires i < |rules|
    ensures CountBroken(rules[..i + 1], metrics, n)
         == CountBroken(rules[..i], metrics, n) + if Breaks(metrics, rules[i], n) then 1 else 0
  {
    assert rules[..i + 1][..i] == rules[..i];
  }

  function At(counts: map<string, int>, n: string): int { if n in counts then counts[n] else 0 }

  /** Reached: with allOf all rules have been counted, otherwise any. */
  predicate Reached(s: Strategy, count: int) {
    if s.logicalOperator == "allOf" then count == |s.rules| && count > 0 else count > 0
  }

  /** What is known of a node after the first i rules. */
  ghost predicate Counted(s: Strategy, metrics: Metrics, i: nat, counts: map<string, int>, violating: set<string>,
                          n: string)
    requires i <= |s.rules|
  {
    && At(counts, n) == CountBroken(s.rules[..i], metrics, n)
    && (n in violating <==> Reached(s, At(counts, n)))
  }

  ghost predicate AllCounted(s: Strategy, metrics: Metrics, i: nat, counts: map<string, int>, violating: set<string>)
    requires i <= |s.rules|
  {
    forall n :: Counted(s, metrics, i, counts, violating, n)
  }

  /** One rule's violations are counted on every node that has the metric. */
  method CountRule(s: Strategy, rule: Rule, metrics: Metrics, counts: map<string, int>, violating: set<string>)
    returns (newCounts: map<string, int>, newViolating: set<string>)
    requires rule.metricname in metrics
    requires forall n :: At(counts, n) >= 0
    ensures forall n :: At(newCounts, n) == At(counts, n) + if Breaks(metrics, rule, n) then 1 else 0
    ensures forall n :: n in newViolating <==>
      n in violating || (Breaks(metrics, rule, n) && Reached(s, At(newCounts, n)))
  {
    newCounts, newViolating := counts, violating;
    var nodeMetrics := metrics[rule.metricname];
    var todo := nodeMetrics.Keys;
    while todo != {}
      invariant todo <= nodeMetrics.Keys
      invariant forall n :: At(newCounts, n) == At(counts, n) + if n !in todo && Breaks(metrics, rule, n) then 1 else 0
      invariant forall n :: n in newViolating <==>
        n in violating || (n !in todo && Breaks(metrics, rule, n) && Reached(s, At(newCounts, n)))
      decreases todo
    {
      var nodeName := AnyOf(todo);
      if EvaluateRule(nodeMetrics[nodeName], rule) {
        newCounts := newCounts[nodeName := At(newCounts, nodeName) + 1];
        if s.logicalOperator == "allOf" {
          if newCounts[nodeName] == |s.rules| {
            newViolating := newViolating + {nodeName};
          }
        } else {
          newViolating := newViolating + {nodeName};
        }
      }
      todo := todo - {nodeName};
    }
  }

  /** Violated: a node is reported exactly when one rule, or with allOf every rule, is broken by the metrics that
      are available. */
  method Violated(s: Strategy, metrics: Metrics) returns (violating: set<string>)
    ensures forall n :: n in violating <==> Violates(s, metrics, n)
    ensures forall n :: n in violating <==>
      if s.logicalOperator == "allOf" then s.rules != [] && forall r :: r in s.rules ==> Breaks(metrics, r, n)
      else exists r :: r in s.rules && Breaks(metrics, r, n)
    ensures forall n, r :: r in s.rules ==>
      (Breaks(metrics, r, n) <==>
         && r.metricname in metrics && n in metrics[r.metricname]
         && var value, target := metrics[r.metricname][n], r.target as real;
            || (r.operator == "LessThan" && value < target)
            || (r.operator == "GreaterThan" && value > target)
            || (r.operator == "Equals" && value == target))
  {
    violating := {};
    var counts: map<string, int> := map[];
    var i := 0;
    while i < |s.rules|
      invariant 0 <= i <= |s.rules|
      invariant AllCounted(s, metrics, i, counts, violating)
    {
      ghost var before, found := counts, violating;
      assert forall n :: At(counts, n) >= 0 by {
        forall n ensures At(counts, n) >= 0 {
          assert Counted(s, metrics, i, counts, violating, n);
        }
      }
      if s.rules[i].metricname in metrics {
        counts, violating := CountRule(s, s.rules[i], metrics, counts, violating);
      }
      NextRule(s, metrics, i, before, found, counts, violating);
      i := i + 1;
    }
    assert s.rules[..i] == s.rules;
    forall n ensures n in violating <==> Violates(s, metrics, n) {
      assert Counted(s, metrics, i, counts, violating, n);
      CountDecides(s.rules, metrics, n);
    }
  }

  lemma NextRule(s: Strategy, metrics: Metrics, i: nat, counts: map<string, int>, violating: set<string>,
                 newCounts: map<string, int>, newViolating: set<string>)
    requires i < |s.rules| && AllCounted(s, metrics, i, counts, violating)
    requires forall n :: At(newCounts, n) == At(counts, n) + if Breaks(metrics, s.rules[i], n) then 1 else 0
    requires forall n :: n in newViolating <==>
      n in violating || (Breaks(metrics, s.rules[i], n) && Reached(s, At(newCounts, n)))
    ensures AllCounted(s, metrics, i + 1, newCounts, newViolating)
  {
    var next := i + 1;
    forall n ensures Counted(s, metrics, next, newCounts, newViolating, n) {
      assert Counted(s, metrics, i, counts, violating, n);
      CountMore(s.rules, i, metrics, n);
      CountDecides(s.rules[..i], metrics, n);
    }
  }

  /** Node -> the policies it violates, for the registered strategies in any order. */
  method NodeStatusForStrategy(strategies: seq<Strategy>, metrics: Metrics) returns (violations: map<string, seq<string>>)
    ensures forall n, p :: p in ViolationsOf(violations, n) <==> Violating(strategies, metrics, n, p)
  {
    violations := map[];
    for k := 0 to |strategies|
      invariant forall n, p :: p in ViolationsOf(violations, n) <==> Violating(strategies[..k], metrics, n, p)
    {
      var s := strategies[k];
      var nodes := Violated(s, metrics);
      var todo := nodes;
      ghost var before := violations;
      while todo != {}
        invariant todo <= nodes
        invariant forall n, p :: p in ViolationsOf(violations, n) <==>
          p in ViolationsOf(before, n) || (n in nodes && n !in todo && p == s.policyName)
        decreases todo
      {
        var n := AnyOf(todo);
        violations := violations[n := ViolationsOf(violations, n) + [s.policyName]];
        todo := todo - {n};
      }
      forall n, p ensures Violating(strategies[..k + 1], metrics, n, p)
          <==> Violating(strategies[..k], metrics, n, p) || (Violates(s, metrics, n) && p == s.policyName)
      {
        assert strategies[..k + 1] == strategies[..k] + [s];
      }
    }
    assert strategies[..|strategies|] == strategies;
  }

  function ViolationsOf(violations: map<string, seq<string>>, n: string): seq<string> {
    if n in violations then violations[n] else []
  }

  ghost predicate Violating(strategies: seq<Strategy>, metrics: Metrics, n: string, p: string) {
    exists s :: s in strategies && s.policyName == p && Violates(s, metrics, n)
  }

  // ---- one node's patch ----

  method AllPolicies(strategies: seq<Strategy>) returns (policies: set<string>)
    ensures policies == PolicyNames(strategies)
  {
    policies := {};
    for k := 0 to |strategies|
      invariant policies == PolicyNames(strategies[..k])
    {
      assert strategies[..k + 1] == strategies[..k] + [strategies[k]];
      policies := policies + {strategies[k].policyName};
    }
    assert strategies[..|strategies|] == strategies;
  }

  ghost function PolicyNames(strategies: seq<Strategy>): set<string> { set s | s in strategies :: s.policyName }

  ghost function Marked(violated: set<string>): Labels { map p | p in violated :: DEFAULT_POLICY_VALUE }

  /** The labels of the violated policies are set to "violating", those of the other registered ones removed. */
  ghost function Round(labels: Labels, violated: set<string>, registered: set<string>): Labels {
    (labels + Marked(violated)) - (registered - violated)
  }

  /** The node's labels say exactly which registered policies it violates. */
  ghost predicate Matches(labels: Labels, violated: set<string>, registered: set<string>) {
    && (forall p :: p in violated ==> p in labels && labels[p] == DEFAULT_POLICY_VALUE)
    && forall p :: p in registered && p !in violated ==> p !in labels
  }

  /** One round is enough from any labels, touches no other label, and leaves nothing to do. */
  lemma OneRoundSuffices(labels: Labels, violated: set<string>, registered: set<string>)
    requires violated <= registered
    ensures var once := Round(labels, violated, registered);
      && Matches(once, violated, registered)
      && Round(once, violated, registered) == once
      && forall n :: n !in registered ==> (n in once <==> n in labels) && (n in labels ==> once[n] == labels[n])
    ensures Matches(labels, violated, registered) <==> Round(labels, violated, registered) == labels
  {
    var once := Round(labels, violated, registered);
    assert Round(once, violated, registered) == once;
    if Matches(labels, violated, registered) {
      assert once == labels;
    }
  }

  predicate PlainName(n: string) { '~' !in n && '/' !in n }

  lemma RefersToPlain(op: string, name: string, value: string)
    requires PlainName(name)
    ensures TargetOf(CreateLabelPatchValue(op, name, value).path) == Some(name)
  {
    PlainToken(name);
    RefersTo(op, name, value);
  }

  /** The policy names are put into the paths unescaped, so they must be plain, as the names of policies are. */
  ghost predicate Plain(names: set<string>) { forall n :: n in names ==> PlainName(n) }

  ghost predicate Violation(labels: Labels, seen: set<string>, payload: seq<PatchValue>) {
    && (payload == [] <==> forall p :: p in seen ==> p in labels && labels[p] == DEFAULT_POLICY_VALUE)
    && (Plain(seen) ==> Apply(labels, payload) == Some(labels + Marked(seen)))
  }

  method AppendViolationPatchValue(payload: seq<PatchValue>, policyName: string, labels: Labels)
    returns (next: seq<PatchValue>)
    ensures next == if policyName in labels && labels[policyName] == DEFAULT_POLICY_VALUE then payload
                    else payload + [CreateLabelPatchValue("add", policyName, DEFAULT_POLICY_VALUE)]
  {
    next := payload;
    if policyName !in labels || labels[policyName] != DEFAULT_POLICY_VALUE {
      next := payload + [CreateLabelPatchValue("add", policyName, DEFAULT_POLICY_VALUE)];
    }
  }

  lemma OneMoreViolation(labels: Labels, seen: set<string>, payload: seq<PatchValue>, p: string)
    requires Violation(labels, seen, payload)
    ensures Violation(labels, seen + {p},
                      if p in labels && labels[p] == DEFAULT_POLICY_VALUE then payload
                      else payload + [CreateLabelPatchValue("add", p, DEFAULT_POLICY_VALUE)])
  {
    assert forall q :: q in seen + {p} <==> q in seen || q == p;
    if Plain(seen + {p}) {
      assert p in seen + {p};
      var less, more := Marked(seen), Marked(seen + {p});
      assert labels + more == (labels + less)[p := DEFAULT_POLICY_VALUE];
      RefersToPlain("add", p, DEFAULT_POLICY_VALUE);
      ApplyMore(labels, payload, CreateLabelPatchValue("add", p, DEFAULT_POLICY_VALUE));
      if p in labels && labels[p] == DEFAULT_POLICY_VALUE {
        assert (labels + less)[p := DEFAULT_POLICY_VALUE] == labels + less;
      }
    }
  }

  /** The removals of labels named after registered policies the node does not violate. */
  method AppendRemovals(payload: seq<PatchValue>, policies: set<string>, labels: Labels) returns (next: seq<PatchValue>)
    ensures next == [] <==> payload == [] && policies !! labels.Keys
    ensures forall m :: Apply(labels, payload) == Some(m) && labels.Keys <= m.Keys && Plain(policies) ==>
      Apply(labels, next) == Some(m - (policies * labels.Keys))
  {
    next := payload;
    var todo := policies;
    ghost var removed: set<string> := {};
    assert forall m: Labels :: m - removed == m;
    while todo != {}
      invariant todo <= policies && removed == (policies - todo) * labels.Keys
      invariant next == [] <==> payload == [] && removed == {}
      invariant forall m :: Apply(labels, payload) == Some(m) && labels.Keys <= m.Keys && Plain(policies) ==>
        Apply(labels, next) == Some(m - removed)
      decreases todo
    {
      var policyName := AnyOf(todo);
      if policyName in labels {
        var p := CreateLabelPatchValue("remove", policyName, "");
        forall m | Apply(labels, payload) == Some(m) && labels.Keys <= m.Keys && Plain(policies)
          ensures Apply(labels, next + [p]) == Some(m - (removed + {policyName}))
        {
          RefersToPlain("remove", policyName, "");
          ApplyMore(labels, next, p);
          assert m - removed - {policyName} == m - (removed + {policyName});
        }
        next := next + [p];
        removed := removed + {policyName};
      }
      todo := todo - {policyName};
    }
    assert policies - todo == policies;
  }

  method ViolationPayload(violated: seq<string>, registered: set<string>, labels: Labels)
    returns (payload: seq<PatchValue>, nonViolated: set<string>)
    ensures Violation(labels, NameSet(violated), payload)
    ensures nonViolated == registered - NameSet(violated)
  {
    payload, nonViolated := [], registered;
    assert labels + Marked({}) == labels;
    for i := 0 to |violated|
      invariant nonViolated == registered - NameSet(violated[..i])
      invariant Violation(labels, NameSet(violated[..i]), payload)
    {
      assert NameSet(violated[..i + 1]) == NameSet(violated[..i]) + {violated[i]} by {
        assert violated[..i + 1] == violated[..i] + [violated[i]];
      }
      OneMoreViolation(labels, NameSet(violated[..i]), payload, violated[i]);
      nonViolated := nonViolated - {violated[i]};
      payload := AppendViolationPatchValue(payload, violated[i], labels);
    }
    assert violated[..|violated|] == violated;
  }

  /** One node's patch makes one Round and is empty exactly when the labels already match. */
  method NodePayload(violated: seq<string>, registered: set<string>, labels: Labels)
    returns (payload: seq<PatchValue>, nonViolated: set<string>)
    requires NameSet(violated) <= registered
    ensures payload == [] <==> Matches(labels, NameSet(violated), registered)
    ensures Plain(registered) ==> Apply(labels, payload) == Some(Round(labels, NameSet(violated), registered))
    ensures nonViolated == registered - NameSet(violated)
  {
    payload, nonViolated := ViolationPayload(violated, registered, labels);
    payload := AppendRemovals(payload, nonViolated, labels);
    RemovalsMakeRound(labels, NameSet(violated), registered);
  }

  ghost function NameSet(names: seq<string>): set<string> { set p | p in names }

  lemma RemovalsMakeRound(labels: Labels, violated: set<string>, registered: set<string>)
    ensures (labels + Marked(violated)) - ((registered - violated) * labels.Keys)
         == Round(labels, violated, registered)
  {
  }

  // ---- all nodes ----

  /** At most one patch, none when the labels match; an accepted patch makes one Round, a refused one nothing. */
  ghost predicate Outcome(violated: set<string>, registered: set<string>, labels: Labels, accepted: bool, r: NodeResult) {
    && (r.patched <==> !Matches(labels, violated, registered))
    && (Plain(registered) ==>
          && (r.failed <==> r.patched && !accepted)
          && r.labels == if r.failed then labels else Round(labels, violated, registered))
  }

  ghost function ViolatedBy(strategies: seq<Strategy>, metrics: Metrics, n: string): set<string> {
    set s | s in strategies && Violates(s, metrics, n) :: s.policyName
  }

  ghost predicate RoundOutcome(strategies: seq<Strategy>, metrics: Metrics, node: Node, accepted: bool, r: NodeResult) {
    Outcome(ViolatedBy(strategies, metrics, node.name), PolicyNames(strategies), node.labels, accepted, r)
  }

  /** One node of a round. What is counted are the registered policies the node does NOT violate. */
  method UpdateNode(strategies: seq<Strategy>, ghost metrics: Metrics, violations: map<string, seq<string>>, node: Node,
                    accepted: bool)
    returns (r: NodeResult, count: nat)
    requires forall n, p :: p in ViolationsOf(violations, n) <==> Violating(strategies, metrics, n, p)
    ensures RoundOutcome(strategies, metrics, node, accepted, r)
    ensures count == |PolicyNames(strategies) - ViolatedBy(strategies, metrics, node.name)|
  {
    var policies := AllPolicies(strategies);
    var violated := ViolationsOf(violations, node.name);
    assert NameSet(violated) == ViolatedBy(strategies, metrics, node.name);
    var payload, nonViolated := NodePayload(violated, policies, node.labels);
    r := NodeResult(false, false, node.labels);
    if payload != [] {
      var result := Apply(node.labels, payload);
      r := if accepted && result.Some? then NodeResult(true, false, result.value)
           else NodeResult(true, true, node.labels);
    }
    count := |nonViolated|;
  }

  /** How many registered policies the nodes do not violate, all nodes together. */
  ghost function NotViolated(strategies: seq<Strategy>, metrics: Metrics, nodes: seq<Node>): nat {
    if nodes == [] then 0
    else NotViolated(strategies, metrics, nodes[..|nodes| - 1])
         + |PolicyNames(strategies) - ViolatedBy(strategies, metrics, nodes[|nodes| - 1].name)|
  }

  /** The total after the first k nodes. */
  ghost predicate CountedTo(strategies: seq<Strategy>, metrics: Metrics, nodes: seq<Node>, k: nat, total: int)
    requires k <= |nodes|
  {
    total == NotViolated(strategies, metrics, nodes[..k])
  }

  lemma CountOneMore(strategies: seq<Strategy>, metrics: Metrics, nodes: seq<Node>, k: nat, total: int, count: nat)
    requires k < |nodes| && CountedTo(strategies, metrics, nodes, k, total)
    requires count == |PolicyNames(strategies) - ViolatedBy(strategies, metrics, nodes[k].name)|
    ensures CountedTo(strategies, metrics, nodes, k + 1, total + count)
  {
    assert nodes[..k + 1][..k] == nodes[..k];
  }

  /** What a round has done to the first nodes. */
  ghost predicate Enforced(strategies: seq<Strategy>, metrics: Metrics, nodes: seq<Node>, accepted: seq<bool>,
                           results: seq<NodeResult>)
    requires |results| <= |nodes| == |accepted|
  {
    forall i :: 0 <= i < |results| ==> RoundOutcome(strategies, metrics, nodes[i], accepted[i], results[i])
  }

  lemma EnforcedMore(strategies: seq<Strategy>, metrics: Metrics, nodes: seq<Node>, accepted: seq<bool>,
                     results: seq<NodeResult>, r: NodeResult)
    requires |results| < |nodes| == |accepted| && Enforced(strategies, metrics, nodes, accepted, results)
    requires RoundOutcome(strategies, metrics, nodes[|results|], accepted[|results|], r)
    ensures Enforced(strategies, metrics, nodes, accepted, results + [r])
  {
  }

  ghost predicate AnyFailed(results: seq<NodeResult>) { exists r :: r in results && r.failed }

  lemma FailedOneMore(results: seq<NodeResult>, r: NodeResult)
    ensures AnyFailed(results + [r]) <==> AnyFailed(results) || r.failed
  {
    assert r in results + [r];
    if AnyFailed(results) {
      var q :| q in results && q.failed;
      assert q in results + [r];
    }
  }

  /** One round of enforcement over all nodes. */
  method Enforce(strategies: seq<Strategy>, metrics: Metrics, nodes: seq<Node>, accepted: seq<bool>)
    returns (total: int, results: seq<NodeResult>)
    requires |accepted| == |nodes|
    ensures |results| == |nodes|
    ensures forall i :: 0 <= i < |nodes| ==> RoundOutcome(strategies, metrics, nodes[i], accepted[i], results[i])
    ensures total == -1 <==> exists r :: r in results && r.failed
    ensures total != -1 ==> total == NotViolated(strategies, metrics, nodes)
  {
    var violations := NodeStatusForStrategy(strategies, metrics);
    total, results := 0, [];
    var failed := false;
    for k := 0 to |nodes|
      invariant |results| == k && RoundSoFar(strategies, metrics, nodes, accepted, results, failed, total)
    {
      var r, count := UpdateNode(strategies, metrics, violations, nodes[k], accepted[k]);
      RoundGoesOn(strategies, metrics, nodes, accepted, results, failed, total, r, count);
      failed := failed || r.failed;
      total := total + count;
      results := results + [r];
    }
    assert nodes[..|nodes|] == nodes;
    if failed {
      total := -1;
    }
  }

  /** The state of a round after the first nodes. */
  ghost predicate RoundSoFar(strategies: seq<Strategy>, metrics: Metrics, nodes: seq<Node>, accepted: seq<bool>,
                             results: seq<NodeResult>, failed: bool, total: int)
    requires |results| <= |nodes| == |accepted|
  {
    && Enforced(strategies, metrics, nodes, accepted, results)
    && (failed <==> AnyFailed(results)) && CountedTo(strategies, metrics, nodes, |results|, total)
  }

  lemma RoundGoesOn(strategies: seq<Strategy>, metrics: Metrics, nodes: seq<Node>, accepted: seq<bool>,
                    results: seq<NodeResult>, failed: bool, total: int, r: NodeResult, count: nat)
    requires |results| < |nodes| == |accepted|
    requires RoundSoFar(strategies, metrics, nodes, accepted, results, failed, total)
    requires RoundOutcome(strategies, metrics, nodes[|results|], accepted[|results|], r)
    requires count == |PolicyNames(strategies) - ViolatedBy(strategies, metrics, nodes[|results|].name)|
    ensures RoundSoFar(strategies, metrics, nodes, accepted, results + [r], failed || r.failed, total + count)
  {
    CountOneMore(strategies, metrics, nodes, |results|, total, count);
    EnforcedMore(strategies, metrics, nodes, accepted, results, r);
    FailedOneMore(results, r);
  }

  /** How many policies the nodes violate, all nodes together. */
  ghost function Violations(strategies: seq<Strategy>, metrics: Metrics, nodes: seq<Node>): nat {
    if nodes == [] then 0
    else Violations(strategies, metrics, nodes[..|nodes| - 1]) + |ViolatedBy(strategies, metrics, nodes[|nodes| - 1].name)|
  }

  lemma ViolatedOrNot(strategies: seq<Strategy>, metrics: Metrics, n: string)
    ensures |PolicyNames(strategies) - ViolatedBy(strategies, metrics, n)| + |ViolatedBy(strategies, metrics, n)|
         == |PolicyNames(strategies)|
  {
    var all, violated := PolicyNames(strategies), ViolatedBy(strategies, metrics, n);
    assert violated <= all;
    assert (all - violated) + violated == all && (all - violated) * violated == {};
  }

  lemma {:induction false} BothAreAll(strategies: seq<Strategy>, metrics: Metrics, nodes: seq<Node>, registered: nat)
    requires registered == |PolicyNames(strategies)|
    ensures NotViolated(strategies, metrics, nodes) + Violations(strategies, metrics, nodes) == |nodes| * registered
  {
    if nodes != [] {
      var k := |nodes| - 1;
      BothAreAll(strategies, metrics, nodes[..k], registered);
      ViolatedOrNot(strategies, metrics, nodes[k].name);
      OneMoreTimes(k, registered);
    }
  }

  lemma OneMoreTimes(k: nat, n: nat)
    ensures (k + 1) * n == k * n + n
  {
  }

  /** The number that is reported is the number of violations if and only if, over all nodes, exactly half of the
      registered policies are violated. */
  lemma ReportedIsViolatedIff(strategies: seq<Strategy>, metrics: Metrics, nodes: seq<Node>)
    ensures NotViolated(strategies, metrics, nodes) == Violations(strategies, metrics, nodes)
       <==> 2 * Violations(strategies, metrics, nodes) == |nodes| * |PolicyNames(strategies)|
  {
    BothAreAll(strategies, metrics, nodes, |PolicyNames(strategies)|);
  }

  const HOT := Strategy("hot", "", [Rule("heat", "GreaterThan", 1, [])])
  const HEAT: Metrics := map["heat" := map["n" := 2.0]]

  /** A node that violates the only policy is one violation and is reported as none. */
  lemma OneViolationReportedAsNone(labels: Labels)
    ensures Violations([HOT], HEAT, [Node("n", labels)]) == 1 && NotViolated([HOT], HEAT, [Node("n", labels)]) == 0
  {
    assert HOT.rules[0] in HOT.rules && Breaks(HEAT, HOT.rules[0], "n");
    assert HOT in [HOT] && Violates(HOT, HEAT, "n");
    assert PolicyNames([HOT]) == {"hot"};
    assert ViolatedBy([HOT], HEAT, "n") == {"hot"};
    assert [Node("n", labels)][..0] == [];
    BothAreAll([HOT], HEAT, [Node("n", labels)], 1);
  }

  // ---- a policy is deleted ----

  /** A listed node loses the label of the policy, if its patch is accepted; listed are the nodes labelled violating. */
  function CleanedUp(policyName: string, labels: Labels, accepted: bool): Labels {
    if policyName in labels && labels[policyName] == DEFAULT_POLICY_VALUE && accepted then labels - {policyName} else labels
  }

  method Cleanup(policyName: string, nodes: seq<Node>, accepted: seq<bool>) returns (results: seq<Labels>)
    requires |accepted| == |nodes| && PlainName(policyName)
    ensures |results| == |nodes|
    ensures forall i :: 0 <= i < |nodes| ==> results[i] == CleanedUp(policyName, nodes[i].labels, accepted[i])
  {
    results := [];
    for k := 0 to |nodes|
      invariant |results| == k
      invariant forall i :: 0 <= i < k ==> results[i] == CleanedUp(policyName, nodes[i].labels, accepted[i])
    {
      var labels := nodes[k].labels;
      if policyName in labels && labels[policyName] == DEFAULT_POLICY_VALUE {
        var p := CreateLabelPatchValue("remove", policyName, "");
        RefersToPlain("remove", policyName, "");
        ApplyMore(labels, [], p);
        assert [] + [p] == [p];
        var result := Apply(labels, [p]);
        labels := if accepted[k] && result.Some? then result.value else labels;
      }
      results := results + [labels];
    }
  }

  /** Cleaning up after a policy leaves nothing to do for the next round without it. */
  lemma CleanupMatches(policyName: string, labels: Labels, violated: set<string>, registered: set<string>)
    requires Matches(labels, violated, registered) && policyName in registered && violated <= registered
    ensures var cleaned := CleanedUp(policyName, labels, true);
      policyName !in cleaned && Matches(cleaned, violated - {policyName}, registered - {policyName})
  {
  }

  /** After one accepted round a node carries the label "violating" for exactly the registered policies it
      violates and no label for the others; labels not named after a policy are as they were, and a second
      round over unchanged metrics sends no patch. */
  lemma OneRoundConverges(strategies: seq<Strategy>, metrics: Metrics, n: string, labels: Labels,
                          first: NodeResult, second: NodeResult)
    requires Plain(PolicyNames(strategies))
    requires RoundOutcome(strategies, metrics, Node(n, labels), true, first)
    requires RoundOutcome(strategies, metrics, Node(n, first.labels), true, second)
    ensures forall p :: p in PolicyNames(strategies) ==>
      if Violating(strategies, metrics, n, p) then p in first.labels && first.labels[p] == DEFAULT_POLICY_VALUE
      else p !in first.labels
    ensures forall p :: p !in PolicyNames(strategies) ==> (p in first.labels <==> p in labels)
    ensures forall p :: p !in PolicyNames(strategies) && p in labels ==> first.labels[p] == labels[p]
    ensures !second.patched && second.labels == first.labels
  {
    var violated, registered := ViolatedBy(strategies, metrics, n), PolicyNames(strategies);
    assert forall p :: p in violated <==> Violating(strategies, metrics, n, p);
    assert violated <= registered;
    OneRoundSuffices(labels, violated, registered);
  }
}
