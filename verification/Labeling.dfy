/** The labeling strategy (strategies/labeling): which rules a node violates, the min/max filter over rules
    that share a label name, and the patches that drive the node's labels to the violated ones. */
module Labeling {
  import opened Text
  import opened LabelPatch
  import opened Strategies

  const LABEL_PREFIX := "telemetry.aware.scheduling."

  /** A violated rule with the metric's value. */
  datatype RuleResult = RuleResult(rule: Rule, quantity: real)

  // ---- violated rules ----

  /** The rules a node breaks, in the order of the policy. */
  function BrokenRules(rules: seq<Rule>, metrics: Metrics, node: string): seq<RuleResult> {
    if rules == [] then []
    else
      var last := rules[|rules| - 1];
      BrokenRules(rules[..|rules| - 1], metrics, node)
      + (if Breaks(metrics, last, node) then [RuleResult(last, metrics[last.metricname][node])] else [])
  }

  lemma OneMoreRule(rules: seq<Rule>, i: nat, metrics: Metrics, node: string)
    requires i < |rules|
    ensures BrokenRules(rules[..i + 1], metrics, node)
         == BrokenRules(rules[..i], metrics, node)
          + if Breaks(metrics, rules[i], node) then [RuleResult(rules[i], metrics[rules[i].metricname][node])] else []
  {
    assert rules[..i + 1][..i] == rules[..i];
  }

  /** They are collected rule by rule: a rule that is broken contributes itself and the node's metric, any other rule
      nothing, and the results stand in the order of the rules. */
  lemma {:induction false} BrokenRulesMean(a: seq<Rule>, b: seq<Rule>, rule: Rule, metrics: Metrics, node: string)
    ensures BrokenRules(a + b, metrics, node) == BrokenRules(a, metrics, node) + BrokenRules(b, metrics, node)
    ensures BrokenRules([rule], metrics, node)
         == if Breaks(metrics, rule, node) then [RuleResult(rule, metrics[rule.metricname][node])] else []
    decreases |b|
  {
    assert [rule][..0] == [];
    if b == [] {
      assert a + b == a;
    } else {
      var n := |b| - 1;
      BrokenRulesMean(a, b[..n], rule, metrics, node);
      assert (a + b)[..|a + b| - 1] == a + b[..n];
    }
  }

  /** Counting broken rules decides whether all of them are broken, also when a rule is listed twice. */
  lemma {:induction false} BrokenCount(rules: seq<Rule>, metrics: Metrics, node: string)
    ensures |BrokenRules(rules, metrics, node)| <= |rules|
    ensures |BrokenRules(rules, metrics, node)| == |rules| <==> forall r :: r in rules ==> Breaks(metrics, r, node)
    ensures BrokenRules(rules, metrics, node) != [] <==> exists r :: r in rules && Breaks(metrics, r, node)
  {
    if rules != [] {
      BrokenCount(rules[..|rules| - 1], metrics, node);
      assert forall r :: r in rules <==> r in rules[..|rules| - 1] || r == rules[|rules| - 1];
    }
  }

  lemma {:induction false} BrokenRulesAreRules(rules: seq<Rule>, metrics: Metrics, node: string)
    ensures forall r :: r in BrokenRules(rules, metrics, node) ==> r.rule in rules
  {
    if rules != [] {
      BrokenRulesAreRules(rules[..|rules| - 1], metrics, node);
    }
  }

  /** The violating nodes after some rules: their broken rules, the node being absent without any. */
  ghost predicate Collected(violating: map<string, seq<RuleResult>>, rules: seq<Rule>, metrics: Metrics, n: string) {
    && (n in violating <==> BrokenRules(rules, metrics, n) != [])
    && (n in violating ==> violating[n] == BrokenRules(rules, metrics, n))
  }

  ghost predicate AllCollected(violating: map<string, seq<RuleResult>>, rules: seq<Rule>, metrics: Metrics) {
    forall n :: Collected(violating, rules, metrics, n)
  }

  method FetchRuleViolatingNodes(s: Strategy, metrics: Metrics) returns (violating: map<string, seq<RuleResult>>)
    ensures AllCollected(violating, s.rules, metrics)
  {
    violating := map[];
    var i := 0;
    while i < |s.rules|
      invariant 0 <= i <= |s.rules|
      invariant AllCollected(violating, s.rules[..i], metrics)
    {
      var rule := s.rules[i];
      ghost var before := violating;
      if rule.metricname in metrics {
        violating := CollectRule(rule, metrics, violating);
      }
      var seen := s.rules[..i + 1];
      forall n ensures Collected(violating, seen, metrics, n) {
        assert Collected(before, s.rules[..i], metrics, n);
        OneMoreRule(s.rules, i, metrics, n);
      }
      i := i + 1;
    }
    assert s.rules[..i] == s.rules;
  }

  /** The results of a node after one more rule. */
  ghost function WithRule(violating: map<string, seq<RuleResult>>, rule: Rule, metrics: Metrics,
                          n: string): seq<RuleResult> {
    (if n in violating then violating[n] else [])
    + if Breaks(metrics, rule, n) then [RuleResult(rule, metrics[rule.metricname][n])] else []
  }

  method CollectRule(rule: Rule, metrics: Metrics, before: map<string, seq<RuleResult>>)
    returns (violating: map<string, seq<RuleResult>>)
    requires rule.metricname in metrics
    ensures forall n :: n in violating <==> n in before || Breaks(metrics, rule, n)
    ensures forall n :: n in violating ==> violating[n] == WithRule(before, rule, metrics, n)
  {
    violating := before;
    var nodeMetrics := metrics[rule.metricname];
    var todo := nodeMetrics.Keys;
    while todo != {}
      invariant todo <= nodeMetrics.Keys
      invariant forall n :: n in violating <==> n in before || (n !in todo && Breaks(metrics, rule, n))
      invariant forall n :: n in violating ==>
        violating[n] == if n in todo then before[n] else WithRule(before, rule, metrics, n)
      decreases todo
    {
      var nodeName := AnyOf(todo);
      if EvaluateRule(nodeMetrics[nodeName], rule) {
        violating := violating[nodeName :=
          (if nodeName in violating then violating[nodeName] else []) + [RuleResult(rule, nodeMetrics[nodeName])]];
      }
      todo := todo - {nodeName};
    }
  }

  /** With allOf only the nodes with as many results as the strategy has rules stay. */
  method FilterViolatingNodeForAllLogicalOperator(s: Strategy, found: map<string, seq<RuleResult>>)
    returns (violating: map<string, seq<RuleResult>>)
    ensures violating.Keys <= found.Keys
    ensures forall n :: n in violating ==> violating[n] == found[n]
    ensures forall n :: n in found ==> (n in violating <==> s.logicalOperator != "allOf" || |found[n]| == |s.rules|)
  {
    violating := found;
    if s.logicalOperator == "allOf" {
      var todo := violating.Keys;
      while todo != {}
        invariant todo <= violating.Keys <= found.Keys
        invariant forall n :: n in violating ==> violating[n] == found[n]
        invariant forall n :: n in found && n !in todo ==> (n in violating <==> |found[n]| == |s.rules|)
        decreases todo
      {
        var nodeName := AnyOf(todo);
        if |violating[nodeName]| != |s.rules| {
          violating := violating - {nodeName};
        }
        todo := todo - {nodeName};
      }
    }
  }

  /** A node is reported exactly when it breaks any rule, or with allOf every rule, as counted over the
      metrics that are available. */
  method Violated(s: Strategy, metrics: Metrics) returns (violating: map<string, seq<RuleResult>>)
    ensures forall n :: n in violating <==> Violates(s, metrics, n)
    ensures forall n :: n in violating <==>
      if s.logicalOperator == "allOf" then s.rules != [] && forall r :: r in s.rules ==> Breaks(metrics, r, n)
      else exists r :: r in s.rules && Breaks(metrics, r, n)
    ensures forall n, r :: r in s.rules ==>
      (Breaks(metrics, r, n) <==>
         && r.metricname in metrics && n in metrics[r.metricname]
         && var value, target := metrics[r.metricname][n], r.target as real;
            || (r.operator == "LessThan" && value < target)
            || (r.operator == "GreaterThan" && value > target)
            || (r.operator == "Equals" && value == target))
    ensures forall n :: n in violating ==> violating[n] == BrokenRules(s.rules, metrics, n)
  {
    var found := FetchRuleViolatingNodes(s, metrics);
    violating := FilterViolatingNodeForAllLogicalOperator(s, found);
    forall n
      ensures n in violating <==> Violates(s, metrics, n)
      ensures n in violating ==> violating[n] == BrokenRules(s.rules, metrics, n)
    {
      assert Collected(found, s.rules, metrics, n);
      BrokenCount(s.rules, metrics, n);
    }
  }

  // ---- the min/max filter ----

  /** What stands before the first '=' of a rule's label. */
  function LabelName(tag: string): string { Split(tag, '=')[0] }

  /** A label written "name=value" has that name, whatever its value; one without '=' is its own name. */
  lemma LabelNameMeans(name: string, value: string)
    requires '=' !in name
    ensures LabelName(name + "=" + value) == name && LabelName(name) == name
  {
    SplitHead(name, value, '=');
    SplitPart(name, '=');
  }

  predicate Names(r: RuleResult, name: string) {
    exists l :: l in r.rule.labels && LabelName(l) == name
  }

  /** shouldUpdateRuleThreshold. */
  predicate Beats(result: RuleResult, older: RuleResult) {
    (result.rule.operator == "GreaterThan" && result.quantity > older.quantity)
    || (result.rule.operator == "LessThan" && result.quantity < older.quantity)
  }

  /** Two results that share a label name differ in operator. */
  ghost predicate Conflict(results: seq<RuleResult>) {
    exists i, j, name :: Clash(results, i, j, name)
  }

  ghost predicate Clash(results: seq<RuleResult>, i: int, j: int, name: string) {
    0 <= i < |results| && 0 <= j < |results| && Names(results[i], name) && Names(results[j], name)
    && results[i].rule.operator != results[j].rule.operator
  }

  /** Two results of different operators have labels of one name. */
  predicate Contradict(results: seq<RuleResult>, r: RuleResult, q: RuleResult, l: string, m: string) {
    && r in results && q in results && r.rule.operator != q.rule.operator
    && l in r.rule.labels && m in q.rule.labels && LabelName(l) == LabelName(m)
  }

  lemma ConflictMeans(results: seq<RuleResult>)
    ensures Conflict(results) <==> exists r, q, l, m :: Contradict(results, r, q, l, m)
  {
    if i, j, name :| Clash(results, i, j, name) {
      ClashContradicts(results, i, j, name);
    }
    if r, q, l, m :| Contradict(results, r, q, l, m) {
      var i :| 0 <= i < |results| && results[i] == r;
      var j :| 0 <= j < |results| && results[j] == q;
      assert Clash(results, i, j, LabelName(l));
    }
  }

  lemma ClashContradicts(results: seq<RuleResult>, i: int, j: int, name: string)
    requires Clash(results, i, j, name)
    ensures exists r, q, l, m :: Contradict(results, r, q, l, m)
  {
    var l :| l in results[i].rule.labels && LabelName(l) == name;
    var m :| m in results[j].rule.labels && LabelName(m) == name;
    assert Contradict(results, results[i], results[j], l, m);
  }

  /** The result kept for a name: it beats every earlier one and no other one beats it. */
  ghost predicate BestAt(results: seq<RuleResult>, name: string, i: int) {
    && 0 <= i < |results| && Names(results[i], name)
    && (forall j :: 0 <= j < |results| && Names(results[j], name) ==> !Beats(results[j], results[i]))
    && forall j :: 0 <= j < i && Names(results[j], name) ==> Beats(results[i], results[j])
  }

  ghost predicate Best(results: seq<RuleResult>, name: string, kept: RuleResult) {
    exists i :: BestAt(results, name, i) && results[i] == kept
  }

  /** At most one result is the best for a name: the earliest of those with the extreme value. */
  lemma BestIsUnique(results: seq<RuleResult>, name: string, a: RuleResult, b: RuleResult)
    requires Best(results, name, a) && Best(results, name, b)
    ensures a == b
  {
    var i :| BestAt(results, name, i) && results[i] == a;
    var j :| BestAt(results, name, j) && results[j] == b;
    assert !Beats(results[i], results[j]) && !Beats(results[j], results[i]);
    assert i == j;
  }

  /** Which one that is, when the results naming it have one operator: of those with the largest value for GreaterThan
      and with the smallest one for LessThan the first, and for any other operator simply the first. */
  lemma BestMeans(results: seq<RuleResult>, name: string, operator: string, i: nat)
    requires i < |results| && Names(results[i], name)
    requires forall j :: 0 <= j < |results| && Names(results[j], name) ==> results[j].rule.operator == operator
    ensures BestAt(results, name, i) <==>
      forall j :: 0 <= j < |results| && Names(results[j], name) ==>
        var mine, other := results[i].quantity, results[j].quantity;
        && (operator == "GreaterThan" ==> mine >= other && (j < i ==> mine > other))
        && (operator == "LessThan" ==> mine <= other && (j < i ==> mine < other))
        && (operator !in ["GreaterThan", "LessThan"] ==> i <= j)
  {
  }

  /** What the kept results mean, when the filter has not panicked: each has the extreme value of its operator. */
  lemma KeptIsExtreme(results: seq<RuleResult>, name: string, kept: RuleResult)
    requires Best(results, name, kept) && !Conflict(results)
    ensures forall r :: r in results && Names(r, name) ==>
      && r.rule.operator == kept.rule.operator
      && (r.rule.operator == "GreaterThan" ==> r.quantity <= kept.quantity)
      && (r.rule.operator == "LessThan" ==> r.quantity >= kept.quantity)
  {
    var i :| BestAt(results, name, i) && results[i] == kept;
    forall j | 0 <= j < |results| && Names(results[j], name) ensures results[j].rule.operator == kept.rule.operator {
      assert results[j].rule.operator != kept.rule.operator ==> Clash(results, i, j, name);
    }
    BestMeans(results, name, kept.rule.operator, i);
  }

  /** What the filter knows about a name after the first k results: the best one so far, which all of those
      naming it agree with in operator. */
  ghost predicate Kept(violated: map<string, RuleResult>, results: seq<RuleResult>, k: int, name: string)
    requires 0 <= k <= |results|
  {
    && (name in violated <==> exists i :: 0 <= i < k && Names(results[i], name))
    && (name in violated ==> Best(results[..k], name, violated[name]))
    && (name in violated ==>
          forall i :: 0 <= i < k && Names(results[i], name) ==>
            results[i].rule.operator == violated[name].rule.operator)
  }

  ghost predicate AllKept(violated: map<string, RuleResult>, results: seq<RuleResult>, k: int)
    requires 0 <= k <= |results|
  {
    forall name :: Kept(violated, results, k, name)
  }

  /** What beats the best result beats all of them. */
  lemma BeatsAll(results: seq<RuleResult>, r: RuleResult, name: string, i: int)
    requires BestAt(results, name, i) && Beats(r, results[i])
    requires forall j :: 0 <= j < |results| && Names(results[j], name) ==> results[j].rule.operator == r.rule.operator
    ensures forall j :: 0 <= j < |results| && Names(results[j], name) ==> Beats(r, results[j]) && !Beats(results[j], r)
  {
  }

  lemma BestNext(results: seq<RuleResult>, k: nat, name: string, older: RuleResult)
    requires k < |results| && Names(results[k], name) && Best(results[..k], name, older)
    requires forall j :: 0 <= j < k && Names(results[j], name) ==> results[j].rule.operator == results[k].rule.operator
    ensures Best(results[..k + 1], name, if Beats(results[k], older) then results[k] else older)
  {
    var before, after := results[..k], results[..k + 1];
    var i :| BestAt(before, name, i) && before[i] == older;
    assert after == before + [results[k]];
    if Beats(results[k], older) {
      BeatsAll(before, results[k], name, i);
      assert BestAt(after, name, k);
    } else {
      assert BestAt(after, name, i);
    }
  }

  lemma FirstIsBest(results: seq<RuleResult>, k: nat, name: string)
    requires k < |results| && Names(results[k], name)
    requires forall j :: 0 <= j < k ==> !Names(results[j], name)
    ensures Best(results[..k + 1], name, results[k])
  {
    assert BestAt(results[..k + 1], name, k);
  }

  lemma NextResult(violated: map<string, RuleResult>, results: seq<RuleResult>, k: nat, name: string,
                   next: map<string, RuleResult>)
    requires k < |results| && Kept(violated, results, k, name) && Names(results[k], name)
    requires name in violated ==> violated[name].rule.operator == results[k].rule.operator
    requires name in next
    requires next[name] == if name !in violated || Beats(results[k], violated[name]) then results[k] else violated[name]
    ensures Kept(next, results, k + 1, name)
  {
    if name in violated {
      BestNext(results, k, name, violated[name]);
    } else {
      FirstIsBest(results, k, name);
    }
  }

  lemma SkippedResult(violated: map<string, RuleResult>, results: seq<RuleResult>, k: nat, name: string)
    requires k < |results| && Kept(violated, results, k, name) && !Names(results[k], name)
    ensures Kept(violated, results, k + 1, name)
  {
    if name in violated {
      var before, after := results[..k], results[..k + 1];
      var i :| BestAt(before, name, i) && before[i] == violated[name];
      assert forall j :: 0 <= j < k ==> after[j] == before[j];
      assert BestAt(after, name, i);
    }
  }

  predicate NamedIn(tags: seq<string>, name: string) {
    exists l :: l in tags && LabelName(l) == name
  }

  /** The same, once the first j labels of result i have been looked at too. */
  ghost predicate KeptAt(violated: map<string, RuleResult>, results: seq<RuleResult>, i: nat, j: nat, name: string)
    requires i < |results| && j <= |results[i].rule.labels|
  {
    Kept(violated, results, if NamedIn(results[i].rule.labels[..j], name) then i + 1 else i, name)
  }

  ghost predicate AllKeptAt(violated: map<string, RuleResult>, results: seq<RuleResult>, i: nat, j: nat)
    requires i < |results| && j <= |results[i].rule.labels|
  {
    forall name :: KeptAt(violated, results, i, j, name)
  }

  lemma LabelsBegun(violated: map<string, RuleResult>, results: seq<RuleResult>, i: nat)
    requires i < |results| && AllKept(violated, results, i)
    ensures AllKeptAt(violated, results, i, 0)
  {
  }

  lemma LabelsDone(violated: map<string, RuleResult>, results: seq<RuleResult>, i: nat)
    requires i < |results| && AllKeptAt(violated, results, i, |results[i].rule.labels|)
    ensures AllKept(violated, results, i + 1)
  {
    var tags := results[i].rule.labels;
    assert tags[..|tags|] == tags;
    var next := i + 1;
    forall name ensures Kept(violated, results, next, name) {
      assert KeptAt(violated, results, i, |tags|, name);
      if !Names(results[i], name) {
        SkippedResult(violated, results, i, name);
      }
    }
  }

  /** One more label of one result has been looked at. */
  lemma LabelSeen(before: map<string, RuleResult>, after: map<string, RuleResult>, results: seq<RuleResult>, i: nat, j: nat,
                  changed: string)
    requires i < |results| && j < |results[i].rule.labels| && changed == LabelName(results[i].rule.labels[j])
    requires AllKeptAt(before, results, i, j)
    requires changed in before ==> before[changed].rule.operator == results[i].rule.operator
    requires after == if changed !in before || Beats(results[i], before[changed]) then before[changed := results[i]]
                      else before
    ensures AllKeptAt(after, results, i, j + 1)
  {
    var tags, next := results[i].rule.labels, j + 1;
    assert forall l :: l in tags[..j + 1] <==> l in tags[..j] || l == tags[j];
    forall name ensures KeptAt(after, results, i, next, name) {
      assert KeptAt(before, results, i, j, name);
      if name == changed {
        assert NamedIn(tags[..j + 1], name) by { assert tags[j] in tags[..j + 1]; }
        assert Names(results[i], name) by { assert tags[j] in tags; }
        if !NamedIn(tags[..j], name) {
          NextResult(before, results, i, name, after);
        } else {
          KeptIsBeaten(before, results, i, name);
        }
      } else {
        assert NamedIn(tags[..j + 1], name) == NamedIn(tags[..j], name);
      }
    }
  }

  lemma KeptIsBeaten(violated: map<string, RuleResult>, results: seq<RuleResult>, i: nat, name: string)
    requires i < |results| && Kept(violated, results, i + 1, name) && Names(results[i], name)
    ensures name in violated && !Beats(results[i], violated[name])
  {
    var k :| BestAt(results[..i + 1], name, k) && results[..i + 1][k] == violated[name];
    assert results[..i + 1][i] == results[i];
  }

  lemma PanicIsConflict(violated: map<string, RuleResult>, results: seq<RuleResult>, i: nat, j: nat, name: string)
    requires i < |results| && j < |results[i].rule.labels| && name == LabelName(results[i].rule.labels[j])
    requires AllKeptAt(violated, results, i, j)
    requires name in violated && violated[name].rule.operator != results[i].rule.operator
    ensures Conflict(results)
  {
    assert KeptAt(violated, results, i, j, name);
    var n := if NamedIn(results[i].rule.labels[..j], name) then i + 1 else i;
    var k :| BestAt(results[..n], name, k) && results[..n][k] == violated[name];
    assert Names(results[i], name) by { assert results[i].rule.labels[j] in results[i].rule.labels; }
    assert Clash(results, k, i, name);
  }

  lemma NoPanicNoConflict(violated: map<string, RuleResult>, results: seq<RuleResult>)
    requires AllKept(violated, results, |results|)
    ensures !Conflict(results)
    ensures forall name :: name in violated <==> exists r :: r in results && Names(r, name)
    ensures forall name :: name in violated ==> Best(results, name, violated[name])
  {
    assert results[..|results|] == results;
    forall k, m, name ensures !Clash(results, k, m, name) {
      assert Kept(violated, results, |results|, name);
    }
    forall name
      ensures name in violated <==> exists r :: r in results && Names(r, name)
      ensures name in violated ==> Best(results, name, violated[name])
    {
      assert Kept(violated, results, |results|, name);
    }
  }

  method FilterResult(results: seq<RuleResult>, i: nat, violated: map<string, RuleResult>)
    returns (ok: bool, rules: map<string, RuleResult>)
    requires i < |results| && AllKept(violated, results, i)
    ensures ok ==> AllKept(rules, results, i + 1)
    ensures !ok ==> Conflict(results)
  {
    rules := violated;
    LabelsBegun(rules, results, i);
    var result, j := results[i], 0;
    while j < |result.rule.labels|
      invariant 0 <= j <= |result.rule.labels|
      invariant AllKeptAt(rules, results, i, j)
    {
      var name := LabelName(result.rule.labels[j]);
      if name in rules && rules[name].rule.operator != result.rule.operator {
        PanicIsConflict(rules, results, i, j, name);
        return false, rules;
      }
      ghost var before := rules;
      if name !in rules || Beats(result, rules[name]) {
        rules := rules[name := result];
      }
      LabelSeen(before, rules, results, i, j, name);
      j := j + 1;
    }
    LabelsDone(rules, results, i);
    ok := true;
  }

  /** One label name keeps one result, the extreme one, unless rules sharing a name differ in operator: that
      panics, and the recovered call returns no map at all. */
  method MinMaxFilterViolatedRules(results: seq<RuleResult>) returns (violated: Option<map<string, RuleResult>>)
    ensures violated.None? <==> Conflict(results)
    ensures violated.Some? ==>
      forall name :: name in violated.value <==> exists r :: r in results && Names(r, name)
    ensures violated.Some? ==> forall name :: name in violated.value ==> Best(results, name, violated.value[name])
    ensures violated.None? <==> exists r, q, l, m :: Contradict(results, r, q, l, m)
    ensures violated.Some? ==> forall name, r :: name in violated.value && r in results && Names(r, name) ==>
      && (r.rule.operator == "GreaterThan" ==> r.quantity <= violated.value[name].quantity)
      && (r.rule.operator == "LessThan" ==> r.quantity >= violated.value[name].quantity)
  {
    ConflictMeans(results);
    var rules: map<string, RuleResult> := map[];
    var i := 0;
    while i < |results|
      invariant 0 <= i <= |results|
      invariant AllKept(rules, results, i)
    {
      var ok;
      ok, rules := FilterResult(results, i, rules);
      if !ok {
        return None;
      }
      i := i + 1;
    }
    NoPanicNoConflict(rules, results);
    forall name, r | name in rules && r in results && Names(r, name)
      ensures r.rule.operator == "GreaterThan" ==> r.quantity <= rules[name].quantity
      ensures r.rule.operator == "LessThan" ==> r.quantity >= rules[name].quantity
    {
      KeptIsExtreme(results, name, rules[name]);
    }
    violated := Some(rules);
  }
}
