/** What all strategy types share (strategies/core/operator.go and the policy types): rules, the metrics they
    are evaluated against, and when a node violates a strategy. */
module Strategies {
  datatype Rule = Rule(metricname: string, operator: string, target: int, labels: seq<string>)

  datatype Strategy = Strategy(policyName: string, logicalOperator: string, rules: seq<Rule>)

  /** Metric name -> node name -> value; metrics without data are absent. */
  type Metrics = map<string, map<string, real>>

  predicate EvaluateRule(value: real, rule: Rule) {
    if rule.operator == "LessThan" then value < rule.target as real
    else if rule.operator == "GreaterThan" then value > rule.target as real
    else rule.operator == "Equals" && value == rule.target as real
  }

  predicate Breaks(metrics: Metrics, rule: Rule, node: string) {
    rule.metricname in metrics && node in metrics[rule.metricname]
    && EvaluateRule(metrics[rule.metricname][node], rule)
  }

  /** By default one broken rule suffices; with allOf every rule must be broken, and there must be one. */
  predicate Violates(s: Strategy, metrics: Metrics, node: string) {
    if s.logicalOperator == "allOf" then s.rules != [] && forall r :: r in s.rules ==> Breaks(metrics, r, node)
    else exists r :: r in s.rules && Breaks(metrics, r, node)
  }

  /** A metric that a node has stands to the target in exactly one of three ways, so exactly one of the three operators
      makes the node violate a strategy of one rule, whatever its logical operator; no other operator ever does, nor
      does a metric the node does not have. */
  lemma OneOperatorViolates(policyName: string, logicalOperator: string, rule: Rule, metrics: Metrics, node: string)
    ensures var violates := Violates(Strategy(policyName, logicalOperator, [rule]), metrics, node);
      && (rule.metricname in metrics && node in metrics[rule.metricname] ==>
            var value, target := metrics[rule.metricname][node], rule.target as real;
            && (rule.operator == "LessThan" ==> (violates <==> value < target))
            && (rule.operator == "GreaterThan" ==> (violates <==> value > target))
            && (rule.operator == "Equals" ==> (violates <==> value == target)))
      && (rule.metricname !in metrics || node !in metrics[rule.metricname] ==> !violates)
      && (rule.operator !in ["LessThan", "GreaterThan", "Equals"] ==> !violates)
  {
    OneRule(policyName, logicalOperator, rule, metrics, node);
  }

  lemma OneRule(policyName: string, logicalOperator: string, rule: Rule, metrics: Metrics, node: string)
    ensures Violates(Strategy(policyName, logicalOperator, [rule]), metrics, node) <==> Breaks(metrics, rule, node)
  {
    assert rule in [rule];
  }
}
