/** Which policies can ask for two values of one label name: with rules on metrics of their own, exactly those that
    have two rules which give a name different values and can both be kept by the min/max filter. */
module LabelingClashes {
  import opened Text
  import opened LabelPatch
  import opened Strategies
  import opened Labeling
  import opened LabelingEnforcement
  import opened LabelingStatus
  import opened LabelingConvergence

  /** One broken rule is enough, every rule has a metric of its own, and the operators compare. */
  ghost predicate Independent(s: Strategy) {
    && s.logicalOperator != "allOf"
    && (forall a, b :: a in s.rules && b in s.rules && a.metricname == b.metricname ==> a == b)
    && forall r :: r in s.rules ==> r.operator == "GreaterThan" || r.operator == "LessThan"
  }

  /** The broken rules with their values. */
  lemma {:induction false} BrokenExactly(rules: seq<Rule>, metrics: Metrics, n: string, r: RuleResult)
    ensures r in BrokenRules(rules, metrics, n) <==>
      r.rule in rules && Breaks(metrics, r.rule, n) && r.quantity == metrics[r.rule.metricname][n]
  {
    if rules != [] {
      BrokenExactly(rules[..|rules| - 1], metrics, n, r);
      assert r.rule in rules <==> r.rule in rules[..|rules| - 1] || r.rule == rules[|rules| - 1];
    }
  }

  /** Values that break two rules of one operator, the first one's being the more extreme. */
  function Beating(winner: Rule, loser: Rule): (real, real) {
    var w, l := winner.target as real, loser.target as real;
    if winner.operator == "GreaterThan" then ((if w > l then w else l) + 2.0, (if w > l then w else l) + 1.0)
    else ((if w < l then w else l) - 2.0, (if w < l then w else l) - 1.0)
  }

  function TwoValues(winner: Rule, loser: Rule): Metrics {
    map[loser.metricname := map["n" := Beating(winner, loser).1]][winner.metricname := map["n" := Beating(winner, loser).0]]
  }

  ghost predicate Among(results: seq<RuleResult>, w: RuleResult, l: RuleResult) {
    && w in results && l in results && w.rule.operator == l.rule.operator
    && forall r :: r in results ==> r == w || r == l
  }

  /** Only the two rules are broken, with these values. */
  lemma TwoBroken(s: Strategy, winner: Rule, loser: Rule)
    requires Independent(s) && winner in s.rules && loser in s.rules && winner.operator == loser.operator
    ensures var w := RuleResult(winner, Beating(winner, loser).0);
      var l := RuleResult(loser, Beating(winner, loser).1);
      && Violates(s, TwoValues(winner, loser), "n")
      && (winner != loser ==> Among(BrokenRules(s.rules, TwoValues(winner, loser), "n"), w, l) && Beats(w, l))
      && (winner == loser ==> Among(BrokenRules(s.rules, TwoValues(winner, loser), "n"), w, w))
  {
    var metrics := TwoValues(winner, loser);
    assert Breaks(metrics, winner, "n") && Breaks(metrics, loser, "n");
    forall r ensures r in BrokenRules(s.rules, metrics, "n") <==>
      r.rule in s.rules && Breaks(metrics, r.rule, "n") && r.quantity == metrics[r.rule.metricname]["n"]
    {
      BrokenExactly(s.rules, metrics, "n", r);
    }
  }

  /** The one that beats the other is kept for each of its names, and the other one for the names it has alone. */
  lemma {:induction false} KeptOfTwo(results: seq<RuleResult>, w: RuleResult, l: RuleResult, x: string, y: string)
    requires Among(results, w, l) && (w == l || Beats(w, l))
    requires Names(w, x) && Names(l, y) && (w == l || !Names(w, y))
    ensures Best(results, x, w) && Best(results, y, l) && !Conflict(results)
  {
    FirstIs(results, w);
    FirstIs(results, l);
    var i :| IsFirstAt(results, w, i);
    var j :| IsFirstAt(results, l, j);
    forall k | 0 <= k < |results| ensures results[k] == w || results[k] == l {
      assert results[k] in results;
    }
    assert BestAt(results, x, i);
    assert BestAt(results, y, j);
  }

  ghost predicate IsFirstAt(results: seq<RuleResult>, r: RuleResult, i: int) {
    0 <= i < |results| && results[i] == r && forall j :: 0 <= j < i ==> results[j] != r
  }

  lemma {:induction false} FirstIs(results: seq<RuleResult>, r: RuleResult)
    requires r in results
    ensures exists i :: IsFirstAt(results, r, i)
  {
    var n := |results| - 1;
    if r in results[..n] {
      FirstIs(results[..n], r);
      var i :| IsFirstAt(results[..n], r, i);
      assert IsFirstAt(results, r, i);
    } else {
      assert IsFirstAt(results, r, n) by {
        forall j | 0 <= j < n ensures results[j] != r {
          assert results[..n][j] == results[j];
        }
      }
    }
  }

  lemma AskedPairIs(strategies: seq<Strategy>, s: Strategy, metrics: Metrics, n: string, l: string)
    requires ProperLabels(strategies) && s in strategies && ParsePair(l).Some?
    requires GetPrefix(s.policyName) + l in EmittedTags(s, metrics, n)
    ensures Pair(GetPrefix(s.policyName) + LabelName(l), ParsePair(l).value.value) in PairsIn(AskedTags(strategies, metrics, n))
  {
    var i :| 0 <= i < |strategies| && strategies[i] == s;
    PrefixedPair(s.policyName, l);
    assert GetPrefix(s.policyName) + l in AskedTags(strategies, metrics, n);
  }

  lemma SameValueSameLabel(l: string, m: string)
    requires ParsePair(l).Some? && ParsePair(m).Some? && LabelName(l) == LabelName(m)
    ensures ParsePair(l).value.value == ParsePair(m).value.value ==> l == m
  {
    var p, q := ParsePair(l).value, ParsePair(m).value;
    ParsedPairIs(l, p.name, p.value);
    ParsedPairIs(m, q.name, q.value);
  }

  /** Two labels of one name with different values are two pairs for one label name. */
  lemma TwoPairs(strategies: seq<Strategy>, s: Strategy, metrics: Metrics, n: string, l: string, m: string)
    requires ProperLabels(strategies) && s in strategies && ProperLabel(l) && ProperLabel(m)
    requires LabelName(l) == LabelName(m) && l != m
    requires GetPrefix(s.policyName) + l in EmittedTags(s, metrics, n)
    requires GetPrefix(s.policyName) + m in EmittedTags(s, metrics, n)
    ensures Clashes(strategies, metrics, n)
  {
    AskedPairIs(strategies, s, metrics, n, l);
    AskedPairIs(strategies, s, metrics, n, m);
    SameValueSameLabel(l, m);
  }

  ghost predicate Clashes(strategies: seq<Strategy>, metrics: Metrics, n: string) {
    !Functional(PairsIn(AskedTags(strategies, metrics, n)))
  }

  lemma ClashIsPossible(strategies: seq<Strategy>, s: Strategy, winner: Rule, loser: Rule, l: string, m: string, y: string)
    requires ProperLabels(strategies) && s in strategies && Independent(s)
    requires winner in s.rules && loser in s.rules && winner.operator == loser.operator
    requires l in winner.labels && m in loser.labels && LabelName(l) == LabelName(m) && l != m
    requires Carries(loser, y) && (winner == loser || !Carries(winner, y))
    ensures Clashes(strategies, TwoValues(winner, loser), "n")
  {
    var metrics := TwoValues(winner, loser);
    var w := RuleResult(winner, Beating(winner, loser).0);
    var o := if winner == loser then w else RuleResult(loser, Beating(winner, loser).1);
    var results := BrokenRules(s.rules, metrics, "n");
    TwoBroken(s, winner, loser);
    assert Names(w, LabelName(l));
    KeptOfTwo(results, w, o, LabelName(l), y);
    assert Emits(s, metrics, "n", w) && Emits(s, metrics, "n", o);
    assert ProperRule(winner) && ProperRule(loser);
    TwoPairs(strategies, s, metrics, "n", l, m);
  }

  lemma IncompatibleClash(strategies: seq<Strategy>, s: Strategy, a: Rule, b: Rule) returns (metrics: Metrics)
    requires ProperLabels(strategies) && s in strategies && Independent(s)
    requires a in s.rules && b in s.rules && MayClash(a, b)
    ensures Clashes(strategies, metrics, "n")
  {
    var l, m :| l in a.labels && m in b.labels && LabelName(l) == LabelName(m) && l != m;
    if a == b {
      metrics := TwoValues(a, a);
      ClashIsPossible(strategies, s, a, a, l, m, LabelName(l));
    } else {
      var y :| Carries(a, y) != Carries(b, y);
      if Carries(a, y) {
        metrics := TwoValues(b, a);
        ClashIsPossible(strategies, s, b, a, m, l, y);
      } else {
        metrics := TwoValues(a, b);
        ClashIsPossible(strategies, s, a, b, l, m, y);
      }
    }
  }

  /** With such rules, some metrics make a node ask for two values of one label name if and only if two rules of a
      policy may clash. */
  lemma ClashesExactly(strategies: seq<Strategy>)
    requires ProperLabels(strategies) && forall s :: s in strategies ==> Independent(s)
    ensures (exists metrics, n :: Clashes(strategies, metrics, n)) <==> !CompatibleRules(strategies)
  {
    if CompatibleRules(strategies) {
      forall metrics, n ensures !Clashes(strategies, metrics, n) {
        CompatibleRulesNeverClash(strategies, metrics, n);
      }
    } else {
      var s, a, b :| s in strategies && a in s.rules && b in s.rules && MayClash(a, b);
      var metrics := IncompatibleClash(strategies, s, a, b);
    }
  }
}
