/** Enforcing the labeling strategy round after round: two rounds reach exactly the violated labels from any labels,
    if and only if no label name is asked for with two values. */
module LabelingConvergence {
  import opened Text
  import opened LabelPatch
  import opened Strategies
  import opened Labeling
  import opened LabelingEnforcement
  import opened LabelingStatus

  ghost function AskedTags(strategies: seq<Strategy>, metrics: Metrics, n: string): set<string> {
    set i, tag | 0 <= i < |strategies| && tag in EmittedTags(strategies[i], metrics, n) :: tag
  }

  /** Policies with distinct, proper names, and labels written "name=value". */
  ghost predicate ProperLabels(strategies: seq<Strategy>) {
    && (forall i, j :: 0 <= i < j < |strategies| ==> strategies[i].policyName != strategies[j].policyName)
    && forall s :: s in strategies ==>
         ProperName(s.policyName) && forall r :: r in s.rules ==> ProperRule(r)
  }

  predicate ProperRule(r: Rule) { forall tag :: tag in r.labels ==> ProperLabel(tag) }

  predicate ProperLabel(tag: string) { ParsePair(tag).Some? && '~' !in tag }

  predicate ProperName(name: string) { '/' !in name && '=' !in name && '~' !in name }

  /** All labels that both rules carry for one name have the same value. */
  ghost predicate Agree(a: Rule, b: Rule) {
    forall l, m :: l in a.labels && m in b.labels && LabelName(l) == LabelName(m) ==> l == m
  }

  predicate Carries(r: Rule, name: string) { exists l :: l in r.labels && LabelName(l) == name }

  /** Both rules set the same label names. */
  ghost predicate SameNames(a: Rule, b: Rule) { forall name :: Carries(a, name) <==> Carries(b, name) }

  /** The rules give a label name different values and can both be kept by the filter: they are one rule, or rules of
      one operator that do not set the same names. */
  ghost predicate MayClash(a: Rule, b: Rule) {
    !Agree(a, b) && (a == b || (a.operator == b.operator && !SameNames(a, b)))
  }

  /** What can be checked of the policies beforehand. */
  ghost predicate CompatibleRules(strategies: seq<Strategy>) {
    forall s, a, b :: s in strategies && a in s.rules && b in s.rules ==> !MayClash(a, b)
  }

  ghost predicate SingleLabels(strategies: seq<Strategy>) {
    ProperLabels(strategies) && forall s, r :: s in strategies && r in s.rules ==> |r.labels| == 1
  }

  /** With one label per rule that is always so. */
  lemma SingleLabelsAreCompatible(strategies: seq<Strategy>)
    requires SingleLabels(strategies)
    ensures CompatibleRules(strategies)
  {
    forall s, a, b | s in strategies && a in s.rules && b in s.rules
      ensures !MayClash(a, b)
    {
      OnlyLabel(a, LabelName(a.labels[0]));
      OnlyLabel(b, LabelName(b.labels[0]));
      if !Agree(a, b) {
        assert LabelName(a.labels[0]) == LabelName(b.labels[0]);
      }
    }
  }

  lemma OnlyLabel(r: Rule, name: string)
    requires |r.labels| == 1 && name == LabelName(r.labels[0])
    ensures forall x :: Carries(r, x) <==> x == name
    ensures Agree(r, r)
  {
    assert r.labels[0] in r.labels;
  }

  lemma PrefixedPair(policyName: string, tag: string)
    requires ProperName(policyName) && ParsePair(tag).Some?
    ensures var p := ParsePair(tag).value;
      ParsePair(GetPrefix(policyName) + tag) == Some(Pair(GetPrefix(policyName) + p.name, p.value))
  {
    assert '=' !in LABEL_PREFIX;
    assert '=' !in GetPrefix(policyName);
    SplitAfter(GetPrefix(policyName), tag, '=');
  }

  /** A full label name tells which policy it belongs to. */
  lemma NamePolicy(p: string, x: string, q: string, y: string)
    requires '/' !in p && '/' !in q && GetPrefix(p) + x == GetPrefix(q) + y
    ensures p == q && x == y
  {
    var full := GetPrefix(p) + x;
    assert full[|LABEL_PREFIX|..] == p + ['/'] + x && full[|LABEL_PREFIX|..] == q + ['/'] + y;
    SplitHead(p, x, '/');
    SplitHead(q, y, '/');
    assert x == full[|GetPrefix(p)|..] && y == full[|GetPrefix(q)|..];
  }

  lemma EmittedOrigin(s: Strategy, metrics: Metrics, n: string, tag: string) returns (r: RuleResult, l: string)
    requires tag in EmittedTags(s, metrics, n)
    ensures r in BrokenRules(s.rules, metrics, n) && Emits(s, metrics, n, r) && r.rule in s.rules
    ensures l in r.rule.labels && tag == GetPrefix(s.policyName) + l
  {
    BrokenRulesAreRules(s.rules, metrics, n);
    r, l :| r in BrokenRules(s.rules, metrics, n) && Emits(s, metrics, n, r) && l in r.rule.labels
            && tag == GetPrefix(s.policyName) + l;
  }

  lemma BestNames(results: seq<RuleResult>, name: string, r: RuleResult)
    requires Best(results, name, r)
    ensures Names(r, name)
  {
  }

  /** Where a violated label of a node comes from. */
  lemma TagOrigin(strategies: seq<Strategy>, metrics: Metrics, n: string, tag: string)
    returns (s: Strategy, r: RuleResult, l: string)
    requires ProperLabels(strategies) && tag in AskedTags(strategies, metrics, n)
    ensures s in strategies && r in BrokenRules(s.rules, metrics, n) && Emits(s, metrics, n, r) && r.rule in s.rules
    ensures l in r.rule.labels && ProperLabel(l) && tag == GetPrefix(s.policyName) + l
    ensures var p := ParsePair(l).value; ParsePair(tag) == Some(Pair(GetPrefix(s.policyName) + p.name, p.value))
  {
    var i :| 0 <= i < |strategies| && tag in EmittedTags(strategies[i], metrics, n);
    s := strategies[i];
    r, l := EmittedOrigin(s, metrics, n, tag);
    PrefixedPair(s.policyName, l);
  }

  lemma AskedPair(strategies: seq<Strategy>, metrics: Metrics, n: string, tag: string)
    requires ProperLabels(strategies) && tag in AskedTags(strategies, metrics, n)
    ensures ParsePair(tag).Some?
    ensures var name := ParsePair(tag).value.name; '~' !in name && Prefixed(name)
  {
    var s, r, l := TagOrigin(strategies, metrics, n, tag);
    PairLacks(l);
    assert '~' !in LABEL_PREFIX && '~' !in s.policyName;
    var name := GetPrefix(s.policyName) + ParsePair(l).value.name;
    assert name[..|LABEL_PREFIX|] == LABEL_PREFIX;
  }

  lemma AskedPairs(strategies: seq<Strategy>, metrics: Metrics, n: string)
    requires ProperLabels(strategies)
    ensures var tags := AskedTags(strategies, metrics, n);
      WellFormed(tags) && Tokens(PairsIn(tags)) && forall p :: p in PairsIn(tags) ==> Prefixed(p.name)
  {
    forall tag | tag in AskedTags(strategies, metrics, n)
      ensures ParsePair(tag).Some? && '~' !in ParsePair(tag).value.name && Prefixed(ParsePair(tag).value.name)
    {
      AskedPair(strategies, metrics, n, tag);
    }
  }

  /** Compatible rules never ask for two values of one label name, whatever the metrics and operators. */
  lemma CompatibleRulesNeverClash(strategies: seq<Strategy>, metrics: Metrics, n: string)
    requires ProperLabels(strategies) && CompatibleRules(strategies)
    ensures Functional(PairsIn(AskedTags(strategies, metrics, n)))
  {
    var pairs := PairsIn(AskedTags(strategies, metrics, n));
    forall a, b | a in pairs && b in pairs && a.name == b.name ensures a == b {
      SameNameSamePair(strategies, metrics, n, a, b);
    }
  }

  lemma AllNamesPrefixed(pairs: set<Pair>)
    requires Functional(pairs) && forall p :: p in pairs ==> Prefixed(p.name)
    ensures AllPrefixed(Wanted(pairs))
  {
    var wanted := Wanted(pairs);
    forall name | name in wanted ensures Prefixed(name) {
      assert Pair(name, wanted[name]) in pairs;
    }
  }

  lemma SamePolicySameStrategy(strategies: seq<Strategy>, s: Strategy, t: Strategy)
    requires ProperLabels(strategies) && s in strategies && t in strategies && s.policyName == t.policyName
    ensures s == t
  {
    var i :| 0 <= i < |strategies| && strategies[i] == s;
    var j :| 0 <= j < |strategies| && strategies[j] == t;
    assert i == j;
  }

  lemma PairLacks(tag: string)
    requires ParsePair(tag).Some? && '~' !in tag
    ensures '~' !in ParsePair(tag).value.name
  {
    var p := ParsePair(tag).value;
    ParsedPairIs(tag, p.name, p.value);
    assert forall i :: 0 <= i < |p.name| ==> p.name[i] == tag[i];
  }

  lemma SameNameSamePair(strategies: seq<Strategy>, metrics: Metrics, n: string, a: Pair, b: Pair)
    requires ProperLabels(strategies) && CompatibleRules(strategies) && a.name == b.name
    requires var pairs := PairsIn(AskedTags(strategies, metrics, n)); a in pairs && b in pairs
    ensures a == b
  {
    var s, r, l := PairOrigin(strategies, metrics, n, a);
    var t, q, m := PairOrigin(strategies, metrics, n, b);
    NamePolicy(s.policyName, LabelName(l), t.policyName, LabelName(m));
    SamePolicySameStrategy(strategies, s, t);
    CompatibleInPolicy(strategies, s, r.rule, q.rule);
    OneLabelPerName(s, metrics, n, r, l, q, m);
  }

  lemma CompatibleInPolicy(strategies: seq<Strategy>, s: Strategy, a: Rule, b: Rule)
    requires CompatibleRules(strategies) && s in strategies && a in s.rules && b in s.rules
    ensures !MayClash(a, b)
  {
  }

  lemma PairOrigin(strategies: seq<Strategy>, metrics: Metrics, n: string, a: Pair)
    returns (s: Strategy, r: RuleResult, l: string)
    requires ProperLabels(strategies) && a in PairsIn(AskedTags(strategies, metrics, n))
    ensures s in strategies && '/' !in s.policyName && r.rule in s.rules && Emits(s, metrics, n, r) && l in r.rule.labels
    ensures ParsePair(l).Some? && a == Pair(GetPrefix(s.policyName) + LabelName(l), ParsePair(l).value.value)
  {
    var tags := AskedTags(strategies, metrics, n);
    var tag :| tag in tags && ParsePair(tag) == Some(a);
    s, r, l := TagOrigin(strategies, metrics, n, tag);
  }

  /** Of two rules that do not agree, the filter keeps only one when they set the same names, and none when their
      operators differ. */
  lemma OneLabelPerName(s: Strategy, metrics: Metrics, n: string, r: RuleResult, l: string, q: RuleResult, m: string)
    requires !MayClash(r.rule, q.rule)
    requires Emits(s, metrics, n, r) && l in r.rule.labels && Emits(s, metrics, n, q) && m in q.rule.labels
    requires LabelName(l) == LabelName(m)
    ensures l == m
  {
    if !Agree(r.rule, q.rule) {
      var results := BrokenRules(s.rules, metrics, n);
      var x :| Best(results, x, r);
      var y :| Best(results, y, q);
      var i :| BestAt(results, x, i) && results[i] == r;
      var j :| BestAt(results, y, j) && results[j] == q;
      assert Names(r, LabelName(l)) && Names(q, LabelName(l));
      if r.rule.operator != q.rule.operator {
        assert Clash(results, i, j, LabelName(l));
      } else {
        assert Carries(r.rule, x) && Carries(q.rule, y);
        assert Names(q, x) && Names(r, y);
        assert false;
      }
    }
  }

  lemma OnlyBestIsEmitted(s: Strategy, metrics: Metrics, n: string, r: RuleResult, l: string)
    requires Emits(s, metrics, n, r) && |r.rule.labels| == 1 && l in r.rule.labels
    ensures Best(BrokenRules(s.rules, metrics, n), LabelName(l), r)
  {
    var name :| Best(BrokenRules(s.rules, metrics, n), name, r);
    BestNames(BrokenRules(s.rules, metrics, n), name, r);
    OnlyLabel(r.rule, LabelName(l));
    assert Carries(r.rule, name);
  }

  /** A label is asked for exactly when its node violates the strategy, the operators of rules sharing a label
      name agree, and the best broken rule for that name carries it. */
  lemma AskedMeans(strategies: seq<Strategy>, metrics: Metrics, n: string, s: Strategy, tag: string)
    requires SingleLabels(strategies) && s in strategies && ParsePair(tag).Some?
    ensures GetPrefix(s.policyName) + tag in AskedTags(strategies, metrics, n) <==>
      var results := BrokenRules(s.rules, metrics, n);
      Violates(s, metrics, n) && !Conflict(results)
      && exists r :: Best(results, LabelName(tag), r) && r.rule.labels == [tag]
  {
    var results := BrokenRules(s.rules, metrics, n);
    var full := GetPrefix(s.policyName) + tag;
    if full in AskedTags(strategies, metrics, n) {
      var t, r, l := TagOrigin(strategies, metrics, n, full);
      NamePolicy(s.policyName, tag, t.policyName, l);
      SamePolicySameStrategy(strategies, s, t);
      OnlyBestIsEmitted(s, metrics, n, r, l);
      assert r.rule.labels == [tag];
    }
    if Violates(s, metrics, n) && !Conflict(results)
      && exists r :: Best(results, LabelName(tag), r) && r.rule.labels == [tag]
    {
      var r :| Best(results, LabelName(tag), r) && r.rule.labels == [tag];
      assert Emits(s, metrics, n, r) && tag in r.rule.labels && r in results;
      assert full in EmittedTags(s, metrics, n);
    }
  }

  /** One round of enforcement: it is never given up with proper labels, and patches every node towards the
      violated labels. */
  method Enforce(strategies: seq<Strategy>, metrics: Metrics, nodes: seq<Node>, accepted: seq<bool>)
    returns (total: int, results: seq<NodeResult>)
    requires |accepted| == |nodes|
    ensures ProperLabels(strategies) ==> |results| == |nodes|
    ensures ProperLabels(strategies) ==> (total == -1 <==> exists r :: r in results && r.failed)
    ensures total != -1 ==> |results| == |nodes| && forall r :: r in results ==> !r.failed
    ensures forall i :: 0 <= i < |results| <= |nodes| ==>
      Outcome(AskedTags(strategies, metrics, nodes[i].name), nodes[i].labels, accepted[i], results[i])
  {
    var violations, all := NodeStatusForStrategy(strategies, metrics);
    forall n
      ensures TagsOf(all, n) == AskedTags(strategies, metrics, n)
      ensures Lists(PoliciesOf(violations, n), TagsOf(all, n))
    {
      StatusIsAsked(PoliciesOf(violations, n), TagsOf(all, n), strategies, metrics, n);
    }
    if ProperLabels(strategies) {
      forall n ensures !Broken(violations, n) {
        AskedPairs(strategies, metrics, n);
        NoneMalformed(violations, n, TagsOf(all, n));
      }
    }
    var ok;
    total, ok, results := UpdateNodeLabels(violations, all, nodes, accepted);
    if !ok {
      total := -1;
    }
  }

  lemma NoneMalformed(violations: Violations, n: string, tags: set<string>)
    requires Lists(PoliciesOf(violations, n), tags) && WellFormed(tags)
    ensures !Broken(violations, n)
  {
    var policies := PoliciesOf(violations, n);
    forall p | p in policies && policies[p] != [] ensures ParsePair(policies[p][|policies[p]| - 1]).Some? {
      assert Listed(policies, p, policies[p][|policies[p]| - 1]);
    }
  }

  lemma StatusIsAsked(policies: map<string, seq<string>>, tags: set<string>, strategies: seq<Strategy>, metrics: Metrics,
                      n: string)
    requires ListsStrategies(policies, tags, strategies, |strategies|, metrics, n)
    ensures tags == AskedTags(strategies, metrics, n)
    ensures Lists(policies, tags)
  {
    forall tag ensures tag in tags <==> exists p :: Listed(policies, p, tag) {
      if tag in tags {
        var i :| 0 <= i < |strategies| && tag in EmittedTags(strategies[i], metrics, n);
        assert Listed(policies, strategies[i].policyName, tag);
      }
    }
  }

  /** Labeling converges in two rounds, from any labels, while metrics and policies stay the same and no label name is
      asked for with two values: afterwards the labels under the prefix are exactly the violated ones, a third round
      sends no patch, and labels outside the prefix are as they were. */
  lemma TwoRoundsConverge(strategies: seq<Strategy>, metrics: Metrics, n: string, labels: Labels,
                          first: NodeResult, second: NodeResult, third: NodeResult)
    requires ProperLabels(strategies) && Functional(PairsIn(AskedTags(strategies, metrics, n))) && NoTilde(labels.Keys)
    requires ThreeRounds(AskedTags(strategies, metrics, n), labels, first, second, third)
    ensures forall name, value :: "telemetry.aware.scheduling." <= name ==>
      (name in second.labels && second.labels[name] == value <==> name + "=" + value in AskedTags(strategies, metrics, n))
    ensures forall name :: !("telemetry.aware.scheduling." <= name) ==> (name in second.labels <==> name in labels)
    ensures forall name :: !("telemetry.aware.scheduling." <= name) && name in labels ==>
      second.labels[name] == labels[name]
    ensures !third.patched && third.labels == second.labels
  {
    var tags := AskedTags(strategies, metrics, n);
    AskedPairs(strategies, metrics, n);
    AllNamesPrefixed(PairsIn(tags));
    var wanted := Wanted(PairsIn(tags));
    assert forall name :: name in wanted ==> Pair(name, wanted[name]) in PairsIn(tags);
    assert Reachable(tags, first.labels) && Reachable(tags, second.labels);
    TwoRoundsSuffice(labels, wanted);
    QuietIsSettled(PairsIn(tags), second.labels);
    SettledIsFixed(second.labels, wanted);
    forall name, value | "telemetry.aware.scheduling." <= name
      ensures name in second.labels && second.labels[name] == value <==> name + "=" + value in tags
    {
      PrefixedMeans(name);
      PairsInTag(tags, name, value);
    }
    forall name | !("telemetry.aware.scheduling." <= name)
      ensures name in second.labels <==> name in labels
      ensures name in labels ==> second.labels[name] == labels[name]
    {
      RoundKeepsOthers(labels, wanted, name);
      RoundKeepsOthers(first.labels, wanted, name);
    }
  }

  ghost predicate ThreeRounds(tags: set<string>, labels: Labels, first: NodeResult, second: NodeResult, third: NodeResult) {
    Outcome(tags, labels, true, first) && Outcome(tags, first.labels, true, second) && Outcome(tags, second.labels, true, third)
  }

  /** Every node comes to rest if and only if no label name is asked for with two values; otherwise its third round
      is a patch again, whatever its labels. */
  lemma ConvergesExactly(strategies: seq<Strategy>, metrics: Metrics, n: string)
    requires ProperLabels(strategies)
    ensures var tags := AskedTags(strategies, metrics, n);
      Functional(PairsIn(tags)) <==>
        forall labels: Labels, first, second, third ::
          NoTilde(labels.Keys) && ThreeRounds(tags, labels, first, second, third) ==> !third.patched
  {
    var tags := AskedTags(strategies, metrics, n);
    AskedPairs(strategies, metrics, n);
    if Functional(PairsIn(tags)) {
      forall labels: Labels, first, second, third
        | NoTilde(labels.Keys) && ThreeRounds(tags, labels, first, second, third)
        ensures !third.patched
      {
        TwoRoundsConverge(strategies, metrics, n, labels, first, second, third);
      }
    } else {
      QuietIsPossible(PairsIn(tags));
      var labels, again: Labels := map[], map[];
      var patched := NodeResult(true, false, again);
      assert ThreeRounds(tags, labels, patched, patched, patched) && NoTilde(labels.Keys);
    }
  }

  // ---- more than one label per rule ----

  function Tag(p: Pair): string { p.name + "=" + p.value }

  ghost predicate PlainPair(p: Pair) { '=' !in p.name && '=' !in p.value }

  lemma ParseTag(p: Pair)
    requires PlainPair(p)
    ensures ParsePair(Tag(p)) == Some(p) && LabelName(Tag(p)) == p.name
  {
    assert Tag(p) == p.name + ['='] + p.value;
    SplitHead(p.name, p.value, '=');
    SplitPart(p.value, '=');
  }

  /** A policy of two rules, the first of which sets two labels, on a node where both rules are broken and the
      second one has the larger metric. */
  function TwoRules(x: Pair, y: Pair, z: Pair): Strategy {
    Strategy("p", "", [Rule("heat", "GreaterThan", 1, [Tag(x), Tag(y)]), Rule("load", "GreaterThan", 1, [Tag(z)])])
  }

  function TwoMetrics(): Metrics { map["heat" := map["n" := 2.0], "load" := map["n" := 3.0]] }

  lemma BothKept(x: Pair, y: Pair, z: Pair)
    requires PlainPair(x) && PlainPair(y) && PlainPair(z) && x.name != y.name && y.name == z.name
    ensures var s := TwoRules(x, y, z); var results := [RuleResult(s.rules[0], 2.0), RuleResult(s.rules[1], 3.0)];
      && BrokenRules(s.rules, TwoMetrics(), "n") == results
      && Emits(s, TwoMetrics(), "n", results[0]) && Emits(s, TwoMetrics(), "n", results[1])
  {
    var s := TwoRules(x, y, z);
    var results := [RuleResult(s.rules[0], 2.0), RuleResult(s.rules[1], 3.0)];
    assert s.rules[..1] == [s.rules[0]] && [s.rules[0]][..0] == [];
    assert BrokenRules([s.rules[0]], TwoMetrics(), "n") == [results[0]];
    assert s.rules[0] in s.rules && Breaks(TwoMetrics(), s.rules[0], "n");
    NamesOfTwo(results[0], results[1], x, y, z);
    BestOfTwo(results, x.name, z.name);
  }

  lemma NamesOfTwo(first: RuleResult, second: RuleResult, x: Pair, y: Pair, z: Pair)
    requires PlainPair(x) && PlainPair(y) && PlainPair(z) && x.name != y.name && y.name == z.name
    requires first.rule.labels == [Tag(x), Tag(y)] && second.rule.labels == [Tag(z)]
    ensures Names(first, x.name) && Names(first, z.name) && Names(second, z.name) && !Names(second, x.name)
  {
    ParseTag(x);
    ParseTag(y);
    ParseTag(z);
    assert Tag(x) in first.rule.labels && Tag(y) in first.rule.labels && Tag(z) in second.rule.labels;
  }

  lemma BestOfTwo(results: seq<RuleResult>, a: string, b: string)
    requires |results| == 2
    requires Names(results[0], a) && Names(results[0], b) && Names(results[1], b) && !Names(results[1], a)
    requires results[0].rule.operator == results[1].rule.operator == "GreaterThan"
    requires results[0].quantity < results[1].quantity
    ensures Best(results, a, results[0]) && Best(results, b, results[1]) && !Conflict(results)
  {
    assert Beats(results[1], results[0]) && !Beats(results[0], results[0]);
    assert BestAt(results, a, 0) && BestAt(results, b, 1);
  }

  /** With two labels on a rule the rounds may never end: a rule kept for one label name also brings its label for
      a name whose best rule is another one, so the node is patched for ever, whatever its labels. */
  lemma TwoLabelsNeverSettle(x: Pair, y: Pair, z: Pair, labels: Labels)
    requires PlainPair(x) && PlainPair(y) && PlainPair(z) && x.name != y.name && y.name == z.name && y.value != z.value
    ensures !Quiet(PairsIn(AskedTags([TwoRules(x, y, z)], TwoMetrics(), "n")), labels)
  {
    BothKept(x, y, z);
    AskedTwice(x, y, z, y, 0);
    AskedTwice(x, y, z, z, 1);
    var v, w := Pair(GetPrefix("p") + y.name, y.value), Pair(GetPrefix("p") + z.name, z.value);
    assert !Has(labels, v) || !Has(labels, w);
  }

  lemma AskedTwice(x: Pair, y: Pair, z: Pair, p: Pair, i: nat)
    requires i < 2 && PlainPair(p) && Tag(p) in TwoRules(x, y, z).rules[i].labels
    requires var s := TwoRules(x, y, z); var results := [RuleResult(s.rules[0], 2.0), RuleResult(s.rules[1], 3.0)];
      BrokenRules(s.rules, TwoMetrics(), "n") == results && Emits(s, TwoMetrics(), "n", results[i])
    ensures Pair(GetPrefix("p") + p.name, p.value) in PairsIn(AskedTags([TwoRules(x, y, z)], TwoMetrics(), "n"))
  {
    var s := TwoRules(x, y, z);
    ParseTag(p);
    PrefixedPair("p", Tag(p));
    var r := BrokenRules(s.rules, TwoMetrics(), "n")[i];
    var full := GetPrefix("p") + Tag(p);
    assert r in BrokenRules(s.rules, TwoMetrics(), "n") && Tag(p) in r.rule.labels;
    assert full in EmittedTags(s, TwoMetrics(), "n");
    assert [s][0] == s;
    assert full in AskedTags([s], TwoMetrics(), "n");
  }
}
