/** How one round of the labeling strategy patches the nodes towards their violated labels
    (updateNodeLabels in strategies/labeling/enforce.go), and what repeated rounds converge to. */
module LabelingEnforcement {
  import opened Text
  import opened LabelPatch
  import opened Strategies
  import opened Labeling

  // ---- labels written "name=value" ----

  datatype Pair = Pair(name: string, value: string)

  function ParsePair(tag: string): Option<Pair> {
    var parts := Split(tag, '=');
    if |parts| == 2 then Some(Pair(parts[0], parts[1])) else None
  }

  /** Only "name=value" parses as that pair. */
  lemma ParsedPairIs(tag: string, name: string, value: string)
    requires ParsePair(tag).Some?
    ensures tag == name + "=" + value <==> ParsePair(tag) == Some(Pair(name, value))
  {
    var parts := Split(tag, '=');
    var a, b := parts[0], parts[1];
    assert tag == a + "=" + b by {
      assert parts[1..] == [b];
      assert Join(parts, '=') == a + "=" + Join(parts[1..], '=');
    }
    if tag == name + "=" + value {
      assert tag[|name|] == '=';
      assert forall i :: 0 <= i < |tag| && i != |a| ==> tag[i] == if i < |a| then a[i] else b[i - |a| - 1];
      assert |name| == |a|;
      assert name == tag[..|name|] && a == tag[..|a|];
      assert value == tag[|name| + 1..] && b == tag[|a| + 1..];
    }
  }

  ghost predicate WellFormed(all: set<string>) { forall tag :: tag in all ==> ParsePair(tag).Some? }

  ghost function PairsIn(all: set<string>): set<Pair> {
    set tag | tag in all && ParsePair(tag).Some? :: ParsePair(tag).value
  }

  lemma PairsInTag(all: set<string>, name: string, value: string)
    requires WellFormed(all)
    ensures Pair(name, value) in PairsIn(all) <==> name + "=" + value in all
  {
    if Pair(name, value) in PairsIn(all) {
      var tag :| tag in all && ParsePair(tag).Some? && ParsePair(tag).value == Pair(name, value);
      ParsedPairIs(tag, name, value);
    }
    if name + "=" + value in all {
      ParsedPairIs(name + "=" + value, name, value);
    }
  }

  predicate Prefixed(name: string) { HasPrefix(name, LABEL_PREFIX) }

  lemma PrefixedMeans(name: string)
    ensures Prefixed(name) <==> "telemetry.aware.scheduling." <= name
  {
  }

  // ---- one node ----

  /** Nobody asks for two values of one label name. */
  ghost predicate Functional(pairs: set<Pair>) {
    forall a, b :: a in pairs && b in pairs && a.name == b.name ==> a == b
  }

  /** The labels a node shall have. */
  ghost function Wanted(pairs: set<Pair>): (wanted: Labels)
    requires Functional(pairs)
    ensures forall n, v :: n in wanted && wanted[n] == v <==> Pair(n, v) in pairs
  {
    var wanted := map p | p in pairs :: p.name := p.value;
    assert forall p :: p in pairs ==> p.name in wanted && wanted[p.name] == p.value;
    wanted
  }

  /** Labels under the prefix that do not have their wanted value. */
  ghost function Stale(labels: Labels, wanted: Labels): set<string> {
    set n | n in labels && Prefixed(n) && !(n in wanted && wanted[n] == labels[n])
  }

  /** What one round makes of a node's labels: wanted ones are set, then the names that were stale before the
      round are removed, even when the round has just set them. */
  ghost function Round(labels: Labels, wanted: Labels): Labels {
    (labels + wanted) - Stale(labels, wanted)
  }

  /** The labels under the prefix are exactly the wanted ones. */
  ghost predicate Settled(labels: Labels, wanted: Labels) {
    && (forall n :: n in wanted ==> n in labels && labels[n] == wanted[n])
    && forall n :: n in labels && Prefixed(n) ==> n in wanted
  }

  ghost predicate AllPrefixed(wanted: Labels) { forall n :: n in wanted ==> Prefixed(n) }

  /** A round leaves every label outside the prefix alone. */
  lemma RoundKeepsOthers(labels: Labels, wanted: Labels, n: string)
    requires AllPrefixed(wanted) && !("telemetry.aware.scheduling." <= n)
    ensures n in Round(labels, wanted) <==> n in labels
    ensures n in labels ==> Round(labels, wanted)[n] == labels[n]
  {
    PrefixedMeans(n);
  }

  /** Settled labels stay, and only they do. */
  lemma SettledIsFixed(labels: Labels, wanted: Labels)
    requires AllPrefixed(wanted)
    ensures Round(labels, wanted) == labels <==> Settled(labels, wanted)
  {
    var once := Round(labels, wanted);
    assert forall n :: n in Stale(labels, wanted) ==> n !in once;
    assert forall n :: n in wanted && n !in Stale(labels, wanted) ==> n in once && once[n] == wanted[n];
    if Settled(labels, wanted) {
      assert Stale(labels, wanted) == {};
      assert labels + wanted == labels;
    }
  }

  /** One round is enough exactly when no wanted label is present with another value: such a label is replaced
      and then removed by the same patch. */
  lemma OneRoundSuffices(labels: Labels, wanted: Labels)
    requires AllPrefixed(wanted)
    ensures Settled(Round(labels, wanted), wanted)
       <==> forall n :: n in wanted && n in labels ==> labels[n] == wanted[n]
  {
    if n :| n in wanted && n in labels && labels[n] != wanted[n] {
      assert n in Stale(labels, wanted) && n !in Round(labels, wanted);
    }
  }

  /** Two rounds are always enough. */
  lemma TwoRoundsSuffice(labels: Labels, wanted: Labels)
    requires AllPrefixed(wanted)
    ensures Settled(Round(Round(labels, wanted), wanted), wanted)
  {
    var once := Round(labels, wanted);
    forall n | n in wanted && n in once ensures once[n] == wanted[n] {
      assert n !in Stale(labels, wanted);
    }
    OneRoundSuffices(once, wanted);
  }

  /** A value that changes costs a round in which the node has no such label. */
  lemma ChangedLabelVanishesFirst(labels: Labels, wanted: Labels, n: string)
    requires AllPrefixed(wanted) && n in wanted && n in labels && labels[n] != wanted[n]
    ensures n !in Round(labels, wanted)
    ensures var twice := Round(Round(labels, wanted), wanted); n in twice && twice[n] == wanted[n]
  {
    TwoRoundsSuffice(labels, wanted);
    assert n in Stale(labels, wanted);
  }

  /** Nothing needs patching: every violated label is there, and nothing else under the prefix. */
  ghost predicate Quiet(pairs: set<Pair>, labels: Labels) {
    && (forall p :: p in pairs ==> Has(labels, p))
    && forall n :: n in labels && Prefixed(n) ==> Pair(n, labels[n]) in pairs
  }

  predicate Has(labels: Labels, p: Pair) { p.name in labels && labels[p.name] == p.value }

  lemma QuietIsSettled(pairs: set<Pair>, labels: Labels)
    requires Functional(pairs)
    ensures Quiet(pairs, labels) <==> Settled(labels, Wanted(pairs))
  {
    var wanted := Wanted(pairs);
    assert forall p :: p in pairs ==> p == Pair(p.name, p.value);
    assert forall n :: n in wanted ==> Pair(n, wanted[n]) in pairs;
  }

  /** Some labels need no patch exactly when no name is asked for with two values; otherwise every round patches
      the node again, whatever its labels. */
  lemma QuietIsPossible(pairs: set<Pair>)
    requires forall p :: p in pairs ==> Prefixed(p.name)
    ensures (exists labels :: Quiet(pairs, labels)) <==> Functional(pairs)
  {
    if Functional(pairs) {
      assert forall p :: p in pairs ==> p == Pair(p.name, p.value);
      assert Quiet(pairs, Wanted(pairs));
    } else {
      var a, b :| a in pairs && b in pairs && a.name == b.name && a != b;
      forall labels ensures !Quiet(pairs, labels) {
        assert !Has(labels, a) || !Has(labels, b);
      }
    }
  }

  // ---- the patch of one node ----

  /** Names the patch paths can carry: without '~', as all Kubernetes label names are. */
  ghost predicate Tokens(pairs: set<Pair>) { forall p :: p in pairs ==> '~' !in p.name }

  ghost function Setter(labels: Labels, p: Pair): PatchValue {
    CreateLabelPatchValue(if p.name in labels then "replace" else "add", Escape(p.name), p.value)
  }

  /** What AppendViolationPatchValue makes of the payload. */
  ghost function Appended(payload: seq<PatchValue>, tag: string, labels: Labels): seq<PatchValue> {
    match ParsePair(tag)
    case None => payload
    case Some(p) => if Has(labels, p) then payload else payload + [Setter(labels, p)]
  }

  method AppendViolationPatchValue(payload: seq<PatchValue>, tag: string, labels: Labels)
    returns (next: seq<PatchValue>, ok: bool)
    ensures ok <==> ParsePair(tag).Some?
    ensures next == Appended(payload, tag, labels)
  {
    next := payload;
    var nameValuePair := Split(tag, '=');
    if |nameValuePair| != 2 {
      return next, false;
    }
    var labelName, labelValue := nameValuePair[0], nameValuePair[1];
    var present := labelName in labels;
    var op := if present then "replace" else "add";
    if !present || labels[labelName] != labelValue {
      next := payload + [CreateLabelPatchValue(op, Escape(labelName), labelValue)];
    }
    ok := true;
  }

  /** The patch after the pairs in seen: empty when they are all there, and setting them otherwise. */
  ghost predicate Setting(labels: Labels, seen: set<Pair>, payload: seq<PatchValue>) {
    && (payload == [] <==> forall p :: p in seen ==> Has(labels, p))
    && (Functional(seen) && Tokens(seen) ==> Apply(labels, payload) == Some(labels + Wanted(seen)))
  }

  lemma WantedMore(seen: set<Pair>, p: Pair)
    requires Functional(seen + {p})
    ensures Functional(seen)
    ensures Wanted(seen + {p}) == Wanted(seen)[p.name := p.value]
  {
    var more, less := Wanted(seen + {p}), Wanted(seen)[p.name := p.value];
    assert p == Pair(p.name, p.value) && p in seen + {p};
    forall n ensures n in more <==> n in less {
      if n in less && n != p.name {
        assert Pair(n, less[n]) in seen;
      }
    }
    forall n | n in more ensures more[n] == less[n] {
      assert Pair(n, more[n]) in seen + {p};
    }
  }

  lemma SetLast(labels: Labels, wanted: Labels, n: string, v: string)
    ensures labels + wanted[n := v] == (labels + wanted)[n := v]
  {
  }

  lemma SetSame(labels: Labels, n: string, v: string)
    requires n in labels && labels[n] == v
    ensures labels[n := v] == labels
  {
  }

  lemma SetOneMore(labels: Labels, seen: set<Pair>, payload: seq<PatchValue>, p: Pair)
    requires Setting(labels, seen, payload)
    ensures Setting(labels, seen + {p}, if Has(labels, p) then payload else payload + [Setter(labels, p)])
  {
    if Functional(seen + {p}) && Tokens(seen + {p}) {
      ApplySetter(labels, seen, payload, p);
    }
    assert forall q :: q in seen + {p} <==> q in seen || q == p;
  }

  lemma ApplySetter(labels: Labels, seen: set<Pair>, payload: seq<PatchValue>, p: Pair)
    requires Setting(labels, seen, payload) && Functional(seen + {p}) && Tokens(seen + {p})
    ensures Apply(labels, if Has(labels, p) then payload else payload + [Setter(labels, p)])
         == Some(labels + Wanted(seen + {p}))
  {
    assert p in seen + {p};
    WantedMore(seen, p);
    assert Tokens(seen);
    var so := labels + Wanted(seen);
    SetLast(labels, Wanted(seen), p.name, p.value);
    if Has(labels, p) {
      if p.name in Wanted(seen) {
        assert Pair(p.name, Wanted(seen)[p.name]) in seen + {p};
      }
      SetSame(so, p.name, p.value);
    } else {
      RefersTo(Setter(labels, p).op, p.name, p.value);
      ApplyMore(labels, payload, Setter(labels, p));
    }
  }

  /** Labels under the prefix that no violation asks for with their present value. */
  ghost function Outdated(labels: Labels, all: set<string>): set<string> {
    set n | n in labels && Prefixed(n) && n + "=" + labels[n] !in all
  }

  method AppendNodeLabelCleanups(payload: seq<PatchValue>, all: set<string>, labels: Labels)
    returns (next: seq<PatchValue>)
    ensures next == [] <==> payload == [] && Outdated(labels, all) == {}
    ensures forall m :: Apply(labels, payload) == Some(m) && labels.Keys <= m.Keys && NoTilde(labels.Keys) ==>
      Apply(labels, next) == Some(m - Outdated(labels, all))
  {
    next := payload;
    var todo := labels.Keys;
    ghost var removed: set<string> := {};
    assert forall m: Labels :: m - removed == m;
    while todo != {}
      invariant todo <= labels.Keys && removed !! todo
      invariant removed == Outdated(labels, all) - todo
      invariant next == [] <==> payload == [] && removed == {}
      invariant forall m :: Apply(labels, payload) == Some(m) && labels.Keys <= m.Keys && NoTilde(labels.Keys) ==>
        Apply(labels, next) == Some(m - removed)
      decreases todo
    {
      var labelName := AnyOf(todo);
      var isViolatedLabel := labelName + "=" + labels[labelName] in all;
      if HasPrefix(labelName, LABEL_PREFIX) && !isViolatedLabel {
        var p := CreateLabelPatchValue("remove", Escape(labelName), "");
        forall m | Apply(labels, payload) == Some(m) && labels.Keys <= m.Keys && NoTilde(labels.Keys)
          ensures Apply(labels, next + [p]) == Some(m - (removed + {labelName}))
        {
          RefersTo("remove", labelName, "");
          ApplyMore(labels, next, p);
          assert m - removed - {labelName} == m - (removed + {labelName});
        }
        next := next + [p];
        removed := removed + {labelName};
      }
      todo := todo - {labelName};
    }
    assert Outdated(labels, all) - todo == Outdated(labels, all);
  }

  predicate Listed(policies: map<string, seq<string>>, p: string, tag: string) {
    p in policies && tag in policies[p]
  }

  /** The violated labels of a node, listed by policy, are the set all. */
  ghost predicate Lists(violations: map<string, seq<string>>, all: set<string>) {
    forall tag :: tag in all <==> exists p :: Listed(violations, p, tag)
  }

  /** Only the last label of each policy can report an error. */
  ghost predicate Malformed(tags: seq<string>) { tags != [] && ParsePair(tags[|tags| - 1]).None? }

  ghost function TagSet(tags: seq<string>): set<string> { set tag | tag in tags }

  lemma OneMoreTag(seen: set<string>, tags: seq<string>, i: nat)
    requires i < |tags|
    ensures var now, next := PairsIn(seen + TagSet(tags[..i])), PairsIn(seen + TagSet(tags[..i + 1]));
      next == if ParsePair(tags[i]).Some? then now + {ParsePair(tags[i]).value} else now
  {
    assert seen + TagSet(tags[..i + 1]) == seen + TagSet(tags[..i]) + {tags[i]} by {
      assert tags[..i + 1] == tags[..i] + [tags[i]];
    }
    PairsOfOneMore(seen + TagSet(tags[..i]), tags[i]);
  }

  lemma PairsOfOneMore(now: set<string>, tag: string)
    ensures PairsIn(now + {tag}) == if ParsePair(tag).Some? then PairsIn(now) + {ParsePair(tag).value} else PairsIn(now)
  {
    assert tag in now + {tag};
  }

  ghost function AppendedAll(payload: seq<PatchValue>, tags: seq<string>, labels: Labels): seq<PatchValue> {
    if tags == [] then payload
    else Appended(AppendedAll(payload, tags[..|tags| - 1], labels), tags[|tags| - 1], labels)
  }

  lemma {:induction false} AppendedAllSets(payload: seq<PatchValue>, tags: seq<string>, labels: Labels, seen: set<string>)
    requires Setting(labels, PairsIn(seen), payload)
    ensures Setting(labels, PairsIn(seen + TagSet(tags)), AppendedAll(payload, tags, labels))
  {
    if tags == [] {
      assert seen + TagSet(tags) == seen;
    } else {
      var i := |tags| - 1;
      AppendedAllSets(payload, tags[..i], labels, seen);
      OneMoreTag(seen, tags, i);
      assert tags[..i + 1] == tags;
      if ParsePair(tags[i]).Some? {
        SetOneMore(labels, PairsIn(seen + TagSet(tags[..i])), AppendedAll(payload, tags[..i], labels),
                   ParsePair(tags[i]).value);
      }
    }
  }

  method PolicyPayload(payload: seq<PatchValue>, tags: seq<string>, labels: Labels)
    returns (next: seq<PatchValue>, ok: bool)
    ensures next == AppendedAll(payload, tags, labels)
    ensures ok <==> !Malformed(tags)
  {
    next, ok := payload, true;
    for i := 0 to |tags|
      invariant next == AppendedAll(payload, tags[..i], labels)
      invariant ok <==> i == 0 || ParsePair(tags[i - 1]).Some?
    {
      AppendedAllStep(payload, tags, i, labels);
      next, ok := AppendViolationPatchValue(next, tags[i], labels);
    }
    assert tags[..|tags|] == tags;
  }

  lemma AppendedAllStep(payload: seq<PatchValue>, tags: seq<string>, i: nat, labels: Labels)
    requires i < |tags|
    ensures AppendedAll(payload, tags[..i + 1], labels) == Appended(AppendedAll(payload, tags[..i], labels), tags[i], labels)
  {
    assert tags[..i + 1][..i] == tags[..i];
  }

  lemma RoundRemovesOutdated(labels: Labels, all: set<string>)
    requires WellFormed(all)
    ensures Outdated(labels, all) == {} <==> forall n :: n in labels && Prefixed(n) ==> Pair(n, labels[n]) in PairsIn(all)
    ensures Functional(PairsIn(all)) ==> var wanted := Wanted(PairsIn(all));
      labels + wanted - Outdated(labels, all) == Round(labels, wanted)
  {
    forall n | n in labels ensures Pair(n, labels[n]) in PairsIn(all) <==> n + "=" + labels[n] in all {
      PairsInTag(all, n, labels[n]);
    }
    assert forall n :: n in Outdated(labels, all) <==> n in labels && Prefixed(n) && Pair(n, labels[n]) !in PairsIn(all);
    if Functional(PairsIn(all)) {
      assert Outdated(labels, all) == Stale(labels, Wanted(PairsIn(all)));
    }
  }

  /** The list part of one node's patch. */
  method ViolationPayload(violations: map<string, seq<string>>, labels: Labels, ghost all: set<string>)
    returns (payload: seq<PatchValue>, ok: bool)
    requires Lists(violations, all)
    ensures ok <==> forall p :: p in violations ==> !Malformed(violations[p])
    ensures ok ==> Setting(labels, PairsIn(all), payload)
  {
    payload, ok := [], true;
    ghost var seen: set<string> := {};
    assert Setting(labels, PairsIn(seen), payload) by {
      assert PairsIn(seen) == {};
      assert labels + Wanted({}) == labels;
    }
    var todo := violations.Keys;
    while todo != {}
      invariant todo <= violations.Keys
      invariant Setting(labels, PairsIn(seen), payload)
      invariant forall tag :: tag in seen <==> exists p :: p !in todo && Listed(violations, p, tag)
      invariant ok && forall p :: p in violations && p !in todo ==> !Malformed(violations[p])
      decreases todo
    {
      var policyName := AnyOf(todo);
      AppendedAllSets(payload, violations[policyName], labels, seen);
      payload, ok := PolicyPayload(payload, violations[policyName], labels);
      if !ok {
        return;
      }
      seen := seen + TagSet(violations[policyName]);
      todo := todo - {policyName};
    }
    assert seen == all;
  }

  /** One node's patch: every operation has a valid target, together they make one Round, and the patch is
      empty exactly when the node is quiet. */
  method NodePayload(violations: map<string, seq<string>>, all: set<string>, labels: Labels)
    returns (payload: seq<PatchValue>, ok: bool)
    requires Lists(violations, all)
    ensures ok <==> forall p :: p in violations ==> !Malformed(violations[p])
    ensures ok && WellFormed(all) ==> (payload == [] <==> Quiet(PairsIn(all), labels))
    ensures ok && WellFormed(all) && Functional(PairsIn(all)) && Tokens(PairsIn(all)) && NoTilde(labels.Keys) ==>
      Apply(labels, payload) == Some(Round(labels, Wanted(PairsIn(all))))
  {
    payload, ok := ViolationPayload(violations, labels, all);
    if ok {
      payload := AppendNodeLabelCleanups(payload, all, labels);
      if WellFormed(all) {
        RoundRemovesOutdated(labels, all);
      }
    }
  }

  // ---- all nodes ----

  /** Node -> policy -> violated labels, and node -> all its violated labels. */
  type Violations = map<string, map<string, seq<string>>>
  type NodeViolations = map<string, set<string>>

  function PoliciesOf(violations: Violations, node: string): map<string, seq<string>> {
    if node in violations then violations[node] else map[]
  }

  function TagsOf(all: NodeViolations, node: string): set<string> {
    if node in all then all[node] else {}
  }

  /** The label set of a node can be reached: each label is one pair, each name has one value, and names are
      proper Kubernetes names. */
  ghost predicate Reachable(tags: set<string>, labels: Labels) {
    WellFormed(tags) && Functional(PairsIn(tags)) && Tokens(PairsIn(tags)) && NoTilde(labels.Keys)
  }

  ghost predicate Broken(violations: Violations, node: string) {
    exists p :: p in PoliciesOf(violations, node) && Malformed(PoliciesOf(violations, node)[p])
  }

  /** At most one patch, none when the node is quiet; an accepted patch makes one Round of its labels, a refused
      one changes nothing. */
  ghost predicate Outcome(tags: set<string>, labels: Labels, accepted: bool, r: NodeResult) {
    && (WellFormed(tags) ==> (r.patched <==> !Quiet(PairsIn(tags), labels)))
    && (Reachable(tags, labels) ==>
          && (r.failed <==> r.patched && !accepted)
          && r.labels == if r.failed then labels else Round(labels, Wanted(PairsIn(tags))))
  }

  method UpdateNode(violations: Violations, all: NodeViolations, node: Node, accepted: bool)
    returns (ok: bool, r: NodeResult)
    requires Lists(PoliciesOf(violations, node.name), TagsOf(all, node.name))
    ensures ok <==> !Broken(violations, node.name)
    ensures ok ==> Outcome(TagsOf(all, node.name), node.labels, accepted, r)
  {
    var payload;
    payload, ok := NodePayload(PoliciesOf(violations, node.name), TagsOf(all, node.name), node.labels);
    r := NodeResult(false, false, node.labels);
    if ok && payload != [] {
      var result := Apply(node.labels, payload);
      r := if accepted && result.Some? then NodeResult(true, false, result.value)
           else NodeResult(true, true, node.labels);
    }
  }

  /** How many policies are listed for the nodes, all nodes together. */
  function ListedPolicies(violations: Violations, nodes: seq<Node>): nat {
    if nodes == [] then 0
    else ListedPolicies(violations, nodes[..|nodes| - 1]) + |PoliciesOf(violations, nodes[|nodes| - 1].name)|
  }

  /** The total after the first k nodes. */
  ghost predicate CountedTo(violations: Violations, nodes: seq<Node>, k: nat, total: int)
    requires k <= |nodes|
  {
    total == ListedPolicies(violations, nodes[..k])
  }

  lemma CountOneMore(violations: Violations, nodes: seq<Node>, k: nat, total: int, count: nat)
    requires k < |nodes| && CountedTo(violations, nodes, k, total) && count == |PoliciesOf(violations, nodes[k].name)|
    ensures CountedTo(violations, nodes, k + 1, total + count)
  {
    assert nodes[..k + 1][..k] == nodes[..k];
  }

  /** What a round has done to the first nodes. */
  ghost predicate Updated(violations: Violations, all: NodeViolations, nodes: seq<Node>, accepted: seq<bool>,
                          results: seq<NodeResult>)
    requires |results| <= |nodes| == |accepted|
  {
    forall i :: 0 <= i < |results| ==> Outcome(TagsOf(all, nodes[i].name), nodes[i].labels, accepted[i], results[i])
  }

  lemma UpdatedMore(violations: Violations, all: NodeViolations, nodes: seq<Node>, accepted: seq<bool>,
                    results: seq<NodeResult>, r: NodeResult)
    requires |results| < |nodes| == |accepted| && Updated(violations, all, nodes, accepted, results)
    requires var node := nodes[|results|]; Outcome(TagsOf(all, node.name), node.labels, accepted[|results|], r)
    ensures Updated(violations, all, nodes, accepted, results + [r])
  {
  }

  /** One round over all nodes; it is given up (total -1) exactly when the last label of some listed policy is
      malformed. Refused patches do not stop it, but are reported at the end. */
  method UpdateNodeLabels(violations: Violations, all: NodeViolations, nodes: seq<Node>, accepted: seq<bool>)
    returns (total: int, ok: bool, results: seq<NodeResult>)
    requires |accepted| == |nodes|
    requires forall n :: Lists(PoliciesOf(violations, n), TagsOf(all, n))
    ensures total == -1 <==> exists i :: 0 <= i < |nodes| && Broken(violations, nodes[i].name)
    ensures total != -1 ==> total == ListedPolicies(violations, nodes) && |results| == |nodes|
    ensures ok <==> total != -1 && forall r :: r in results ==> !r.failed
    ensures forall i :: 0 <= i < |results| <= |nodes| ==>
      Outcome(TagsOf(all, nodes[i].name), nodes[i].labels, accepted[i], results[i])
  {
    total, ok, results := 0, true, [];
    for k := 0 to |nodes|
      invariant |results| == k && CountedTo(violations, nodes, k, total)
      invariant ok <==> forall r :: r in results ==> !r.failed
      invariant forall i :: 0 <= i < k ==> !Broken(violations, nodes[i].name)
      invariant Updated(violations, all, nodes, accepted, results)
    {
      var valid, r := UpdateNode(violations, all, nodes[k], accepted[k]);
      if !valid {
        return -1, false, results;
      }
      var count := |PoliciesOf(violations, nodes[k].name)|;
      CountOneMore(violations, nodes, k, total, count);
      UpdatedMore(violations, all, nodes, accepted, results, r);
      total := total + count;
      ok := ok && !r.failed;
      results := results + [r];
    }
    assert nodes[..|nodes|] == nodes;
  }
}
