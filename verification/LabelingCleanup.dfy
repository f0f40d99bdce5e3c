/** What the labeling strategy does to the nodes when a policy is deleted (Cleanup in strategies/labeling/enforce.go). */
module LabelingCleanup {
  import opened Text
  import opened LabelPatch
  import opened Strategies
  import opened Labeling
  import opened LabelingEnforcement
  import opened LabelingStatus
  import opened LabelingConvergence

  /** The labels under the policy's prefix. */
  ghost function Under(policyName: string, labels: Labels): set<string> {
    set n | n in labels && HasPrefix(n, GetPrefix(policyName))
  }

  /** The patch for one label removes that label and no other. */
  lemma OneRemoved(labels: Labels, name: string)
    requires '~' !in name && name in labels
    ensures Apply(labels, [CreateLabelPatchValue("remove", Escape(name), "")]) == Some(labels - {name})
  {
    var p := CreateLabelPatchValue("remove", Escape(name), "");
    RefersTo("remove", name, "");
    ApplyMore(labels, [], p);
    assert [] + [p] == [p];
  }

  /** One patch per label, in any order; those in accepted go through. */
  method CleanupNode(policyName: string, labels: Labels, accepted: set<string>) returns (result: Labels)
    requires NoTilde(labels.Keys)
    ensures result == labels - (Under(policyName, labels) * accepted)
  {
    result := labels;
    var todo := labels.Keys;
    ghost var gone := Under(policyName, labels) * accepted;
    while todo != {}
      invariant todo <= labels.Keys && todo <= result.Keys
      invariant result == labels - (gone - todo)
      decreases todo
    {
      var labelName := AnyOf(todo);
      if HasPrefix(labelName, GetPrefix(policyName)) {
        OneRemoved(result, labelName);
        var patched := Apply(result, [CreateLabelPatchValue("remove", Escape(labelName), "")]);
        if labelName in accepted {
          result := patched.value;
        }
      }
      todo := todo - {labelName};
    }
  }

  method Cleanup(policyName: string, nodes: seq<Node>, accepted: seq<set<string>>) returns (results: seq<Labels>)
    requires |accepted| == |nodes| && forall i :: 0 <= i < |nodes| ==> NoTilde(nodes[i].labels.Keys)
    ensures |results| == |nodes|
    ensures forall i :: 0 <= i < |nodes| ==>
      results[i] == nodes[i].labels - (Under(policyName, nodes[i].labels) * accepted[i])
  {
    results := [];
    for k := 0 to |nodes|
      invariant |results| == k
      invariant forall i :: 0 <= i < k ==> results[i] == nodes[i].labels - (Under(policyName, nodes[i].labels) * accepted[i])
    {
      var labels := CleanupNode(policyName, nodes[k].labels, accepted[k]);
      results := results + [labels];
    }
  }

  /** A label of one policy is under no other policy's prefix. */
  lemma UnderOwnPrefix(p: string, q: string, tag: string)
    requires '/' !in p && '/' !in q && HasPrefix(GetPrefix(p) + tag, GetPrefix(q))
    ensures p == q
  {
    var full := GetPrefix(p) + tag;
    assert full == GetPrefix(q) + full[|GetPrefix(q)|..];
    NamePolicy(p, tag, q, full[|GetPrefix(q)|..]);
  }

  /** The strategies but the i-th. */
  function Without(strategies: seq<Strategy>, i: nat): seq<Strategy>
    requires i < |strategies|
  {
    strategies[..i] + strategies[i + 1..]
  }

  lemma EmittedUnder(s: Strategy, t: Strategy, metrics: Metrics, n: string, tag: string)
    requires ProperName(s.policyName) && ProperName(t.policyName) && tag in EmittedTags(s, metrics, n)
    ensures HasPrefix(tag, GetPrefix(t.policyName)) <==> s.policyName == t.policyName
  {
    var r, l := EmittedOrigin(s, metrics, n, tag);
    if HasPrefix(tag, GetPrefix(t.policyName)) {
      UnderOwnPrefix(s.policyName, t.policyName, l);
    }
  }

  /** A label that strategy k asks for is under the prefix of strategy i only if they are the same. */
  lemma AskedByOne(strategies: seq<Strategy>, i: nat, k: nat, metrics: Metrics, n: string, tag: string)
    requires ProperLabels(strategies) && i < |strategies| && k < |strategies|
    requires tag in EmittedTags(strategies[k], metrics, n)
    ensures HasPrefix(tag, GetPrefix(strategies[i].policyName)) <==> k == i
  {
    assert strategies[i] in strategies && strategies[k] in strategies;
    EmittedUnder(strategies[k], strategies[i], metrics, n, tag);
  }

  lemma WithoutAt(strategies: seq<Strategy>, i: nat, k: nat)
    requires i < |strategies| && k < |strategies| && k != i
    ensures var j := if k < i then k else k - 1;
      j < |Without(strategies, i)| && Without(strategies, i)[j] == strategies[k]
  {
  }

  lemma AskedWithout(strategies: seq<Strategy>, i: nat, metrics: Metrics, n: string, tag: string)
    requires ProperLabels(strategies) && i < |strategies|
    ensures tag in AskedTags(Without(strategies, i), metrics, n) <==>
      tag in AskedTags(strategies, metrics, n) && !HasPrefix(tag, GetPrefix(strategies[i].policyName))
  {
    var rest := Without(strategies, i);
    if tag in AskedTags(rest, metrics, n) {
      var j: nat :| j < |rest| && tag in EmittedTags(rest[j], metrics, n);
      var k := if j < i then j else j + 1;
      WithoutAt(strategies, i, k);
      AskedByOne(strategies, i, k, metrics, n, tag);
    } else if tag in AskedTags(strategies, metrics, n) {
      var k: nat :| k < |strategies| && tag in EmittedTags(strategies[k], metrics, n);
      AskedByOne(strategies, i, k, metrics, n, tag);
      if k != i {
        WithoutAt(strategies, i, k);
      }
    }
  }

  /** When a node is at rest, cleaning up after a policy leaves it at rest with respect to the other policies, and
      without any label of the deleted one. */
  lemma CleanupKeepsRest(strategies: seq<Strategy>, i: nat, metrics: Metrics, n: string, labels: Labels)
    requires ProperLabels(strategies) && i < |strategies|
    requires Quiet(PairsIn(AskedTags(strategies, metrics, n)), labels)
    ensures var name := strategies[i].policyName; var cleaned := labels - Under(name, labels);
      && Under(name, cleaned) == {}
      && Quiet(PairsIn(AskedTags(Without(strategies, i), metrics, n)), cleaned)
  {
    var name := strategies[i].policyName;
    var cleaned := labels - Under(name, labels);
    var tags, less := AskedTags(strategies, metrics, n), AskedTags(Without(strategies, i), metrics, n);
    forall p: Pair ensures p in PairsIn(less) <==> p in PairsIn(tags) && !HasPrefix(p.name, GetPrefix(name)) {
      PairsWithout(strategies, i, metrics, n, p);
    }
  }

  lemma PairsWithout(strategies: seq<Strategy>, i: nat, metrics: Metrics, n: string, p: Pair)
    requires ProperLabels(strategies) && i < |strategies|
    ensures p in PairsIn(AskedTags(Without(strategies, i), metrics, n)) <==>
      p in PairsIn(AskedTags(strategies, metrics, n)) && !HasPrefix(p.name, GetPrefix(strategies[i].policyName))
  {
    var prefix, tag := GetPrefix(strategies[i].policyName), p.name + "=" + p.value;
    AskedWithout(strategies, i, metrics, n, tag);
    AskedPairs(strategies, metrics, n);
    AskedPairs(Without(strategies, i), metrics, n);
    PairsInTag(AskedTags(strategies, metrics, n), p.name, p.value);
    PairsInTag(AskedTags(Without(strategies, i), metrics, n), p.name, p.value);
    PrefixOfName(prefix, p.name, p.value);
  }

  /** A prefix without '=' is one of the whole label if and only if it is one of its name. */
  lemma PrefixOfName(prefix: string, name: string, value: string)
    requires '=' !in prefix
    ensures HasPrefix(name + "=" + value, prefix) <==> HasPrefix(name, prefix)
  {
    var tag := name + "=" + value;
    assert tag[|name|] == '=';
    if HasPrefix(tag, prefix) {
      if |name| < |prefix| {
        assert false;
      }
      assert tag[..|prefix|] == name[..|prefix|];
    }
    if HasPrefix(name, prefix) {
      assert tag[..|prefix|] == name[..|prefix|];
    }
  }
}
