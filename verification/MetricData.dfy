/** Which metrics keep their data when policies come, change and go: what the handlers of controller.go do to the metric
    cache, stated over the policies alive. */
module MetricData {
  import opened Text
  import opened Strategies
  import opened MetricCache
  import opened StrategyRegistry
  import opened PolicyController
  import opened PolicyRuns

  /** What ReadMetric answers. */
  function DataOf(st: State, m: string): Option<Data> { if m in st.store then st.store[m] else None }

  /** Some rule of the policies names the metric. */
  ghost predicate Used(policies: Policies, m: string) {
    exists name, t, i :: UsedAt(policies, m, name, t, i)
  }

  ghost predicate UsedAt(policies: Policies, m: string, name: string, t: string, i: int) {
    && name in policies && t in policies[name].strategies
    && 0 <= i < |policies[name].strategies[t].rules| && policies[name].strategies[t].rules[i].metricname == m
  }

  ghost predicate HasHolder(live: Live, m: string) { Holders(Held(live), m) != {} }

  lemma UsedIsHeld(policies: Policies, m: string)
    ensures Used(policies, m) <==> HasHolder(LiveOf(policies), m)
  {
    var live := LiveOf(policies);
    if name, t, i :| UsedAt(policies, m, name, t, i) {
      assert Slot(name, t) in live;
      assert Ref(Slot(name, t), i) in Holders(Held(live), m);
    }
    if HasHolder(live, m) {
      var r :| r in Holders(Held(live), m);
      assert UsedAt(policies, m, r.slot.policy, r.slot.kind, r.index);
    }
  }

  /** In step, the counted metrics are those in use, and no other has data. */
  lemma CountedIsUsed(st: State, policies: Policies, m: string)
    requires InStep(st, policies)
    ensures m in st.counts <==> Used(policies, m)
    ensures !Used(policies, m) ==> DataOf(st, m) == None
  {
    UsedIsHeld(policies, m);
    assert CountMatches(st.counts, Held(LiveOf(policies)), m);
  }

  // ---- one strategy ----

  lemma {:induction false} WritingKeepsData(st: State, rules: seq<Rule>, m: string)
    ensures DataOf(WriteRules(st, rules), m) == DataOf(st, m)
  {
    if rules != [] {
      WritingKeepsData(st, rules[..|rules| - 1], m);
    }
  }

  /** A metric that is still counted after rules have gone has the data it had. */
  lemma {:induction false} DroppingKeepsData(st: State, rules: seq<Rule>, held: map<Ref, string>, slot: Slot, m: string)
    requires CountsMatch(st.counts, held) && DataOnlyForCounted(st.counts, st.store)
    requires forall i :: 0 <= i < |rules| ==> Ref(slot, i) in held && held[Ref(slot, i)] == rules[i].metricname
    ensures m in DropRules(st, rules).counts ==> m in st.counts && DataOf(DropRules(st, rules), m) == DataOf(st, m)
  {
    if rules != [] {
      var n := |rules| - 1;
      DroppingKeepsData(st, rules[..n], held, slot, m);
      DropRulesCounts(st, rules[..n], held, slot);
      var counts, rest := DropRules(st, rules[..n]).counts, held - SlotRefs(slot, rules[..n]).Keys;
      assert CountMatches(counts, rest, rules[n].metricname);
      assert Ref(slot, n) in Holders(rest, rules[n].metricname);
    }
  }

  /** Removing a strategy takes the data of exactly those metrics that no live strategy uses any more. */
  lemma RemovedData(st: State, live: Live, s: Strategy, t: string, m: string)
    requires Consistent(st, live) && ValidType(t)
    requires Slot(s.policyName, t) in live && live[Slot(s.policyName, t)] == s && ProperStrategy(s)
    ensures DataOf(RemoveOne(st, s, t), m)
         == if HasHolder(live - {Slot(s.policyName, t)}, m) then DataOf(st, m) else None
  {
    var after := RemoveOne(st, s, t);
    RemoveOneConsistent(st, live, s, t);
    assert CountMatches(after.counts, Held(live - {Slot(s.policyName, t)}), m);
    DroppingKeepsData(st.(registry := Removed(st.registry, s, t)), s.rules, Held(live), Slot(s.policyName, t), m);
  }

  lemma AddedData(st: State, s: Strategy, t: string, m: string)
    ensures DataOf(AddOne(st, s, t), m) == DataOf(st, m)
  {
    WritingKeepsData(st.(registry := Added(st.registry, s, t)), s.rules, m);
  }

  // ---- one policy ----

  lemma {:induction false} AddingKeepsData(st: State, p: Policy, order: seq<string>, m: string)
    ensures DataOf(Add(st, p, order), m) == DataOf(st, m)
  {
    if order != [] {
      var n := |order| - 1;
      AddingKeepsData(st, p, order[..n], m);
      AddedData(Add(st, p, order[..n]), Named(p, order[n]), order[n], m);
    }
  }

  lemma {:induction false} RemovingData(st: State, live: Live, p: Policy, order: seq<string>, m: string)
    requires Consistent(st, live) && Proper(p)
    requires forall t :: t in order ==>
      t in p.strategies && Slot(p.name, t) in live && live[Slot(p.name, t)] == Named(p, t)
    requires forall i, j :: 0 <= i < j < |order| ==> order[i] != order[j]
    ensures HasHolder(live - KindSlots(p.name, order), m) ==> DataOf(Remove(st, p, order), m) == DataOf(st, m)
  {
    if order != [] {
      RemovingData(st, live, p, order[..|order| - 1], m);
      LastRemoved(st, live, p, order, m);
    }
  }

  lemma LastRemoved(st: State, live: Live, p: Policy, order: seq<string>, m: string)
    requires Consistent(st, live) && Proper(p) && order != []
    requires forall t :: t in order ==>
      t in p.strategies && Slot(p.name, t) in live && live[Slot(p.name, t)] == Named(p, t)
    requires forall i, j :: 0 <= i < j < |order| ==> order[i] != order[j]
    ensures var n := |order| - 1;
      HasHolder(live - KindSlots(p.name, order), m) ==>
        HasHolder(live - KindSlots(p.name, order[..n]), m)
        && DataOf(Remove(st, p, order), m) == DataOf(Remove(st, p, order[..n]), m)
  {
    var n := |order| - 1;
    var before := live - KindSlots(p.name, order[..n]);
    RemoveConsistent(st, live, p, order[..n]);
    assert order[n] in order && order[n] !in order[..n];
    RestLast(live, p.name, order);
    RemovedData(Remove(st, p, order[..n]), before, Named(p, order[n]), order[n], m);
    if HasHolder(live - KindSlots(p.name, order), m) {
      FewerHolders(before, Slot(p.name, order[n]), m);
    }
  }

  lemma FewerHolders(live: Live, slot: Slot, m: string)
    requires HasHolder(live - {slot}, m)
    ensures HasHolder(live, m)
  {
    var r :| r in Holders(Held(live - {slot}), m);
    assert r in Holders(Held(live), m);
  }

  /** Each old strategy that uses the metric is replaced while some other strategy, old or already replaced, uses it. */
  ghost predicate UsedThroughout(live: Live, older: Policy, newer: Policy, order: seq<string>, m: string) {
    forall k :: 0 <= k < |order| ==> UsedDuring(live, older, newer, order, k, m)
  }

  ghost predicate UsedDuring(live: Live, older: Policy, newer: Policy, order: seq<string>, k: int, m: string)
    requires 0 <= k < |order|
  {
    order[k] in older.strategies && (exists r :: r in older.strategies[order[k]].rules && r.metricname == m) ==>
      HasHolder((live + Part(newer, order[..k])) - {Slot(newer.name, order[k])}, m)
  }

  /** An update takes the data of exactly those metrics that were unused at some moment of it. */
  lemma {:induction false} UpdatedData(st: State, live: Live, older: Policy, newer: Policy, order: seq<string>, m: string)
    requires Consistent(st, live) && Proper(older) && Proper(newer) && older.name == newer.name
    requires LivesIn(older, live)
    requires forall t :: t in order ==> t in newer.strategies
    requires forall i, j :: 0 <= i < j < |order| ==> order[i] != order[j]
    ensures DataOf(Update(st, older, newer, order), m)
         == if UsedThroughout(live, older, newer, order, m) then DataOf(st, m) else None
  {
    if order != [] {
      var n := |order| - 1;
      var t := order[n];
      UpdatedData(st, live, older, newer, order[..n], m);
      UpdateConsistent(st, live, older, newer, order[..n]);
      assert t in order && t !in order[..n];
      ReplacedData(Update(st, older, newer, order[..n]), live + Part(newer, order[..n]), older, newer, t, m);
      ThroughoutLast(live, older, newer, order, m);
    }
  }

  lemma ThroughoutLast(live: Live, older: Policy, newer: Policy, order: seq<string>, m: string)
    requires order != []
    ensures var n := |order| - 1;
      UsedThroughout(live, older, newer, order, m) <==>
      UsedThroughout(live, older, newer, order[..n], m) && UsedDuring(live, older, newer, order, n, m)
  {
    var n := |order| - 1;
    forall k | 0 <= k < n
      ensures UsedDuring(live, older, newer, order[..n], k, m) <==> UsedDuring(live, older, newer, order, k, m)
    {
      assert order[..n][..k] == order[..k];
    }
  }

  lemma ReplacedData(st: State, live: Live, older: Policy, newer: Policy, t: string, m: string)
    requires Consistent(st, live) && Proper(older) && Proper(newer) && older.name == newer.name && t in newer.strategies
    requires Slot(older.name, t) in live <==> t in older.strategies
    requires t in older.strategies ==> live[Slot(older.name, t)] == Named(older, t)
    ensures DataOf(AddOne(RemoveOne(st, Named(Policy(newer.name, older.strategies), t), t), Named(newer, t), t), m)
         == if (t in older.strategies && exists r :: r in older.strategies[t].rules && r.metricname == m)
               && !HasHolder(live - {Slot(newer.name, t)}, m) then None else DataOf(st, m)
  {
    var slot, was := Slot(newer.name, t), Named(Policy(newer.name, older.strategies), t);
    AddedData(RemoveOne(st, was, t), Named(newer, t), t, m);
    if t in older.strategies {
      RemovedData(st, live, was, t, m);
      if !HasHolder(live - {slot}, m) && DataOf(st, m) != None {
        OnlyHolder(st, live, slot, m);
      }
    } else {
      RemoveNone(st, newer.name, t);
    }
  }

  /** A metric with data that only one strategy uses is named by one of its rules. */
  lemma OnlyHolder(st: State, live: Live, slot: Slot, m: string)
    requires CountsMatch(st.counts, Held(live)) && DataOnlyForCounted(st.counts, st.store)
    requires slot in live && DataOf(st, m) != None && !HasHolder(live - {slot}, m)
    ensures exists r :: r in live[slot].rules && r.metricname == m
  {
    assert CountMatches(st.counts, Held(live), m);
    var r :| r in Holders(Held(live), m);
    if r.slot != slot {
      HolderElsewhere(live, slot, r, m);
    } else {
      assert live[slot].rules[r.index] in live[slot].rules;
    }
  }

  lemma HolderElsewhere(live: Live, slot: Slot, r: Ref, m: string)
    requires r in Holders(Held(live), m) && r.slot != slot
    ensures HasHolder(live - {slot}, m)
  {
    assert r in Refs(live - {slot});
    assert r in Holders(Held(live - {slot}), m);
  }

  // ---- events ----

  /** What an event does to the data of every metric. Adding a policy loses none; deleting one loses exactly that of
      the metrics that no policy uses any more; a refresh brings that of the used metrics that are fetched; and an
      update loses that of the metrics that are unused at some moment of it, for the order in which it happened. */
  lemma EventData(st: State, policies: Policies, e: Event, next: State)
    requires InStep(st, policies) && EventEnabled(policies, e) && Next(st, e, next)
    ensures e.PolicyAdded? ==> forall m :: DataOf(next, m) == DataOf(st, m)
    ensures e.PolicyDeleted? ==>
      forall m :: DataOf(next, m) == if Used(policies - {e.policy.name}, m) then DataOf(st, m) else None
    ensures e.Refresh? ==>
      forall m :: DataOf(next, m) == if Used(policies, m) && m in e.fetched then Some(e.fetched[m]) else DataOf(st, m)
    ensures e.PolicyUpdated? ==> exists order :: Handled(e.newer, order) && LosesUnused(st, policies, e.older, e.newer, order, next)
  {
    forall m
      ensures e.PolicyAdded? ==> DataOf(next, m) == DataOf(st, m)
      ensures e.PolicyDeleted? ==>
        DataOf(next, m) == if Used(policies - {e.policy.name}, m) then DataOf(st, m) else None
      ensures e.Refresh? ==>
        DataOf(next, m) == if Used(policies, m) && m in e.fetched then Some(e.fetched[m]) else DataOf(st, m)
    {
      match e
      case PolicyAdded(p) => AddedPolicyData(st, p, next, m);
      case PolicyDeleted(p) => DeletedPolicyData(st, policies, p, next, m);
      case Refresh(fetched) => RefreshedData(st, policies, fetched, m);
      case PolicyUpdated(_, _) =>
    }
    if e.PolicyUpdated? {
      UpdatedPolicyData(st, policies, e.older, e.newer, next);
    }
  }

  ghost predicate LosesUnused(st: State, policies: Policies, older: Policy, newer: Policy, order: seq<string>, next: State) {
    forall m ::
      DataOf(next, m) == if UsedThroughout(LiveOf(policies), older, newer, order, m) then DataOf(st, m) else None
  }

  lemma AddedPolicyData(st: State, p: Policy, next: State, m: string)
    requires Next(st, PolicyAdded(p), next)
    ensures DataOf(next, m) == DataOf(st, m)
  {
    var order :| Handled(p, order) && next == Add(st, p, order);
    AddingKeepsData(st, p, order, m);
  }

  lemma DeletedPolicyData(st: State, policies: Policies, p: Policy, next: State, m: string)
    requires InStep(st, policies) && p.name in policies && policies[p.name] == p && Next(st, PolicyDeleted(p), next)
    ensures DataOf(next, m) == if Used(policies - {p.name}, m) then DataOf(st, m) else None
  {
    var order :| Handled(p, order) && next == Remove(st, p, order);
    DeletedData(st, policies, p, order, m);
  }

  lemma UpdatedPolicyData(st: State, policies: Policies, older: Policy, newer: Policy, next: State)
    requires InStep(st, policies) && EventEnabled(policies, PolicyUpdated(older, newer))
    requires Next(st, PolicyUpdated(older, newer), next)
    ensures exists order ::
      Handled(newer, order) && next == Update(st, older, newer, order)
      && LosesUnused(st, policies, older, newer, order, next)
  {
    var order :| Handled(newer, order) && next == Update(st, older, newer, order);
    AliveLives(policies, older);
    forall m
      ensures DataOf(next, m) == if UsedThroughout(LiveOf(policies), older, newer, order, m) then DataOf(st, m) else None
    {
      UpdatedData(st, LiveOf(policies), older, newer, order, m);
    }
    assert LosesUnused(st, policies, older, newer, order, next);
  }

  lemma DeletedData(st: State, policies: Policies, p: Policy, order: seq<string>, m: string)
    requires InStep(st, policies) && p.name in policies && policies[p.name] == p && Handled(p, order)
    ensures DataOf(Remove(st, p, order), m) == if Used(policies - {p.name}, m) then DataOf(st, m) else None
  {
    AliveLives(policies, p);
    RemovingData(st, LiveOf(policies), p, order, m);
    LiveWithout(policies, p, order);
    UsedIsHeld(policies - {p.name}, m);
    DeleteKeepsInStep(st, policies, p, order);
    CountedIsUsed(Remove(st, p, order), policies - {p.name}, m);
  }

  lemma RefreshedData(st: State, policies: Policies, fetched: map<string, Data>, m: string)
    requires InStep(st, policies)
    ensures DataOf(st.(counts := st.counts - {""}, store := Refreshed(st.store, st.counts, fetched)), m)
         == if Used(policies, m) && m in fetched then Some(fetched[m]) else DataOf(st, m)
  {
    CountedIsUsed(st, policies, m);
    if Used(policies, m) {
      var name, t, i :| UsedAt(policies, m, name, t, i);
      assert policies[name].strategies[t].rules[i] in policies[name].strategies[t].rules;
      assert m != "";
    }
  }

  // ---- updates ----

  /** An update loses no data of a metric that another policy uses. */
  lemma OtherUserKeepsData(policies: Policies, older: Policy, newer: Policy, order: seq<string>, m: string)
    requires Used(policies - {newer.name}, m)
    ensures UsedThroughout(LiveOf(policies), older, newer, order, m)
  {
    var name, t, i :| UsedAt(policies - {newer.name}, m, name, t, i);
    forall k | 0 <= k < |order| ensures UsedDuring(LiveOf(policies), older, newer, order, k, m) {
      var live := (LiveOf(policies) + Part(newer, order[..k])) - {Slot(newer.name, order[k])};
      assert Slot(name, t) in live;
      assert Ref(Slot(name, t), i) in Holders(Held(live), m);
    }
  }

  /** A policy of one strategy whose rules are replaced, be it by the same ones, loses the data of all metrics that no
      other policy uses, until the next refresh. */
  lemma OneStrategyLosesData(st: State, policies: Policies, older: Policy, newer: Policy, t: string, next: State, m: string)
    requires InStep(st, policies) && EventEnabled(policies, PolicyUpdated(older, newer))
    requires Next(st, PolicyUpdated(older, newer), next)
    requires older.strategies.Keys == newer.strategies.Keys == {t}
    ensures DataOf(next, m) == if Used(policies - {older.name}, m) then DataOf(st, m) else None
  {
    UpdatedPolicyData(st, policies, older, newer, next);
    var order :| Handled(newer, order) && LosesUnused(st, policies, older, newer, order, next);
    OnlyType(newer, order, t);
    DataOfUsed(st, policies, m);
    OneTypeData(st, policies, older, newer, t, next, m);
  }

  lemma OneTypeData(st: State, policies: Policies, older: Policy, newer: Policy, t: string, next: State, m: string)
    requires older.name in policies && policies[older.name] == older && newer.name == older.name
    requires older.strategies.Keys == {t} && LosesUnused(st, policies, older, newer, [t], next)
    requires !Used(policies, m) ==> DataOf(st, m) == None
    ensures DataOf(next, m) == if Used(policies - {older.name}, m) then DataOf(st, m) else None
  {
    if Used(policies, m) {
      OneStrategyThroughout(policies, older, newer, t, m);
    } else {
      FewerUsers(policies, older.name, m);
    }
  }

  lemma DataOfUsed(st: State, policies: Policies, m: string)
    requires InStep(st, policies)
    ensures !Used(policies, m) ==> DataOf(st, m) == None
  {
    CountedIsUsed(st, policies, m);
  }

  lemma FewerUsers(policies: Policies, name: string, m: string)
    ensures Used(policies - {name}, m) ==> Used(policies, m)
  {
    if n, t, i :| UsedAt(policies - {name}, m, n, t, i) {
      assert UsedAt(policies, m, n, t, i);
    }
  }

  lemma OnlyType(p: Policy, order: seq<string>, t: string)
    requires Handled(p, order) && Proper(p) && p.strategies.Keys == {t}
    ensures order == [t]
  {
    assert t in p.strategies && t in order;
    forall i | 0 <= i < |order| ensures order[i] == t {
      assert order[i] in order;
    }
    assert order[0] == order[|order| - 1];
  }

  lemma OneStrategyThroughout(policies: Policies, older: Policy, newer: Policy, t: string, m: string)
    requires older.name in policies && policies[older.name] == older && newer.name == older.name
    requires older.strategies.Keys == {t} && Used(policies, m)
    ensures UsedThroughout(LiveOf(policies), older, newer, [t], m) <==> Used(policies - {older.name}, m)
  {
    if Used(policies - {older.name}, m) {
      OtherUserKeepsData(policies, older, newer, [t], m);
    } else {
      var name, u, i :| UsedAt(policies, m, name, u, i);
      assert name != older.name ==> UsedAt(policies - {older.name}, m, name, u, i);
      assert older.strategies[t].rules[i] in older.strategies[t].rules;
      NoHolderLeft(policies, older, newer, t, m);
      assert !UsedDuring(LiveOf(policies), older, newer, [t], 0, m);
    }
  }

  lemma NoHolderLeft(policies: Policies, older: Policy, newer: Policy, t: string, m: string)
    requires older.name in policies && policies[older.name] == older && newer.name == older.name
    requires older.strategies.Keys == {t}
    ensures HasHolder((LiveOf(policies) + Part(newer, [t][..0])) - {Slot(newer.name, t)}, m) ==>
      Used(policies - {older.name}, m)
  {
    var rest := (LiveOf(policies) + Part(newer, [t][..0])) - {Slot(newer.name, t)};
    if r :| r in Holders(Held(rest), m) {
      assert r.slot.policy != older.name;
      assert UsedAt(policies - {older.name}, m, r.slot.policy, r.slot.kind, r.index);
    }
  }

  /** A policy that is updated by itself, and the data of its metric is gone. */
  lemma UpdateForgets(st: State)
    requires st.counts == map["heat" := 1]
    ensures var p := Policy("p", map["deschedule" := Strategy("", "", [Rule("heat", "GreaterThan", 1, [])])]);
      DataOf(Update(st, p, p, ["deschedule"]), "heat") == None
  {
    var rules := [Rule("heat", "GreaterThan", 1, [])];
    var p := Policy("p", map["deschedule" := Strategy("", "", rules)]);
    var s := Strategy("p", "", rules);
    assert ["deschedule"][..0] == [] && rules[..0] == [];
    assert Named(p, "deschedule") == s && Named(Policy(p.name, p.strategies), "deschedule") == s;
    var removed := RemoveOne(st, s, "deschedule");
    var start := st.(registry := Removed(st.registry, s, "deschedule"));
    assert DropRules(start, []) == start && DropRules(start, rules) == DropMetric(start, "heat");
    assert DataOf(removed, "heat") == None;
    AddedData(removed, s, "deschedule", "heat");
  }
}
