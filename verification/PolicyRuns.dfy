/** What any run of policy events keeps: a metric is counted once per live rule that names it, the registry holds
    exactly the live strategies that can be enforced, and only counted metrics have data. */
module PolicyRuns {
  import opened Text
  import opened Strategies
  import opened MetricCache
  import opened StrategyRegistry
  import opened PolicyController

  /** A live strategy is found by its policy's name and its type; a reference is one of its rules. */
  datatype Slot = Slot(policy: string, kind: string)

  datatype Ref = Ref(slot: Slot, index: nat)

  type Live = map<Slot, Strategy>

  ghost predicate ProperStrategy(s: Strategy) {
    s.rules != [] && forall r :: r in s.rules ==> r.metricname != ""
  }

  ghost predicate ProperLive(live: Live) {
    forall slot :: slot in live ==> live[slot].policyName == slot.policy && ProperStrategy(live[slot])
  }

  /** All references of the live strategies, with the metrics they name. */
  ghost function Held(live: Live): map<Ref, string> {
    map r | r in Refs(live) :: live[r.slot].rules[r.index].metricname
  }

  ghost function Refs(live: Live): (refs: set<Ref>)
    ensures forall r :: r in refs <==> r.slot in live && r.index < |live[r.slot].rules|
  {
    var refs := set slot, i | slot in live && 0 <= i < |live[slot].rules| :: Ref(slot, i);
    assert forall r: Ref :: r == Ref(r.slot, r.index);
    refs
  }

  ghost predicate RegistryMatches(registry: Registry, live: Live, t: string) {
    && t in registry && Distinct(registry[t])
    && forall s :: s in registry[t] <==> Enforceable(t) && Slot(s.policyName, t) in live && live[Slot(s.policyName, t)] == s
  }

  ghost predicate Consistent(st: State, live: Live) {
    && CountsMatch(st.counts, Held(live))
    && DataOnlyForCounted(st.counts, st.store)
    && forall t :: ValidType(t) ==> RegistryMatches(st.registry, live, t)
  }

  // ---- the counts ----

  ghost function SlotRefs(slot: Slot, rules: seq<Rule>): map<Ref, string> {
    map i | 0 <= i < |rules| :: Ref(slot, i) := rules[i].metricname
  }

  lemma SlotKeys(slot: Slot, rules: seq<Rule>)
    ensures forall r :: r in SlotRefs(slot, rules) <==> r.slot == slot && r.index < |rules|
  {
    assert forall r: Ref :: r == Ref(r.slot, r.index);
  }

  lemma SlotRefValues(slot: Slot, rules: seq<Rule>)
    ensures forall r :: r in SlotRefs(slot, rules) ==>
      r.slot == slot && r.index < |rules| && SlotRefs(slot, rules)[r] == rules[r.index].metricname
  {
  }

  lemma RefsWith(live: Live, slot: Slot, s: Strategy)
    requires slot !in live
    ensures Refs(live[slot := s]) == Refs(live) + SlotRefs(slot, s.rules).Keys
  {
    SlotKeys(slot, s.rules);
  }

  lemma HeldWith(live: Live, slot: Slot, s: Strategy)
    requires slot !in live
    ensures Held(live[slot := s]) == Held(live) + SlotRefs(slot, s.rules)
  {
    RefsWith(live, slot, s);
    SlotRefValues(slot, s.rules);
  }

  lemma HeldWithout(live: Live, slot: Slot)
    requires slot in live
    ensures Held(live - {slot}) == Held(live) - SlotRefs(slot, live[slot].rules).Keys
  {
    SlotKeys(slot, live[slot].rules);
    assert Refs(live - {slot}) == Refs(live) - SlotRefs(slot, live[slot].rules).Keys;
  }

  lemma SlotRefsLast(slot: Slot, rules: seq<Rule>, held: map<Ref, string>)
    requires rules != []
    ensures var n := |rules| - 1;
      (held + SlotRefs(slot, rules[..n]))[Ref(slot, n) := rules[n].metricname] == held + SlotRefs(slot, rules)
  {
    var n := |rules| - 1;
    var less, more := SlotRefs(slot, rules[..n]), SlotRefs(slot, rules);
    assert forall r :: r in more <==> r in less || r == Ref(slot, n);
  }

  lemma {:induction false} WriteRulesCounts(st: State, rules: seq<Rule>, held: map<Ref, string>, slot: Slot)
    requires CountsMatch(st.counts, held) && DataOnlyForCounted(st.counts, st.store)
    requires forall r :: r in held ==> r.slot != slot
    requires forall r :: r in rules ==> r.metricname != ""
    ensures CountsMatch(WriteRules(st, rules).counts, held + SlotRefs(slot, rules))
    ensures DataOnlyForCounted(WriteRules(st, rules).counts, WriteRules(st, rules).store)
    ensures WriteRules(st, rules).registry == st.registry
  {
    if rules == [] {
      assert held + SlotRefs(slot, rules) == held;
    } else {
      var n := |rules| - 1;
      WriteRulesCounts(st, rules[..n], held, slot);
      var before := held + SlotRefs(slot, rules[..n]);
      assert rules[n] in rules;
      Take(WriteRules(st, rules[..n]).counts, before, Ref(slot, n), rules[n].metricname);
      SlotRefsLast(slot, rules, held);
    }
  }

  lemma {:induction false} DropRulesCounts(st: State, rules: seq<Rule>, held: map<Ref, string>, slot: Slot)
    requires CountsMatch(st.counts, held) && DataOnlyForCounted(st.counts, st.store)
    requires forall i :: 0 <= i < |rules| ==> Ref(slot, i) in held && held[Ref(slot, i)] == rules[i].metricname
    ensures CountsMatch(DropRules(st, rules).counts, held - SlotRefs(slot, rules).Keys)
    ensures DataOnlyForCounted(DropRules(st, rules).counts, DropRules(st, rules).store)
    ensures DropRules(st, rules).registry == st.registry
  {
    if rules == [] {
      assert held - SlotRefs(slot, rules).Keys == held;
    } else {
      var n := |rules| - 1;
      DropRulesCounts(st, rules[..n], held, slot);
      var before := held - SlotRefs(slot, rules[..n]).Keys;
      Release(DropRules(st, rules[..n]).counts, before, Ref(slot, n));
      assert before - {Ref(slot, n)} == held - SlotRefs(slot, rules).Keys;
    }
  }

  // ---- the registry ----

  lemma AddedMatches(registry: Registry, live: Live, s: Strategy, t: string, u: string)
    requires RegistryMatches(registry, live, t) && RegistryMatches(registry, live, u)
    requires Slot(s.policyName, t) !in live
    ensures RegistryMatches(Added(registry, s, t), live[Slot(s.policyName, t) := s], u)
  {
  }

  lemma RemovedMatches(registry: Registry, live: Live, s: Strategy, t: string, u: string)
    requires RegistryMatches(registry, live, t) && RegistryMatches(registry, live, u)
    requires Slot(s.policyName, t) in live && live[Slot(s.policyName, t)] == s && s.rules != []
    ensures RegistryMatches(Removed(registry, s, t), live - {Slot(s.policyName, t)}, u)
  {
    OthersDistinct(registry[t], s, t);
    assert Equals(s, s, t);
    assert forall x :: x in registry[t] && Equals(x, s, t) ==> x == s;
  }

  /** The label comparison never runs off the end of the other rule's labels: only the strategy itself has its
      policy's name. */
  lemma ComparisonsInBounds(registry: Registry, live: Live, s: Strategy, t: string)
    requires RegistryMatches(registry, live, t)
    requires Slot(s.policyName, t) in live ==> live[Slot(s.policyName, t)] == s
    ensures forall x :: x in registry[t] ==> InBounds(x, s)
  {
  }

  /** No two registered strategies of one type belong to the same policy. */
  lemma RegisteredNamesDistinct(registry: Registry, live: Live, t: string)
    requires RegistryMatches(registry, live, t)
    ensures forall i, j :: 0 <= i < j < |registry[t]| ==> registry[t][i].policyName != registry[t][j].policyName
  {
    forall i, j | 0 <= i < j < |registry[t]| ensures registry[t][i].policyName != registry[t][j].policyName {
      assert registry[t][i] in registry[t] && registry[t][j] in registry[t];
    }
  }

  // ---- one strategy comes or goes ----

  lemma AddOneConsistent(st: State, live: Live, s: Strategy, t: string)
    requires Consistent(st, live) && ValidType(t)
    requires Slot(s.policyName, t) !in live && ProperStrategy(s)
    ensures Consistent(AddOne(st, s, t), live[Slot(s.policyName, t) := s])
  {
    var slot := Slot(s.policyName, t);
    HeldWith(live, slot, s);
    WriteRulesCounts(st.(registry := Added(st.registry, s, t)), s.rules, Held(live), slot);
    forall u | ValidType(u) ensures RegistryMatches(Added(st.registry, s, t), live[slot := s], u) {
      AddedMatches(st.registry, live, s, t, u);
    }
  }

  lemma RemoveOneConsistent(st: State, live: Live, s: Strategy, t: string)
    requires Consistent(st, live) && ValidType(t)
    requires Slot(s.policyName, t) in live && live[Slot(s.policyName, t)] == s && ProperStrategy(s)
    ensures Consistent(RemoveOne(st, s, t), live - {Slot(s.policyName, t)})
  {
    var slot := Slot(s.policyName, t);
    HeldWithout(live, slot);
    DropRulesCounts(st.(registry := Removed(st.registry, s, t)), s.rules, Held(live), slot);
    forall u | ValidType(u) ensures RegistryMatches(Removed(st.registry, s, t), live - {slot}, u) {
      RemovedMatches(st.registry, live, s, t, u);
    }
  }

  /** Removing the strategy of a type the old policy does not have does nothing. */
  lemma RemoveNone(st: State, name: string, t: string)
    ensures RemoveOne(st, NO_STRATEGY.(policyName := name), t) == st
  {
    var none := NO_STRATEGY.(policyName := name);
    if t in st.registry {
      OthersNone(st.registry[t], none, t);
      assert st.registry[t := st.registry[t]] == st.registry;
    }
  }

  // ---- one policy ----

  ghost predicate Proper(p: Policy) {
    p.name != "" && forall t :: t in p.strategies ==> ValidType(t) && ProperStrategy(p.strategies[t])
  }

  type Policies = map<string, Policy>

  ghost predicate ProperPolicies(policies: Policies) {
    forall name :: name in policies ==> policies[name].name == name && Proper(policies[name])
  }

  /** The live strategies of the policies alive, each under its policy's name. */
  ghost function LiveOf(policies: Policies): Live {
    map slot | slot in SlotsOf(policies) :: Named(policies[slot.policy], slot.kind)
  }

  ghost function SlotsOf(policies: Policies): (slots: set<Slot>)
    ensures forall s :: s in slots <==> s.policy in policies && s.kind in policies[s.policy].strategies
  {
    var slots := set name, t | name in policies && t in policies[name].strategies :: Slot(name, t);
    assert forall s: Slot :: s == Slot(s.policy, s.kind);
    slots
  }

  /** The strategies of one policy for some of its types. */
  ghost function Part(p: Policy, kinds: seq<string>): Live {
    map slot | slot in KindSlots(p.name, kinds) :: Named(p, slot.kind)
  }

  ghost function KindSlots(name: string, kinds: seq<string>): (slots: set<Slot>)
    ensures forall s :: s in slots <==> s.policy == name && s.kind in kinds
  {
    var slots := set t | t in kinds :: Slot(name, t);
    assert forall s: Slot :: s == Slot(s.policy, s.kind);
    slots
  }

  lemma PartLast(live: Live, p: Policy, kinds: seq<string>)
    requires kinds != []
    ensures var n := |kinds| - 1;
      (live + Part(p, kinds[..n]))[Slot(p.name, kinds[n]) := Named(p, kinds[n])] == live + Part(p, kinds)
  {
    var n := |kinds| - 1;
    assert kinds == kinds[..n] + [kinds[n]];
    assert KindSlots(p.name, kinds) == KindSlots(p.name, kinds[..n]) + {Slot(p.name, kinds[n])};
  }

  lemma {:induction false} AddConsistent(st: State, live: Live, p: Policy, order: seq<string>)
    requires Consistent(st, live) && Proper(p)
    requires forall t :: t in order ==> t in p.strategies && Slot(p.name, t) !in live
    requires forall i, j :: 0 <= i < j < |order| ==> order[i] != order[j]
    ensures Consistent(Add(st, p, order), live + Part(p, order))
  {
    if order == [] {
      assert live + Part(p, order) == live;
    } else {
      var n := |order| - 1;
      AddConsistent(st, live, p, order[..n]);
      assert order[n] in order;
      AddOneConsistent(Add(st, p, order[..n]), live + Part(p, order[..n]), Named(p, order[n]), order[n]);
      PartLast(live, p, order);
    }
  }

  lemma RestLast(live: Live, name: string, kinds: seq<string>)
    requires kinds != []
    ensures var n := |kinds| - 1;
      live - KindSlots(name, kinds[..n]) - {Slot(name, kinds[n])} == live - KindSlots(name, kinds)
  {
    var n := |kinds| - 1;
    assert kinds == kinds[..n] + [kinds[n]];
    assert KindSlots(name, kinds) == KindSlots(name, kinds[..n]) + {Slot(name, kinds[n])};
  }

  lemma {:induction false} RemoveConsistent(st: State, live: Live, p: Policy, order: seq<string>)
    requires Consistent(st, live) && Proper(p)
    requires forall t :: t in order ==>
      t in p.strategies && Slot(p.name, t) in live && live[Slot(p.name, t)] == Named(p, t)
    requires forall i, j :: 0 <= i < j < |order| ==> order[i] != order[j]
    ensures Consistent(Remove(st, p, order), live - KindSlots(p.name, order))
  {
    if order == [] {
      assert live - KindSlots(p.name, order) == live;
    } else {
      var n := |order| - 1;
      RemoveConsistent(st, live, p, order[..n]);
      assert order[n] in order && order[n] !in order[..n];
      RemoveOneConsistent(Remove(st, p, order[..n]), live - KindSlots(p.name, order[..n]), Named(p, order[n]), order[n]);
      RestLast(live, p.name, order);
    }
  }

  /** A policy alive has exactly its own strategies live. */
  ghost predicate LivesIn(p: Policy, live: Live) {
    && (forall t :: t in p.strategies ==> Slot(p.name, t) in live && live[Slot(p.name, t)] == Named(p, t))
    && forall t :: Slot(p.name, t) in live ==> t in p.strategies
  }

  /** An update replaces the strategies of every type the new policy has; those of types it lacks stay behind. */
  lemma {:induction false} UpdateConsistent(st: State, live: Live, older: Policy, newer: Policy, order: seq<string>)
    requires Consistent(st, live) && Proper(older) && Proper(newer) && older.name == newer.name
    requires LivesIn(older, live)
    requires forall t :: t in order ==> t in newer.strategies
    requires forall i, j :: 0 <= i < j < |order| ==> order[i] != order[j]
    ensures Consistent(Update(st, older, newer, order), live + Part(newer, order))
  {
    if order == [] {
      assert live + Part(newer, order) == live;
    } else {
      var n := |order| - 1;
      var t := order[n];
      UpdateConsistent(st, live, older, newer, order[..n]);
      assert t in order && t !in order[..n];
      ReplaceOne(Update(st, older, newer, order[..n]), live + Part(newer, order[..n]), older, newer, t);
      PartLast(live, newer, order);
    }
  }

  lemma ReplaceOne(st: State, live: Live, older: Policy, newer: Policy, t: string)
    requires Consistent(st, live) && Proper(older) && Proper(newer) && older.name == newer.name && t in newer.strategies
    requires Slot(older.name, t) in live <==> t in older.strategies
    requires t in older.strategies ==> live[Slot(older.name, t)] == Named(older, t)
    ensures Consistent(AddOne(RemoveOne(st, Named(Policy(newer.name, older.strategies), t), t), Named(newer, t), t),
                       live[Slot(newer.name, t) := Named(newer, t)])
  {
    var slot := Slot(newer.name, t);
    var old_ := Named(Policy(newer.name, older.strategies), t);
    if t in older.strategies {
      RemoveOneConsistent(st, live, old_, t);
      assert (live - {slot})[slot := Named(newer, t)] == live[slot := Named(newer, t)];
      AddOneConsistent(RemoveOne(st, old_, t), live - {slot}, Named(newer, t), t);
    } else {
      RemoveNone(st, newer.name, t);
      AddOneConsistent(st, live, Named(newer, t), t);
    }
  }

  // ---- runs ----

  datatype Event =
    | PolicyAdded(policy: Policy)
    | PolicyUpdated(older: Policy, newer: Policy)
    | PolicyDeleted(policy: Policy)
    | Refresh(fetched: map<string, Data>)

  /** Policies are proper, names are distinct, an update keeps every type of the old policy, and the informer
      delivers the policies as they were. */
  ghost predicate EventEnabled(policies: Policies, e: Event) {
    match e
    case PolicyAdded(p) => Proper(p) && p.name !in policies
    case PolicyUpdated(older, newer) =>
      && older.name in policies && policies[older.name] == older
      && newer.name == older.name && Proper(newer) && older.strategies.Keys <= newer.strategies.Keys
    case PolicyDeleted(p) => p.name in policies && policies[p.name] == p
    case Refresh(fetched) => forall m :: m in fetched ==> fetched[m] != map[]
  }

  ghost function PoliciesAfter(policies: Policies, e: Event): Policies {
    match e
    case PolicyAdded(p) => policies[p.name := p]
    case PolicyUpdated(older, newer) => policies[newer.name := newer]
    case PolicyDeleted(p) => policies - {p.name}
    case Refresh(_) => policies
  }

  /** What the handlers and the periodic update make of the state, for some order of the policy's types. */
  ghost predicate Next(st: State, e: Event, next: State) {
    match e
    case PolicyAdded(p) => exists order :: Handled(p, order) && next == Add(st, p, order)
    case PolicyUpdated(older, newer) => exists order :: Handled(newer, order) && next == Update(st, older, newer, order)
    case PolicyDeleted(p) => exists order :: Handled(p, order) && next == Remove(st, p, order)
    case Refresh(fetched) =>
      next == st.(counts := st.counts - {""}, store := Refreshed(st.store, st.counts, fetched))
  }

  lemma SlotsWith(policies: Policies, p: Policy, order: seq<string>)
    requires forall t :: t in order <==> t in p.strategies
    requires p.name in policies ==> policies[p.name].strategies.Keys <= p.strategies.Keys
    ensures SlotsOf(policies[p.name := p]) == SlotsOf(policies) + KindSlots(p.name, order)
  {
  }

  lemma LiveWith(policies: Policies, p: Policy, order: seq<string>)
    requires Handled(p, order) && Proper(p)
    requires p.name in policies ==> policies[p.name].strategies.Keys <= p.strategies.Keys
    ensures LiveOf(policies) + Part(p, order) == LiveOf(policies[p.name := p])
  {
    SlotsWith(policies, p, order);
  }

  lemma LiveWithout(policies: Policies, p: Policy, order: seq<string>)
    requires Handled(p, order) && Proper(p) && p.name in policies && policies[p.name] == p
    ensures LiveOf(policies) - KindSlots(p.name, order) == LiveOf(policies - {p.name})
  {
    assert forall t :: t in order <==> t in p.strategies;
    assert SlotsOf(policies - {p.name}) == SlotsOf(policies) - KindSlots(p.name, order);
  }

  lemma RefreshConsistent(st: State, live: Live, fetched: map<string, Data>)
    requires Consistent(st, live) && ProperLive(live)
    ensures Consistent(st.(counts := st.counts - {""}, store := Refreshed(st.store, st.counts, fetched)), live)
  {
    assert CountMatches(st.counts, Held(live), "");
    assert Holders(Held(live), "") == {} by {
      forall r | r in Held(live) ensures Held(live)[r] != "" {
        assert live[r.slot].rules[r.index] in live[r.slot].rules;
      }
    }
    assert st.counts - {""} == st.counts;
  }

  /** The state is in step with the policies alive. */
  ghost predicate InStep(st: State, policies: Policies) {
    Consistent(st, LiveOf(policies)) && ProperPolicies(policies)
  }

  lemma AliveLives(policies: Policies, p: Policy)
    requires p.name in policies && policies[p.name] == p
    ensures LivesIn(p, LiveOf(policies))
  {
  }

  lemma ProperWith(policies: Policies, p: Policy)
    requires ProperPolicies(policies) && Proper(p)
    ensures ProperPolicies(policies[p.name := p])
  {
  }

  lemma AddKeepsInStep(st: State, policies: Policies, p: Policy, order: seq<string>)
    requires InStep(st, policies) && Proper(p) && p.name !in policies && Handled(p, order)
    ensures InStep(Add(st, p, order), policies[p.name := p])
  {
    AddConsistent(st, LiveOf(policies), p, order);
    LiveWith(policies, p, order);
    ProperWith(policies, p);
  }

  lemma UpdateKeepsInStep(st: State, policies: Policies, older: Policy, newer: Policy, order: seq<string>)
    requires InStep(st, policies) && older.name in policies && policies[older.name] == older
    requires newer.name == older.name && Proper(newer) && older.strategies.Keys <= newer.strategies.Keys
    requires Handled(newer, order)
    ensures InStep(Update(st, older, newer, order), policies[newer.name := newer])
  {
    AliveLives(policies, older);
    UpdateConsistent(st, LiveOf(policies), older, newer, order);
    LiveWith(policies, newer, order);
    ProperWith(policies, newer);
  }

  lemma DeleteKeepsInStep(st: State, policies: Policies, p: Policy, order: seq<string>)
    requires InStep(st, policies) && p.name in policies && policies[p.name] == p && Handled(p, order)
    ensures InStep(Remove(st, p, order), policies - {p.name})
  {
    AliveLives(policies, p);
    RemoveConsistent(st, LiveOf(policies), p, order);
    LiveWithout(policies, p, order);
  }

  /** Every event keeps the counts, the store and the registry in step with the policies alive. */
  lemma EventKeepsInStep(st: State, policies: Policies, e: Event, next: State)
    requires InStep(st, policies) && EventEnabled(policies, e) && Next(st, e, next)
    ensures InStep(next, PoliciesAfter(policies, e))
  {
    match e
    case PolicyAdded(p) =>
      var order :| Handled(p, order) && next == Add(st, p, order);
      AddKeepsInStep(st, policies, p, order);
    case PolicyUpdated(older, newer) =>
      var order :| Handled(newer, order) && next == Update(st, older, newer, order);
      UpdateKeepsInStep(st, policies, older, newer, order);
    case PolicyDeleted(p) =>
      var order :| Handled(p, order) && next == Remove(st, p, order);
      DeleteKeepsInStep(st, policies, p, order);
    case Refresh(fetched) =>
      RefreshConsistent(st, LiveOf(policies), fetched);
  }

  ghost function PoliciesBy(events: seq<Event>): Policies {
    if events == [] then map[] else PoliciesAfter(PoliciesBy(events[..|events| - 1]), events[|events| - 1])
  }

  ghost predicate Run(states: seq<State>, events: seq<Event>) {
    && |states| == |events| + 1
    && Initial(states[0])
    && forall i :: 0 <= i < |events| ==>
      EventEnabled(PoliciesBy(events[..i]), events[i]) && Next(states[i], events[i], states[i + 1])
  }

  /** Before the first event nothing is counted or stored, and all types are registered. */
  ghost predicate Initial(st: State) {
    st.counts == map[] && st.store == map[] && forall t :: ValidType(t) ==> t in st.registry && st.registry[t] == []
  }

  lemma InitialInStep(st: State)
    requires Initial(st)
    ensures InStep(st, map[])
  {
    assert LiveOf(map[]) == map[] && Held(map[]) == map[];
    forall m ensures CountMatches(st.counts, Held(map[]), m) {
      assert Holders(Held(map[]), m) == {};
    }
  }

  /** The start of the controller: the four strategy types are registered before any policy is handled. */
  method StartController() returns (cont: TelemetryPolicyController)
    ensures fresh(cont) && fresh(cont.cache) && fresh(cont.enforcer)
    ensures Initial(cont.Now()) && InStep(cont.Now(), map[])
  {
    var cache := new AutoUpdatingCache();
    var enforcer := new MetricEnforcer();
    cont := new TelemetryPolicyController(cache, enforcer);
    enforcer.RegisterStrategyType(DESCHEDULE);
    enforcer.RegisterStrategyType(SCHEDULE_ON_METRIC);
    enforcer.RegisterStrategyType(DONT_SCHEDULE);
    enforcer.RegisterStrategyType(LABELING);
    InitialInStep(cont.Now());
  }

  lemma OneMoreEvent(events: seq<Event>, i: nat)
    requires 0 < i <= |events|
    ensures PoliciesBy(events[..i]) == PoliciesAfter(PoliciesBy(events[..i - 1]), events[i - 1])
  {
    assert events[..i][..i - 1] == events[..i - 1];
  }

  /** In every state of every run: a metric's count is the number of live rules that name it, and it is dropped
      with the last of them; only counted metrics have data; and the registry holds exactly the live deschedule
      and labeling strategies, each once. */
  lemma {:induction false} RunKeepsInStep(states: seq<State>, events: seq<Event>, i: nat)
    requires Run(states, events) && i < |states|
    ensures InStep(states[i], PoliciesBy(events[..i]))
  {
    if i == 0 {
      InitialInStep(states[0]);
    } else {
      RunKeepsInStep(states, events, i - 1);
      OneMoreEvent(events, i);
      EventKeepsInStep(states[i - 1], PoliciesBy(events[..i - 1]), events[i - 1], states[i]);
    }
  }

  /** In every state of every run the lists of the two types that are enforced hold exactly the strategies of that type
      of the policies alive, each under its policy's name and once, and those of the other two types are empty. */
  lemma RegistryInRuns(states: seq<State>, events: seq<Event>, i: nat, t: string)
    requires Run(states, events) && i < |states|
    ensures var registry, policies := states[i].registry, PoliciesBy(events[..i]);
      && (t == "deschedule" || t == "labeling" ==>
            && t in registry && (forall j, k :: 0 <= j < k < |registry[t]| ==> registry[t][j] != registry[t][k])
            && forall s :: s in registry[t] <==>
                 && s.policyName in policies && t in policies[s.policyName].strategies
                 && s == policies[s.policyName].strategies[t].(policyName := s.policyName))
      && (t == "dontschedule" || t == "scheduleonmetric" ==> t in registry && registry[t] == [])
  {
    RunKeepsInStep(states, events, i);
    if ValidType(t) {
      RegistryMeans(states[i].registry, PoliciesBy(events[..i]), t);
    }
  }

  lemma RegistryMeans(registry: Registry, policies: Policies, t: string)
    requires ProperPolicies(policies) && RegistryMatches(registry, LiveOf(policies), t)
    ensures t == "deschedule" || t == "labeling" ==>
      forall s :: s in registry[t] <==>
        && s.policyName in policies && t in policies[s.policyName].strategies
        && s == policies[s.policyName].strategies[t].(policyName := s.policyName)
    ensures t == "dontschedule" || t == "scheduleonmetric" ==> registry[t] == []
  {
    if registry[t] != [] {
      assert registry[t][0] in registry[t];
    }
    forall s: Strategy ensures Slot(s.policyName, t) in LiveOf(policies)
      <==> s.policyName in policies && t in policies[s.policyName].strategies
    {
    }
  }

  // ---- updates that drop a type ----

  /** An update leaves the state in step with the policies alive exactly when the new policy keeps every type of
      the old one: the strategies of a dropped type stay registered, and their rules stay counted. */
  lemma UpdateIsExactIff(st: State, policies: Policies, older: Policy, newer: Policy, order: seq<string>)
    requires Consistent(st, LiveOf(policies)) && ProperPolicies(policies)
    requires older.name in policies && policies[older.name] == older && newer.name == older.name && Proper(newer)
    requires Handled(newer, order)
    ensures Consistent(Update(st, older, newer, order), LiveOf(policies[newer.name := newer]))
       <==> older.strategies.Keys <= newer.strategies.Keys
  {
    AliveLives(policies, older);
    UpdateConsistent(st, LiveOf(policies), older, newer, order);
    if older.strategies.Keys <= newer.strategies.Keys {
      LiveWith(policies, newer, order);
    } else {
      var t :| t in older.strategies && t !in newer.strategies;
      var all, intended := LiveOf(policies) + Part(newer, order), LiveOf(policies[newer.name := newer]);
      DroppedSlotStays(policies, older, newer, order, t);
      NotBoth(Update(st, older, newer, order), all, intended, Slot(older.name, t));
    }
  }

  lemma DroppedSlotStays(policies: Policies, older: Policy, newer: Policy, order: seq<string>, t: string)
    requires older.name in policies && policies[older.name] == older && newer.name == older.name
    requires Proper(older) && Proper(newer) && Handled(newer, order)
    requires t in older.strategies && t !in newer.strategies
    ensures var all, slot := LiveOf(policies) + Part(newer, order), Slot(older.name, t);
      slot in all && slot !in LiveOf(policies[newer.name := newer]) && all[slot].rules != []
    ensures var all, intended := LiveOf(policies) + Part(newer, order), LiveOf(policies[newer.name := newer]);
      forall s :: s in intended ==> s in all && all[s] == intended[s]
  {
    assert forall k :: k in order <==> k in newer.strategies;
  }

  /** A state cannot count exactly the references of two sets of strategies one of which has more. */
  lemma NotBoth(st: State, all: Live, some: Live, slot: Slot)
    requires slot in all && slot !in some && all[slot].rules != []
    requires forall s :: s in some ==> s in all && all[s] == some[s]
    requires Consistent(st, all)
    ensures !Consistent(st, some)
  {
    MoreHolders(all, some, slot);
    var m := all[slot].rules[0].metricname;
    assert CountMatches(st.counts, Held(all), m);
    assert !CountMatches(st.counts, Held(some), m);
  }

  lemma MoreHolders(all: Live, some: Live, slot: Slot)
    requires slot in all && slot !in some && all[slot].rules != []
    requires forall s :: s in some ==> s in all && all[s] == some[s]
    ensures var m := all[slot].rules[0].metricname; |Holders(Held(all), m)| > |Holders(Held(some), m)|
  {
    var m := all[slot].rules[0].metricname;
    var more, less := Holders(Held(all), m), Holders(Held(some), m);
    assert Ref(slot, 0) in Refs(all) && Ref(slot, 0) !in Refs(some);
    forall r | r in less ensures r in more {
      assert r in Refs(some) && r in Refs(all);
    }
    Larger(more, less, Ref(slot, 0));
  }

  lemma Larger<T>(more: set<T>, less: set<T>, x: T)
    requires less <= more && x in more && x !in less
    ensures |more| > |less|
  {
    assert more == less + (more - less) && x in more - less;
  }
}
