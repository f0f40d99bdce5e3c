/** First-fit placement as a definition: the order in which cards are tried, and from it the one placement a pod
    without Xe links can get on a copy of the node's use. */
module FirstFit {
  import opened Text
  import opened ResourceArithmetic
  import opened Allocations
  import opened Annotations
  import opened Ordering
  import opened Placement
  import opened TilePlacement

  // ---- the order in which cards are tried ----

  ghost function LeastName(names: set<string>): string
    requires names != {}
  {
    LexIsTotal();
    FirstExists(names, LexLe);
    var x :| IsFirst(names, LexLe, x);
    x
  }

  lemma LexIsTotal()
    ensures TotalOrder(LexLe)
  {
    forall a, b ensures LexLe(a, b) || LexLe(b, a) {
      LexTotal(a, b);
    }
    forall a, b, c | LexLe(a, b) && LexLe(b, c) ensures LexLe(a, c) {
      LexTransitive(a, b, c);
    }
    forall a, b | LexLe(a, b) && LexLe(b, a) ensures a == b {
      LexAntisymmetric(a, b);
    }
  }

  /** Where a name stands after two of the sorted names have changed places. */
  function Swapped(x: string, a: string, b: string): string { if x == a then b else if x == b then a else x }

  /** Least used first when a resource is balanced; otherwise by name, the preferred card having changed places
      with the first one. */
  ghost predicate Preferred(node: NodeInfo, balanced: string, used: NodeResources, a: string, b: string) {
    if balanced != "" then Precedes(used, GPU_PREFIX + balanced, a, b)
    else if node.preferredCard != "" && node.preferredCard in used then
      var least := LeastName(used.Keys);
      LexLe(Swapped(a, node.preferredCard, least), Swapped(b, node.preferredCard, least))
    else LexLe(a, b)
  }

  ghost function Order(node: NodeInfo, balanced: string, used: NodeResources): (string, string) -> bool {
    (a, b) => Preferred(node, balanced, used, a, b)
  }

  lemma OrderIsTotal(node: NodeInfo, balanced: string, used: NodeResources)
    ensures TotalOrder(Order(node, balanced, used))
  {
    LexIsTotal();
  }

  /** All names, in the order in which they are tried. */
  ghost predicate Arranged(node: NodeInfo, balanced: string, used: NodeResources, names: seq<string>) {
    && Holds(names, used.Keys)
    && forall i, j :: 0 <= i < j < |names| ==> Preferred(node, balanced, used, names[i], names[j])
  }

  /** The first of the candidates. */
  ghost function FirstOf(node: NodeInfo, balanced: string, used: NodeResources, candidates: set<string>): (card: string)
    requires candidates != {}
    ensures card in candidates
  {
    OrderIsTotal(node, balanced, used);
    FirstExists(candidates, Order(node, balanced, used));
    var card :| IsFirst(candidates, Order(node, balanced, used), card);
    card
  }

  lemma FirstOfIs(node: NodeInfo, balanced: string, used: NodeResources, candidates: set<string>, card: string)
    requires card in candidates
    requires forall c :: c in candidates && c != card ==> Preferred(node, balanced, used, card, c)
    ensures FirstOf(node, balanced, used, candidates) == card
  {
    OrderIsTotal(node, balanced, used);
    assert IsFirst(candidates, Order(node, balanced, used), card);
    FirstIsUnique(candidates, Order(node, balanced, used), card, FirstOf(node, balanced, used, candidates));
  }

  /** When a resource is balanced, the first candidate has the least of it in use, and the least name among those. */
  lemma FirstIsLeastUsed(node: NodeInfo, balanced: string, used: NodeResources, candidates: set<string>)
    requires balanced != "" && candidates != {}
    ensures var card, key := FirstOf(node, balanced, used, candidates), GPU_PREFIX + balanced;
      forall c :: c in candidates ==>
        && AmountAt(used, card, key) <= AmountAt(used, c, key)
        && (AmountAt(used, card, key) == AmountAt(used, c, key) ==> LexLe(card, c))
  {
    var card := FirstOf(node, balanced, used, candidates);
    assert IsFirst(candidates, Order(node, balanced, used), card);
    LexTotal(card, card);
    forall c | c in candidates && c != card ensures Precedes(used, GPU_PREFIX + balanced, card, c) {
    }
  }

  /** Otherwise the preferred card comes first when it is a candidate. If it is not, but one of the node's, the least
      name of all stands in its place; in any case the others come by name. */
  lemma FirstIsPreferredOrLeast(node: NodeInfo, used: NodeResources, candidates: set<string>, least: string)
    requires candidates != {} && candidates <= used.Keys
    requires least in used && forall c :: c in used ==> LexLe(least, c)
    ensures var card, preferred := FirstOf(node, "", used, candidates), node.preferredCard;
      && (preferred != "" && preferred in candidates ==> card == preferred)
      && (preferred == "" || preferred !in used ==> forall c :: c in candidates ==> LexLe(card, c))
      && (preferred != "" && preferred in used ==> forall c :: c in candidates && c != card && card != preferred ==>
            && (c != least && card != least ==> LexLe(card, c))
            && (c == least ==> LexLe(card, preferred))
            && (card == least ==> LexLe(preferred, c)))
  {
    LexIsTotal();
    var card := FirstOf(node, "", used, candidates);
    assert IsFirst(candidates, Order(node, "", used), card);
    assert LeastName(used.Keys) == least;
    forall c | c in candidates && c != card ensures Preferred(node, "", used, card, c) {
    }
  }

  /** Sorting puts the least name first, so exchanging it with the preferred card gives the order above. */
  lemma SwapArranges(node: NodeInfo, used: NodeResources, names: seq<string>, i: nat)
    requires Holds(names, used.Keys) && LexSorted(names) && i < |names| && names[i] == node.preferredCard != ""
    ensures var moved := names[0 := names[i]][i := names[0]];
      Holds(moved, used.Keys) ==> Arranged(node, "", used, moved)
  {
    assert names[0] in names && names[0] in used.Keys;
    var least := LeastName(used.Keys);
    LexIsTotal();
    assert least in names;
    assert names[0] == least by {
      var j :| 0 <= j < |names| && names[j] == least;
      if j != 0 {
        assert LexLe(names[0], least);
      }
    }
    var moved := names[0 := names[i]][i := names[0]];
    assert forall j :: 0 <= j < |names| ==> Swapped(moved[j], node.preferredCard, least) == names[j];
  }

  // ---- the cards of one container ----

  /** The outcome of an attempt: the cards in order, the copy afterwards, and whether it succeeded. A failed
      attempt keeps what it has placed. */
  datatype Placed = Placed(cards: seq<string>, used: NodeResources, ok: bool)

  /** The copy after a share has been added to one card; an addition that is refused changes nothing. */
  function AfterAdd(used: NodeResources, share: Resources, card: string): NodeResources {
    var after := AdjustCard(used, share, card, true);
    if after.Some? then after.value else used
  }

  /** One card after the other: always the first one in order that is listed, usable, not yet taken and has room. */
  ghost function PlaceCards(node: NodeInfo, balanced: string, used: NodeResources, share: Resources, gpuMap: set<string>,
                            n: int, taken: set<string>): Placed
    decreases n
  {
    var candidates := Eligible(node, PerGpuCapacity(node), used, share, gpuMap) - taken;
    if n <= 0 then Placed([], used, true)
    else if candidates == {} then Placed([], used, false)
    else
      var card := FirstOf(node, balanced, used, candidates);
      AfterCards([card], PlaceCards(node, balanced, AfterAdd(used, share, card), share, gpuMap, n - 1, taken + {card}))
  }

  /** How many cards are listed, usable, not yet taken and have room. */
  ghost function Candidates(node: NodeInfo, used: NodeResources, share: Resources, gpuMap: set<string>,
                            taken: set<string>): (n: nat)
    ensures n == 0 <==> Eligible(node, PerGpuCapacity(node), used, share, gpuMap) - taken == {}
  {
    |Eligible(node, PerGpuCapacity(node), used, share, gpuMap) - taken|
  }

  /** The same outcome with names in front of its cards. */
  ghost function AfterCards(names: seq<string>, p: Placed): Placed { p.(cards := names + p.cards) }

  /** What a search returned and left behind is the outcome p. */
  ghost predicate Realizes(cards: Option<seq<Card>>, used: NodeResources, p: Placed) {
    used == p.used && cards.Some? == p.ok && (cards.Some? ==> Names(cards.value) == p.cards)
  }

  lemma AfterCardsTwice(a: seq<string>, b: seq<string>, p: Placed)
    ensures AfterCards(a, AfterCards(b, p)) == AfterCards(a + b, p)
  {
    assert a + (b + p.cards) == a + b + p.cards;
  }

  /** Whatever the order, an attempt succeeds exactly when there are enough eligible cards at its start. */
  lemma {:induction false} PlaceCardsSucceeds(node: NodeInfo, balanced: string, used: NodeResources, share: Resources,
                                              gpuMap: set<string>, n: int, taken: set<string>)
    ensures PlaceCards(node, balanced, used, share, gpuMap, n, taken).ok <==> n <= Candidates(node, used, share, gpuMap, taken)
    decreases n
  {
    var candidates := Eligible(node, PerGpuCapacity(node), used, share, gpuMap) - taken;
    if n > 0 && candidates != {} {
      var card := FirstOf(node, balanced, used, candidates);
      PlaceCardsSucceeds(node, balanced, AfterAdd(used, share, card), share, gpuMap, n - 1, taken + {card});
      OneLessEligible(node, used, share, gpuMap, taken, card);
      PlaceCardsStep(node, balanced, used, share, gpuMap, n, taken);
    } else {
      PlaceCardsEnds(node, balanced, used, share, gpuMap, n, taken);
    }
  }

  lemma PlaceCardsEnds(node: NodeInfo, balanced: string, used: NodeResources, share: Resources, gpuMap: set<string>,
                       n: int, taken: set<string>)
    requires n <= 0 || Eligible(node, PerGpuCapacity(node), used, share, gpuMap) - taken == {}
    ensures PlaceCards(node, balanced, used, share, gpuMap, n, taken) == Placed([], used, n <= 0)
  {
  }

  lemma PlaceCardsStep(node: NodeInfo, balanced: string, used: NodeResources, share: Resources, gpuMap: set<string>,
                       n: int, taken: set<string>)
    requires n > 0
    ensures var candidates := Eligible(node, PerGpuCapacity(node), used, share, gpuMap) - taken;
      candidates != {} ==>
        var card := FirstOf(node, balanced, used, candidates);
        PlaceCards(node, balanced, used, share, gpuMap, n, taken)
        == AfterCards([card], PlaceCards(node, balanced, AfterAdd(used, share, card), share, gpuMap, n - 1, taken + {card}))
  {
  }

  lemma OneLessEligible(node: NodeInfo, used: NodeResources, share: Resources, gpuMap: set<string>, taken: set<string>,
                        card: string)
    requires card in Eligible(node, PerGpuCapacity(node), used, share, gpuMap) - taken
    ensures Candidates(node, AfterAdd(used, share, card), share, gpuMap, taken + {card})
         == Candidates(node, used, share, gpuMap, taken) - 1
  {
    FittingCardAdd(used, share, card, PerGpuCapacity(node));
    var before, after := Eligible(node, PerGpuCapacity(node), used, share, gpuMap) - taken,
                         Eligible(node, PerGpuCapacity(node), AfterAdd(used, share, card), share, gpuMap) - (taken + {card});
    assert after == before - {card};
  }

  lemma PlaceOneCard(node: NodeInfo, balanced: string, used: NodeResources, share: Resources, gpuMap: set<string>)
    ensures var eligible := Eligible(node, PerGpuCapacity(node), used, share, gpuMap);
      PlaceCards(node, balanced, used, share, gpuMap, 1, {})
      == if eligible == {} then Placed([], used, false)
         else Placed([FirstOf(node, balanced, used, eligible)],
                     AfterAdd(used, share, FirstOf(node, balanced, used, eligible)), true)
  {
    var eligible := Eligible(node, PerGpuCapacity(node), used, share, gpuMap);
    assert eligible - {} == eligible;
    if eligible != {} {
      PlaceCardsStep(node, balanced, used, share, gpuMap, 1, {});
      var card := FirstOf(node, balanced, used, eligible);
      PlaceCardsEnds(node, balanced, AfterAdd(used, share, card), share, gpuMap, 0, {} + {card});
      assert [card] + [] == [card];
    }
  }

  /** Cards picked one after the other: distinct, eligible, and each preferred over the eligible ones left. */
  ghost predicate PickedWell(node: NodeInfo, balanced: string, capacity: Resources, before: NodeResources,
                             share: Resources, gpuMap: set<string>, names: seq<string>) {
    && NoDuplicates(names)
    && (forall i :: 0 <= i < |names| ==> names[i] in Eligible(node, capacity, before, share, gpuMap))
    && (forall i, c :: 0 <= i < |names| && c in Eligible(node, capacity, before, share, gpuMap) && c !in names[..i] && c != names[i]
                       ==> Preferred(node, balanced, before, names[i], c))
  }

  /** No pick has more of the resource in use than an eligible card that was left at that moment. */
  ghost predicate LeastUsedFirst(key: string, before: NodeResources, eligible: set<string>, names: seq<string>) {
    forall i, c :: 0 <= i < |names| && c in eligible && c !in names[..i] ==>
      && AmountAt(before, names[i], key) <= AmountAt(before, c, key)
      && (AmountAt(before, names[i], key) == AmountAt(before, c, key) ==> LexLe(names[i], c))
  }

  lemma PickedLeastUsed(node: NodeInfo, balanced: string, before: NodeResources, share: Resources, gpuMap: set<string>,
                        names: seq<string>)
    requires balanced != "" && PickedWell(node, balanced, PerGpuCapacity(node), before, share, gpuMap, names)
    ensures LeastUsedFirst(GPU_PREFIX + balanced, before, Eligible(node, PerGpuCapacity(node), before, share, gpuMap), names)
  {
    forall i, c | 0 <= i < |names| && c in Eligible(node, PerGpuCapacity(node), before, share, gpuMap) && c !in names[..i]
      ensures c != names[i] ==> Precedes(before, GPU_PREFIX + balanced, names[i], c)
      ensures LexLe(names[i], names[i])
    {
      LexTotal(names[i], names[i]);
      assert c != names[i] ==> Preferred(node, balanced, before, names[i], c);
    }
  }

  /** The cards picked so far are the first ones of the first-fit placement. */
  ghost predicate OnTheWay(node: NodeInfo, balanced: string, start: NodeResources, now: NodeResources, share: Resources,
                           gpuMap: set<string>, n: int, picked: seq<Card>, taken: set<string>) {
    && Placing(node, balanced, start, now, share, gpuMap, Names(picked), taken)
    && (forall i :: 0 <= i < |picked| ==> picked[i].xeLinkedTileIds == [])
    && PlaceCards(node, balanced, start, share, gpuMap, n, {})
       == AfterCards(Names(picked), PlaceCards(node, balanced, now, share, gpuMap, n - |picked|, taken))
  }

  lemma AllPlaced(node: NodeInfo, balanced: string, start: NodeResources, now: NodeResources, share: Resources,
                  gpuMap: set<string>, n: int, picked: seq<Card>, taken: set<string>)
    requires OnTheWay(node, balanced, start, now, share, gpuMap, n, picked, taken) && |picked| >= n
    ensures PlaceCards(node, balanced, start, share, gpuMap, n, {}) == Placed(Names(picked), now, true)
    ensures |picked| <= |Eligible(node, PerGpuCapacity(node), start, share, gpuMap)|
  {
    PlacingCount(node, balanced, start, now, share, gpuMap, Names(picked), taken);
    PlaceCardsEnds(node, balanced, now, share, gpuMap, n - |picked|, taken);
    assert Names(picked) + [] == Names(picked);
  }

  lemma OneCardFurther(node: NodeInfo, balanced: string, start: NodeResources, before: NodeResources, after: NodeResources,
                       share: Resources, gpuMap: set<string>, n: int, picked: seq<Card>, taken: set<string>, card: string)
    requires OnTheWay(node, balanced, start, before, share, gpuMap, n, picked, taken) && |picked| < n
    requires card in Eligible(node, PerGpuCapacity(node), before, share, gpuMap) - taken
    requires card == FirstOf(node, balanced, before, Eligible(node, PerGpuCapacity(node), before, share, gpuMap) - taken)
    requires AdjustCard(before, share, card, true) == Some(after)
    requires Placing(node, balanced, start, after, share, gpuMap, Names(picked) + [card], taken + {card})
    ensures OnTheWay(node, balanced, start, after, share, gpuMap, n, picked + [Card(card, [])], taken + {card})
  {
    NamesAppend(picked, Card(card, []));
    NextCardIs(node, balanced, before, after, share, gpuMap, n - |picked|, Names(picked), taken, card);
  }

  lemma NextCardIs(node: NodeInfo, balanced: string, before: NodeResources, after: NodeResources, share: Resources,
                   gpuMap: set<string>, n: int, names: seq<string>, taken: set<string>, card: string)
    requires n > 0 && card in Eligible(node, PerGpuCapacity(node), before, share, gpuMap) - taken
    requires card == FirstOf(node, balanced, before, Eligible(node, PerGpuCapacity(node), before, share, gpuMap) - taken)
    requires AdjustCard(before, share, card, true) == Some(after)
    ensures AfterCards(names, PlaceCards(node, balanced, before, share, gpuMap, n, taken))
         == AfterCards(names + [card], PlaceCards(node, balanced, after, share, gpuMap, n - 1, taken + {card}))
  {
    PlaceCardsStep(node, balanced, before, share, gpuMap, n, taken);
    AfterCardsTwice(names, [card], PlaceCards(node, balanced, after, share, gpuMap, n - 1, taken + {card}));
  }

  /** What holds while a container's cards are being picked. */
  ghost predicate Placing(node: NodeInfo, balanced: string, start: NodeResources, now: NodeResources, share: Resources,
                          gpuMap: set<string>, names: seq<string>, taken: set<string>) {
    && Holds(names, taken) && taken <= Eligible(node, PerGpuCapacity(node), start, share, gpuMap)
    && PickedWell(node, balanced, PerGpuCapacity(node), start, share, gpuMap, names)
    && AdjustCards(start, share, names, true) == Some(now)
    && now.Keys == start.Keys
    && (forall c :: c in start && c !in taken ==> now[c] == start[c])
    && Bounded(start, now, PerGpuCapacity(node)) && NoLess(start, now)
  }

  lemma PlacingOneMore(node: NodeInfo, balanced: string, start: NodeResources, before: NodeResources,
                       after: NodeResources, share: Resources, gpuMap: set<string>, names: seq<string>,
                       taken: set<string>, card: string)
    requires Placing(node, balanced, start, before, share, gpuMap, names, taken)
    requires card in Eligible(node, PerGpuCapacity(node), before, share, gpuMap) - taken
    requires AdjustCard(before, share, card, true) == Some(after)
    requires forall c :: c in Eligible(node, PerGpuCapacity(node), before, share, gpuMap) && c !in taken && c != card ==>
               Preferred(node, balanced, before, card, c)
    ensures Placing(node, balanced, start, after, share, gpuMap, names + [card], taken + {card})
  {
    PickOneMore(node, balanced, start, before, share, gpuMap, names, taken, card);
    FittingCardAdd(before, share, card, PerGpuCapacity(node));
    BoundedTwice(start, before, after, PerGpuCapacity(node));
    CardsAppend(start, share, names, card, true);
  }

  lemma PlacingCount(node: NodeInfo, balanced: string, start: NodeResources, now: NodeResources, share: Resources,
                     gpuMap: set<string>, names: seq<string>, taken: set<string>)
    requires Placing(node, balanced, start, now, share, gpuMap, names, taken)
    ensures |names| <= |Eligible(node, PerGpuCapacity(node), start, share, gpuMap)|
    ensures Eligible(node, PerGpuCapacity(node), now, share, gpuMap) <= taken ==>
              |names| == |Eligible(node, PerGpuCapacity(node), start, share, gpuMap)|
  {
    var eligible := Eligible(node, PerGpuCapacity(node), start, share, gpuMap);
    HoldsSize(names, taken);
    SubsetSize(taken, eligible);
    if Eligible(node, PerGpuCapacity(node), now, share, gpuMap) <= taken {
      forall c | c in eligible ensures c in taken {
        assert c !in taken ==> c in Eligible(node, PerGpuCapacity(node), now, share, gpuMap);
      }
      assert eligible == taken;
    }
  }

  /** A pick that is preferred now was preferred at the start: untouched cards have not changed. */
  lemma PickOneMore(node: NodeInfo, balanced: string, start: NodeResources, before: NodeResources, share: Resources,
                    gpuMap: set<string>, names: seq<string>, taken: set<string>, card: string)
    requires Holds(names, taken) && before.Keys == start.Keys
    requires forall c :: c in start && c !in taken ==> before[c] == start[c]
    requires PickedWell(node, balanced, PerGpuCapacity(node), start, share, gpuMap, names)
    requires card in Eligible(node, PerGpuCapacity(node), before, share, gpuMap) - taken
    requires forall c :: c in Eligible(node, PerGpuCapacity(node), before, share, gpuMap) && c !in taken && c != card ==>
               Preferred(node, balanced, before, card, c)
    ensures PickedWell(node, balanced, PerGpuCapacity(node), start, share, gpuMap, names + [card])
    ensures Holds(names + [card], taken + {card})
  {
    var all := names + [card];
    forall c | c in Eligible(node, PerGpuCapacity(node), start, share, gpuMap) && c !in names && c != card
      ensures Preferred(node, balanced, start, card, c)
    {
      assert c !in taken;
      assert c in Eligible(node, PerGpuCapacity(node), before, share, gpuMap);
      assert Preferred(node, balanced, before, card, c);
    }
    assert all[..|names|] == names;
    forall i, c | 0 <= i < |all| && c in Eligible(node, PerGpuCapacity(node), start, share, gpuMap) && c !in all[..i] && c != all[i]
      ensures Preferred(node, balanced, start, all[i], c)
    {
      if i < |names| {
        assert all[..i] == names[..i];
      }
    }
    assert forall c :: c in all <==> c in names || c == card;
  }

  /** The groups of cards in turn, each attempt on what the failed ones have left. */
  ghost function PlaceInGroups(node: NodeInfo, balanced: string, used: NodeResources, request: Resources,
                               gpuMaps: seq<set<string>>): Placed
    decreases |gpuMaps|
  {
    if gpuMaps == [] then Placed([], used, false)
    else
      var first := PlaceCards(node, balanced, used, PerGpuRequest(request), gpuMaps[0], NumGpu(request), {});
      if first.ok then first else PlaceInGroups(node, balanced, first.used, request, gpuMaps[1..])
  }

  lemma NextGroup(node: NodeInfo, balanced: string, used: NodeResources, request: Resources, gpuMaps: seq<set<string>>,
                  i: nat)
    requires i < |gpuMaps|
    ensures var first := PlaceCards(node, balanced, used, PerGpuRequest(request), gpuMaps[i], NumGpu(request), {});
      PlaceInGroups(node, balanced, used, request, gpuMaps[i..])
      == if first.ok then first else PlaceInGroups(node, balanced, first.used, request, gpuMaps[i + 1..])
  {
    assert gpuMaps[i..][0] == gpuMaps[i] && gpuMaps[i..][1..] == gpuMaps[i + 1..];
  }

  // ---- the containers that share one card ----

  ghost function KeysOf(requests: seq<Resources>, selected: set<int>): set<string> {
    set i, k | i in selected && 0 <= i < |requests| && k in requests[i] :: k
  }

  function Clamp(x: int): int64 { if x > MAX_INT64 then MAX_INT64 else if x < MIN_INT64 then MIN_INT64 else x }

  /** The pointwise sum of the selected requests, which is within 64 bits when they may share a card. */
  ghost function TotalRequest(requests: seq<Resources>, selected: set<int>): Resources {
    map k | k in KeysOf(requests, selected) :: Clamp(SelectedSum(requests, selected, k))
  }

  /** The sum with one plugin unit in place of the plugin resource. */
  ghost function CombinedRequest(requests: seq<Resources>, selected: set<int>): Resources {
    var total := TotalRequest(requests, selected);
    total[PluginName(total) := 1]
  }

  function PluginRoom(capacity: Resources, usedRes: Resources, plugin: string): int64 {
    WrapSub(if plugin in capacity then capacity[plugin] else 0, if plugin in usedRes then usedRes[plugin] else 0)
  }

  /** The cards with room for one plugin unit per listed container. */
  function WithPluginRoom(node: NodeInfo, used: NodeResources, gpuMap: set<string>, plugin: string,
                          needed: int): set<string> {
    set c | c in gpuMap && !(c in used && PluginRoom(PerGpuCapacity(node), used[c], plugin) < needed)
  }

  /** The cards that can take all the containers that share one. */
  ghost function Shareable(node: NodeInfo, used: NodeResources, requests: seq<Resources>, indices: set<int>,
                           gpuMap: set<string>): set<string> {
    var combined := CombinedRequest(requests, indices);
    Eligible(node, PerGpuCapacity(node), used, combined,
             WithPluginRoom(node, used, gpuMap, PluginName(combined), |indices|))
  }

  /** The requests are of the kind that may share a card, and can be added up. */
  ghost predicate MayShare(requests: seq<Resources>, indices: set<int>)
    requires forall i :: i in indices ==> 0 <= i < |requests|
  {
    (forall i :: i in indices ==> SameGpuRequest(requests[i])) && Combinable(requests, indices)
  }

  ghost function PlaceSameGpu(node: NodeInfo, balanced: string, used: NodeResources, requests: seq<Resources>,
                             indices: set<int>, gpuMap: set<string>): Placed
    requires forall i :: i in indices ==> 0 <= i < |requests|
  {
    if indices == {} then Placed([], used, true)
    else if !MayShare(requests, indices) || Shareable(node, used, requests, indices, gpuMap) == {} then
      Placed([], used, false)
    else
      var combined := CombinedRequest(requests, indices);
      var card := FirstOf(node, balanced, used, Shareable(node, used, requests, indices, gpuMap));
      Placed([card],
             AfterAdd(AfterAdd(used, combined, card), map[PluginName(combined) := Clamp(|indices| - 1)], card), true)
  }

  /** No card can be shared. */
  lemma NoneShared(node: NodeInfo, balanced: string, used: NodeResources, requests: seq<Resources>, indices: set<int>,
                   gpuMap: set<string>)
    requires indices != {} && forall i :: i in indices ==> 0 <= i < |requests|
    requires !MayShare(requests, indices) || Shareable(node, used, requests, indices, gpuMap) == {}
    ensures Realizes(None, used, PlaceSameGpu(node, balanced, used, requests, indices, gpuMap))
  {
  }

  lemma OneShared(node: NodeInfo, balanced: string, start: NodeResources, end: NodeResources, requests: seq<Resources>,
                  indices: set<int>, gpuMap: set<string>, combined: Resources, cards: seq<Card>)
    requires indices != {} && forall i :: i in indices ==> 0 <= i < |requests|
    requires MayShare(requests, indices) && Shareable(node, start, requests, indices, gpuMap) != {}
    requires combined == CombinedRequest(requests, indices) && |cards| == 1 && |indices| <= MAX_INT64
    requires cards[0].gpuName == FirstOf(node, balanced, start, Shareable(node, start, requests, indices, gpuMap))
    requires var card := cards[0].gpuName;
             end == AfterAdd(AfterAdd(start, combined, card), map[PluginName(combined) := |indices| - 1], card)
    ensures Realizes(Some(cards), end, PlaceSameGpu(node, balanced, start, requests, indices, gpuMap))
  {
    assert |indices| >= 1;
    assert Clamp(|indices| - 1) == |indices| - 1;
    assert Names(cards) == [cards[0].gpuName];
  }

  // ---- a whole pod ----

  datatype PodPlaced = PodPlaced(cards: seq<seq<string>>, used: NodeResources, ok: bool)

  /** The containers from the i-th on, those that share a card being placed already. */
  ghost function PlaceRest(node: NodeInfo, balanced: string, used: NodeResources, requests: seq<Resources>,
                           sameGpu: set<int>, shared: seq<string>, gpuMaps: seq<set<string>>, i: nat): PodPlaced
    requires i <= |requests|
    decreases |requests| - i
  {
    if i == |requests| then PodPlaced([], used, true)
    else
      var p := PlaceContainerAt(node, balanced, used, requests, sameGpu, shared, gpuMaps, i);
      if !p.ok then PodPlaced([], p.used, false)
      else
        AfterAll([p.cards], PlaceRest(node, balanced, p.used, requests, sameGpu, shared, gpuMaps, i + 1))
  }

  ghost function AfterAll(names: seq<seq<string>>, p: PodPlaced): PodPlaced { p.(cards := names + p.cards) }

  lemma AfterAllTwice(a: seq<seq<string>>, b: seq<seq<string>>, p: PodPlaced)
    ensures AfterAll(a, AfterAll(b, p)) == AfterAll(a + b, p)
  {
    assert a + (b + p.cards) == a + b + p.cards;
  }

  ghost function CardNames(plan: seq<seq<Card>>): (names: seq<seq<string>>)
    ensures |names| == |plan|
  {
    seq(|plan|, i requires 0 <= i < |plan| => Names(plan[i]))
  }

  /** What planning returned and left behind is the outcome p. */
  ghost predicate RealizesPod(plan: Option<seq<seq<Card>>>, used: NodeResources, p: PodPlaced) {
    used == p.used && plan.Some? == p.ok && (plan.Some? ==> CardNames(plan.value) == p.cards)
  }

  /** The plan so far is the beginning of the outcome. */
  ghost predicate PodOnTheWay(node: NodeInfo, balanced: string, start: NodeResources, now: NodeResources,
                              requests: seq<Resources>, sameGpu: set<int>, shared: seq<string>,
                              gpuMaps: seq<set<string>>, plan: seq<seq<Card>>)
    requires |plan| <= |requests|
  {
    PlaceRest(node, balanced, start, requests, sameGpu, shared, gpuMaps, 0)
    == AfterAll(CardNames(plan), PlaceRest(node, balanced, now, requests, sameGpu, shared, gpuMaps, |plan|))
  }

  lemma NothingPlaced(node: NodeInfo, balanced: string, start: NodeResources, requests: seq<Resources>, sameGpu: set<int>,
                      shared: seq<string>, gpuMaps: seq<set<string>>)
    ensures PodOnTheWay(node, balanced, start, start, requests, sameGpu, shared, gpuMaps, [])
  {
  }

  ghost function PlaceContainerAt(node: NodeInfo, balanced: string, used: NodeResources, requests: seq<Resources>,
                                  sameGpu: set<int>, shared: seq<string>, gpuMaps: seq<set<string>>, i: nat): Placed
    requires i < |requests|
  {
    if i in sameGpu then Placed(shared, used, true) else PlaceInGroups(node, balanced, used, requests[i], gpuMaps)
  }

  lemma OneContainerFurther(node: NodeInfo, balanced: string, start: NodeResources, now: NodeResources,
                            requests: seq<Resources>, sameGpu: set<int>, shared: seq<string>, gpuMaps: seq<set<string>>,
                            plan: seq<seq<Card>>, cards: Option<seq<Card>>, after: NodeResources)
    requires |plan| < |requests| && PodOnTheWay(node, balanced, start, now, requests, sameGpu, shared, gpuMaps, plan)
    requires Realizes(cards, after, PlaceContainerAt(node, balanced, now, requests, sameGpu, shared, gpuMaps, |plan|))
    ensures cards.Some? ==> PodOnTheWay(node, balanced, start, after, requests, sameGpu, shared, gpuMaps, plan + [cards.value])
    ensures cards.None? ==>
      RealizesPod(None, after, PlaceRest(node, balanced, start, requests, sameGpu, shared, gpuMaps, 0))
  {
    if cards.Some? {
      AfterAllTwice(CardNames(plan), [Names(cards.value)],
                    PlaceRest(node, balanced, after, requests, sameGpu, shared, gpuMaps, |plan| + 1));
      assert CardNames(plan + [cards.value]) == CardNames(plan) + [Names(cards.value)];
    }
  }

  lemma PodIsPlaced(node: NodeInfo, balanced: string, start: NodeResources, now: NodeResources, requests: seq<Resources>,
                    sameGpu: set<int>, shared: seq<string>, gpuMaps: seq<set<string>>, plan: seq<seq<Card>>)
    requires |plan| == |requests| && PodOnTheWay(node, balanced, start, now, requests, sameGpu, shared, gpuMaps, plan)
    ensures RealizesPod(Some(plan), now, PlaceRest(node, balanced, start, requests, sameGpu, shared, gpuMaps, 0))
  {
    assert CardNames(plan) + [] == CardNames(plan);
  }

  /** First fit for a pod: the containers that share a card, then the others in their order. */
  ghost function PlacePod(node: NodeInfo, balanced: string, used: NodeResources, requests: seq<Resources>,
                          sameGpu: set<int>, gpuMaps: seq<set<string>>): PodPlaced
    requires gpuMaps != [] && forall i :: i in sameGpu ==> 0 <= i < |requests|
  {
    var shared := PlaceSameGpu(node, balanced, used, requests, sameGpu, gpuMaps[0]);
    if !shared.ok then PodPlaced([], shared.used, false)
    else PlaceRest(node, balanced, shared.used, requests, sameGpu, shared.cards, gpuMaps, 0)
  }

  // ---- the copy planning starts with ----

  /** The amounts that were read, an empty map for every card without any, and on every card with disabled
      tiles the number of those that are not in use; a sum that overflows is dropped. */
  ghost function StartingCopy(node: NodeInfo, resources: NodeResources, status: NodeTiles): NodeResources
    requires forall c :: c in node.disabled ==> |node.disabled[c]| <= MAX_INT64
  {
    WithAllUnavailable(node, WithEmptyMaps(resources, set c | c in node.cards), status)
  }

  ghost function WithEmptyMaps(resources: NodeResources, cards: set<string>): NodeResources {
    map c | c in resources.Keys + cards :: CardResources(resources, c)
  }

  ghost function WithAllUnavailable(node: NodeInfo, resources: NodeResources, status: NodeTiles): NodeResources
    requires forall c :: c in node.disabled ==> |node.disabled[c]| <= MAX_INT64
  {
    map c | c in resources :: WithUnavailable(node, resources[c], status, c)
  }

  function WithUnavailable(node: NodeInfo, amounts: Resources, status: NodeTiles, card: string): Resources
    requires card in node.disabled ==> |node.disabled[card]| <= MAX_INT64
  {
    if card !in node.disabled then amounts
    else
      var sum := Sum(amounts, map[TILES := UnavailableTiles(node, status, card)]);
      if sum.Some? then sum.value else amounts
  }

  /** The unavailable tiles of all cards outside todo have been added, and nothing else has changed. */
  ghost predicate CountedExcept(node: NodeInfo, start: NodeResources, now: NodeResources, status: NodeTiles,
                                todo: set<string>)
    requires forall c :: c in node.disabled ==> |node.disabled[c]| <= MAX_INT64
  {
    now.Keys == start.Keys
    && forall c :: c in now ==> now[c] == if c in todo then start[c] else WithUnavailable(node, start[c], status, c)
  }

  lemma NoneCounted(node: NodeInfo, start: NodeResources, status: NodeTiles)
    requires forall c :: c in node.disabled ==> |node.disabled[c]| <= MAX_INT64
    ensures CountedExcept(node, start, start, status, node.disabled.Keys)
  {
  }

  lemma CountedOneMore(node: NodeInfo, start: NodeResources, before: NodeResources, after: NodeResources, status: NodeTiles,
                       todo: set<string>, card: string)
    requires forall c :: c in node.disabled ==> |node.disabled[c]| <= MAX_INT64
    requires CountedExcept(node, start, before, status, todo) && card in todo
    requires after == if card in before then before[card := WithUnavailable(node, before[card], status, card)] else before
    ensures CountedExcept(node, start, after, status, todo - {card})
  {
  }

  lemma AllCounted(node: NodeInfo, start: NodeResources, now: NodeResources, status: NodeTiles)
    requires forall c :: c in node.disabled ==> |node.disabled[c]| <= MAX_INT64
    requires CountedExcept(node, start, now, status, {})
    ensures now == WithAllUnavailable(node, start, status)
  {
  }

  /** Counting the disabled tiles of a card cannot overflow. */
  predicate TileHeadroom(node: NodeInfo, resources: NodeResources, card: string) {
    0 <= AmountAt(resources, card, TILES)
    && AmountAt(resources, card, TILES) + (if card in node.disabled then |node.disabled[card]| else 0) <= MAX_INT64
  }

  ghost predicate OnlyTilesChange(before: NodeResources, after: NodeResources) {
    forall c, k :: k != TILES ==> AmountAt(after, c, k) == AmountAt(before, c, k)
  }

  /** The unavailable tiles of a card have been added to its used ones. */
  predicate UnavailableCounted(node: NodeInfo, before: NodeResources, after: NodeResources, status: NodeTiles, c: string) {
    TileHeadroom(node, before, c) ==> AmountAt(after, c, TILES) == AmountAt(before, c, TILES) + UnavailableTiles(node, status, c)
  }

  lemma UnavailableAdded(rm: Resources, n: int64)
    requires n >= 0
    ensures var s := Sum(rm, map[TILES := n]);
            && (s.None? <==> TILES in rm && WrapAdd(rm[TILES], n) < 0)
            && (s.Some? ==> forall k :: Amount(s.value, k) == Amount(rm, k) + if k == TILES then n else 0)
  {
    var added: Resources := map[TILES := n];
    assert AddFault(rm, TILES, added[TILES]) <==> TILES in rm && WrapAdd(rm[TILES], n) < 0;
    if Sum(rm, added).Some? {
      forall k ensures Amount(Sum(rm, added).value, k) == Amount(rm, k) + if k == TILES then n else 0 {
        SumIsExact(rm, added, k);
      }
    }
  }

  lemma CountingOnlyAdds(node: NodeInfo, resources: NodeResources, status: NodeTiles)
    requires forall c :: c in node.disabled ==> |node.disabled[c]| <= MAX_INT64
    ensures var after := WithAllUnavailable(node, resources, status);
      && NoLess(resources, after) && OnlyTilesChange(resources, after)
      && forall c :: c in after ==> UnavailableCounted(node, resources, after, status, c)
  {
    forall c | c in resources && c in node.disabled {
      UnavailableAdded(resources[c], UnavailableTiles(node, status, c));
    }
  }

  /** What planning starts with is never less than what was read, and counts every unavailable tile. */
  lemma StartCounts(node: NodeInfo, resources: NodeResources, status: NodeTiles)
    requires forall c :: c in node.disabled ==> |node.disabled[c]| <= MAX_INT64
    ensures var start := StartingCopy(node, resources, status);
      && start.Keys == resources.Keys + (set c | c in node.cards)
      && NoLess(resources, start) && OnlyTilesChange(resources, start)
      && forall c :: c in start ==> UnavailableCounted(node, resources, start, status, c)
  {
    var empty, start := WithEmptyMaps(resources, set c | c in node.cards), StartingCopy(node, resources, status);
    CountingOnlyAdds(node, empty, status);
    forall c, k
      ensures AmountAt(empty, c, k) == AmountAt(resources, c, k)
      ensures AmountAt(resources, c, k) <= AmountAt(start, c, k)
      ensures k != TILES ==> AmountAt(start, c, k) == AmountAt(resources, c, k)
    {
      assert AmountAt(empty, c, k) <= AmountAt(start, c, k);
    }
    forall c | c in start ensures UnavailableCounted(node, resources, start, status, c) {
      assert UnavailableCounted(node, empty, start, status, c);
    }
  }

  /** The tiles that planning starts with on a card: those read and the unavailable ones, unless their number does not fit
      in 64 bits, in which case the unavailable ones are not counted. */
  lemma StartIsExact(node: NodeInfo, resources: NodeResources, status: NodeTiles, c: string)
    requires forall c :: c in node.disabled ==> |node.disabled[c]| <= MAX_INT64
    requires c in StartingCopy(node, resources, status)
    ensures var total := AmountAt(resources, c, TILES) + UnavailableTiles(node, status, c);
      AmountAt(StartingCopy(node, resources, status), c, TILES)
      == if 0 <= total <= MAX_INT64 then total else AmountAt(resources, c, TILES)
  {
    if c in node.disabled {
      UnavailableAdded(CardResources(resources, c), UnavailableTiles(node, status, c));
    }
  }
}
