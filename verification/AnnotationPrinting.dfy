/** Printing a plan: which tiles are chosen for the cards, and that an accepted plan never runs out of them. */
module AnnotationPrinting {
  import opened Text
  import opened ResourceArithmetic
  import opened Allocations
  import opened Annotations
  import opened Ordering
  import opened Placement
  import opened TilePlacement
  import opened PodPlans
  import opened XeLinks

  predicate PreferredFirst(wanted: seq<int>, chosen: seq<int>) {
    forall i :: 0 <= i < |wanted| && i < |chosen| ==> chosen[i] == wanted[i]
  }

  /** The choice of tiles on one card. */
  predicate TilesPicked(node: NodeInfo, card: Card, n: int, status: NodeTiles, unusable: NodeTiles, after: NodeTiles,
                        preferred: seq<int>, chosen: seq<int>) {
    var cap, name := Amount(PerGpuCapacity(node), TILES), card.gpuName;
    if n <= 0 || cap < n then chosen == [] && after == unusable
    else if |card.xeLinkedTileIds| == 1 && n == 1 then chosen == card.xeLinkedTileIds && after == unusable
    else
      FreePicked(name, n, Range(cap) - TilesAt(status, name) - TilesAt(unusable, name), unusable, after, preferred, chosen)
  }

  predicate FreePicked(name: string, n: int, free: set<int>, unusable: NodeTiles, after: NodeTiles,
                              preferred: seq<int>, chosen: seq<int>) {
    if |free| < n then chosen == [] && after == unusable
    else
      && |chosen| == n && NoDuplicates(chosen) && TileSet(chosen) <= free
      && after == unusable[name := TilesAt(unusable, name) + TileSet(chosen)]
      && (NoDuplicates(preferred) ==> PreferredFirst(PreferredAmong(preferred, free), chosen))
  }

  /** The choice on a card begins with the card's preferred tiles that were free, in the preferred order: tiles of the GPU
      that were not in use, not disabled and not chosen earlier. */
  ghost predicate PrefersTiles(node: NodeInfo, status: NodeTiles, earlier: seq<TileEntry>, card: string, chosen: seq<int>) {
    var preferred := if card in node.preferredTiles then node.preferredTiles[card] else [];
    var free := Range(Amount(PerGpuCapacity(node), TILES)) - TilesAt(status, card)
                - (DisabledTiles(node, card) + TileUse(earlier, card));
    NoDuplicates(preferred) ==> PreferredFirst(PreferredAmong(preferred, free), chosen)
  }

  lemma FirstTilesPicked(gpuName: string, n: int, tiles: seq<int>, ordered: seq<int>, unusable: NodeTiles,
                                preferred: seq<int>)
    requires 1 <= n <= |tiles| == |TileSet(tiles)| == |ordered| && NoDuplicates(ordered) && TileSet(ordered) == TileSet(tiles)
    requires NoDuplicates(preferred) ==> PreferredAmong(preferred, TileSet(tiles)) <= ordered
    ensures FreePicked(gpuName, n, TileSet(tiles), unusable,
                       unusable[gpuName := TilesAt(unusable, gpuName) + TileSet(ordered[..n])], preferred, ordered[..n])
  {
    assert TileSet(ordered[..n]) <= TileSet(ordered);
  }

  /** The first k tiles have been printed and marked. */
  ghost predicate Taken(gpuName: string, tiles: seq<int>, k: nat, before: set<int>, text: string, marked: set<int>)
    requires 1 <= k <= |tiles|
  {
    text == PrintedNames(gpuName, TileNames(tiles)[..k]) && marked == before + TileSet(tiles[..k])
  }

  lemma OneMoreMarked(tiles: seq<int>, k: nat)
    requires k < |tiles|
    ensures TileSet(tiles[..k + 1]) == TileSet(tiles[..k]) + {tiles[k]}
  {
    assert tiles[..k + 1] == tiles[..k] + [tiles[k]];
  }

  lemma TakenIsEntry(gpuName: string, tiles: seq<int>, n: nat, before: set<int>, text: string, marked: set<int>)
    requires 1 <= n <= |tiles| && Taken(gpuName, tiles, n, before, text, marked)
    ensures text == EntryText(gpuName, tiles[..n]) && marked == before + TileSet(tiles[..n])
  {
    PrintedNamesAre(gpuName, TileNames(tiles)[..n]);
    FrontNames(tiles, n);
  }

  lemma FrontNames(tiles: seq<int>, n: nat)
    requires n <= |tiles|
    ensures TileNames(tiles)[..n] == TileNames(tiles[..n])
  {
  }

  function PrintedNames(gpuName: string, names: seq<string>): string
    requires names != []
  {
    if |names| == 1 then gpuName + ":" + names[0]
    else PrintedNames(gpuName, names[..|names| - 1]) + "+" + names[|names| - 1]
  }

  lemma {:induction false} PrintedNamesAre(gpuName: string, names: seq<string>)
    requires names != []
    ensures PrintedNames(gpuName, names) == gpuName + ":" + Join(names, '+')
  {
    var n := |names| - 1;
    if n > 0 {
      PrintedNamesAre(gpuName, names[..n]);
      assert names == names[..n] + [names[n]];
      JoinAppend(names[..n], names[n], '+');
    }
  }

  lemma OneMoreName(gpuName: string, names: seq<string>, k: nat)
    requires 1 <= k < |names|
    ensures PrintedNames(gpuName, names[..k + 1]) == PrintedNames(gpuName, names[..k]) + "+" + names[k]
  {
    assert names[..k + 1][..k] == names[..k];
  }

  /** Where the tiles of earlier choices are kept apart: in the map of unusable tiles, or, with Xe links,
      by the plan itself. */
  ghost predicate KeptApart(node: NodeInfo, lower: NodeTiles, xeLinked: bool, plan: seq<seq<Card>>, i: nat, j: nat,
                            entries: seq<TileEntry>, unusable: NodeTiles)
    requires i < |plan| && j <= |plan[i]|
  {
    if xeLinked then
      PlanXeClear(node, lower, plan[..i + 1])
      && forall c :: TileUse(entries, c) <= PlanXeUse(plan[..i], c) + XeUse(plan[i][..j], c)
    else
      NoXeTiles(plan) && forall c :: TilesAt(unusable, c) == DisabledTiles(node, c) + TileUse(entries, c)
  }

  ghost predicate Printing(node: NodeInfo, lower: NodeTiles, requests: seq<Resources>, plan: seq<seq<Card>>,
                           xeLinked: bool, i: nat, j: nat, entries: seq<TileEntry>, unusable: NodeTiles)
    requires |plan| == |requests| && i < |plan| && j <= |plan[i]|
  {
    && ChosenSoFar(node, lower, entries, PlannedAllocs(requests, plan), i, j)
    && KeptApart(node, lower, xeLinked, plan, i, j, entries, unusable)
  }

  /** An Xe-linked tile of the plan is clear of what is in use, disabled, or chosen earlier. */
  lemma XePick(node: NodeInfo, lower: NodeTiles, plan: seq<seq<Card>>, i: nat, j: nat, entries: seq<TileEntry>,
               unusable: NodeTiles)
    requires i < |plan| && j < |plan[i]| && KeptApart(node, lower, true, plan, i, j, entries, unusable)
    ensures |plan[i][j].xeLinkedTileIds| == 1
    ensures var t, c := plan[i][j].xeLinkedTileIds[0], plan[i][j].gpuName;
            0 <= t <= MAX_INT && t !in TilesAt(lower, c) && t !in DisabledTiles(node, c) && t !in TileUse(entries, c)
  {
    var first := plan[..i + 1];
    assert first[i] == plan[i] && first[..i] == plan[..i];
    var c := plan[i][j].gpuName;
    assert c !in Names(plan[i][..j]) by {
      assert Names(plan[i])[..j] == Names(plan[i][..j]);
      assert Names(plan[i])[j] == c;
    }
    XeUseOutside(plan[i][..j], c);
    assert TileUse(entries, c) <= PlanXeUse(plan[..i], c) + XeUse(plan[i][..j], c);
  }

  lemma ApartOneMore(node: NodeInfo, lower: NodeTiles, plan: seq<seq<Card>>, xeLinked: bool, i: nat, j: nat,
                     entries: seq<TileEntry>, unusable: NodeTiles, after: NodeTiles, chosen: seq<int>)
    requires i < |plan| && j < |plan[i]| && KeptApart(node, lower, xeLinked, plan, i, j, entries, unusable)
    requires xeLinked ==> chosen == [] || chosen == plan[i][j].xeLinkedTileIds
    requires !xeLinked ==>
               || after == unusable[plan[i][j].gpuName := TilesAt(unusable, plan[i][j].gpuName) + TileSet(chosen)]
               || (after == unusable && chosen == [])
    ensures KeptApart(node, lower, xeLinked, plan, i, j + 1, entries + EntryOf(plan[i][j].gpuName, chosen), after)
  {
    var name := plan[i][j].gpuName;
    assert plan[i][..j + 1][..j] == plan[i][..j];
    forall c
      ensures TileUse(entries + EntryOf(name, chosen), c) == TileUse(entries, c) + if c == name then TileSet(chosen) else {}
    {
      TileUseAppend(entries, name, chosen, c);
    }
  }

  /** The number of tiles is never negative, and nothing is chosen when it is zero. */
  lemma NoneAsked(node: NodeInfo, upper: NodeTiles, requests: seq<Resources>, plan: seq<seq<Card>>, i: nat, j: nat)
    requires PlanReady(node, upper, requests, plan) && i < |plan| && j < |plan[i]|
    ensures TilesPerCard(requests[i], |plan[i]|) >= 0
  {
    var allocs := PlannedAllocs(requests, plan);
    ShareTiles(requests[i], plan[i]);
    assert allocs[i] in allocs;
    assert NonNegative(allocs[i].share);
  }

  /** What a choice on a card must satisfy. */
  predicate GoodChoice(node: NodeInfo, card: string, n: int, entries: seq<TileEntry>, chosen: seq<int>)
  {
    && |chosen| == n && NoDuplicates(chosen) && TileRange(chosen)
    && TileSet(chosen) !! DisabledTiles(node, card) && TileSet(chosen) !! TileUse(entries, card)
  }

  /** What the code chooses on the next card when the plan was accepted: exactly the planned number of tiles,
      none of them in use, disabled or chosen earlier. */
  lemma NextChoice(node: NodeInfo, lower: NodeTiles, upper: NodeTiles, requests: seq<Resources>, plan: seq<seq<Card>>,
                   xeLinked: bool, i: nat, j: nat, entries: seq<TileEntry>, status: NodeTiles, unusable: NodeTiles,
                   after: NodeTiles, preferred: seq<int>, chosen: seq<int>)
    requires PlanReady(node, upper, requests, plan) && (xeLinked ==> OneTilePerCard(requests, plan))
    requires i < |plan| && j < |plan[i]|
    requires Printing(node, lower, requests, plan, xeLinked, i, j, entries, unusable)
    requires forall c :: TilesAt(lower, c) <= TilesAt(status, c) <= TilesAt(upper, c)
    requires TilesPicked(node, plan[i][j], TilesPerCard(requests[i], |plan[i]|), status, unusable, after, preferred, chosen)
    ensures GoodChoice(node, plan[i][j].gpuName, TilesPerCard(requests[i], |plan[i]|), entries, chosen)
    ensures TileSet(chosen) !! TilesAt(lower, plan[i][j].gpuName)
    ensures if xeLinked then chosen == [] || chosen == plan[i][j].xeLinkedTileIds
            else after == unusable[plan[i][j].gpuName := TilesAt(unusable, plan[i][j].gpuName) + TileSet(chosen)]
                 || (after == unusable && chosen == [])
  {
    var n := TilesPerCard(requests[i], |plan[i]|);
    NoneAsked(node, upper, requests, plan, i, j);
    if n == 0 {
      NoChoice(node, plan[i][j].gpuName, entries);
    } else {
      EnoughTiles(node, lower, upper, requests, plan, xeLinked, i, j, entries, status, unusable);
      if xeLinked {
        XePick(node, lower, plan, i, j, entries, unusable);
        XeChoice(node, lower, plan[i][j].gpuName, entries, plan[i][j].xeLinkedTileIds);
        assert chosen == plan[i][j].xeLinkedTileIds && n == 1;
      } else {
        FreeChoice(node, lower, plan[i][j], n, entries, status, unusable, after, preferred, chosen);
      }
    }
  }

  lemma NoChoice(node: NodeInfo, card: string, entries: seq<TileEntry>)
    ensures GoodChoice(node, card, 0, entries, []) && TileSet([]) == {}
  {
    assert TileSet([]) == {};
  }

  lemma XeChoice(node: NodeInfo, lower: NodeTiles, card: string, entries: seq<TileEntry>, tiles: seq<int>)
    requires |tiles| == 1 && 0 <= tiles[0] <= MAX_INT
    requires tiles[0] !in TilesAt(lower, card) && tiles[0] !in DisabledTiles(node, card) && tiles[0] !in TileUse(entries, card)
    ensures GoodChoice(node, card, 1, entries, tiles) && TileSet(tiles) !! TilesAt(lower, card)
  {
    assert TileSet(tiles) == {tiles[0]};
  }

  lemma FreeChoice(node: NodeInfo, lower: NodeTiles, card: Card, n: int, entries: seq<TileEntry>, status: NodeTiles,
                   unusable: NodeTiles, after: NodeTiles, preferred: seq<int>, chosen: seq<int>)
    requires card.xeLinkedTileIds == [] && 0 < n <= Amount(PerGpuCapacity(node), TILES)
    requires TilesAt(lower, card.gpuName) <= TilesAt(status, card.gpuName)
    requires TilesAt(unusable, card.gpuName) == DisabledTiles(node, card.gpuName) + TileUse(entries, card.gpuName)
    requires |Range(Amount(PerGpuCapacity(node), TILES)) - TilesAt(status, card.gpuName) - TilesAt(unusable, card.gpuName)| >= n
    requires TilesPicked(node, card, n, status, unusable, after, preferred, chosen)
    ensures GoodChoice(node, card.gpuName, n, entries, chosen)
    ensures TileSet(chosen) !! TilesAt(lower, card.gpuName)
    ensures after == unusable[card.gpuName := TilesAt(unusable, card.gpuName) + TileSet(chosen)]
  {
    FreeRange(Amount(PerGpuCapacity(node), TILES), chosen);
  }

  lemma FreeRange(cap: int, chosen: seq<int>)
    ensures cap <= MAX_INT64 && TileSet(chosen) <= Range(cap) ==> TileRange(chosen)
  {
    forall i | 0 <= i < |chosen| && TileSet(chosen) <= Range(cap) ensures 0 <= chosen[i] < cap {
      assert chosen[i] in TileSet(chosen);
    }
  }

  lemma EnoughTiles(node: NodeInfo, lower: NodeTiles, upper: NodeTiles, requests: seq<Resources>, plan: seq<seq<Card>>,
                    xeLinked: bool, i: nat, j: nat, entries: seq<TileEntry>, status: NodeTiles, unusable: NodeTiles)
    requires PlanReady(node, upper, requests, plan)
    requires i < |plan| && j < |plan[i]| && TilesPerCard(requests[i], |plan[i]|) > 0
    requires Printing(node, lower, requests, plan, xeLinked, i, j, entries, unusable)
    requires forall c :: TilesAt(lower, c) <= TilesAt(status, c) <= TilesAt(upper, c)
    ensures TilesPerCard(requests[i], |plan[i]|) <= Amount(PerGpuCapacity(node), TILES)
    ensures !xeLinked ==>
              var name := plan[i][j].gpuName;
              |Range(Amount(PerGpuCapacity(node), TILES)) - TilesAt(status, name) - TilesAt(unusable, name)|
              >= TilesPerCard(requests[i], |plan[i]|)
  {
    var allocs := PlannedAllocs(requests, plan);
    var name := plan[i][j].gpuName;
    ShareTiles(requests[i], plan[i]);
    assert allocs[i].cards[j] == name;
    assert |TileUse(entries, name)| == UseSoFar(allocs, i, j, name);
    EnoughFree(node, upper, status, DisabledTiles(node, name) + TileUse(entries, name), TileUse(entries, name), allocs, i, j);
  }

  lemma NextCard(node: NodeInfo, lower: NodeTiles, upper: NodeTiles, requests: seq<Resources>, plan: seq<seq<Card>>,
                 xeLinked: bool, i: nat, j: nat, entries: seq<TileEntry>, status: NodeTiles, unusable: NodeTiles,
                 after: NodeTiles, preferred: seq<int>, chosen: seq<int>)
    requires PlanReady(node, upper, requests, plan) && (xeLinked ==> OneTilePerCard(requests, plan))
    requires i < |plan| && j < |plan[i]|
    requires Printing(node, lower, requests, plan, xeLinked, i, j, entries, unusable)
    requires forall c :: TilesAt(lower, c) <= TilesAt(status, c) <= TilesAt(upper, c)
    requires TilesPicked(node, plan[i][j], TilesPerCard(requests[i], |plan[i]|), status, unusable, after, preferred, chosen)
    ensures Printing(node, lower, requests, plan, xeLinked, i, j + 1, entries + EntryOf(plan[i][j].gpuName, chosen), after)
    ensures TileRange(chosen)
  {
    NextChoice(node, lower, upper, requests, plan, xeLinked, i, j, entries, status, unusable, after, preferred, chosen);
    ShareTiles(requests[i], plan[i]);
    ChosenOneMore(node, lower, entries, PlannedAllocs(requests, plan), i, j, chosen);
    ApartOneMore(node, lower, plan, xeLinked, i, j, entries, unusable, after, chosen);
  }

  ghost predicate Ready(node: NodeInfo, lower: NodeTiles, upper: NodeTiles, requests: seq<Resources>,
                        plan: seq<seq<Card>>, xeLinked: bool) {
    && PlanReady(node, upper, requests, plan)
    && if xeLinked then OneTilePerCard(requests, plan) && PlanXeClear(node, lower, plan) else NoXeTiles(plan)
  }

  /** The texts of the cards converted so far. */
  ghost predicate TextsOf(request: Resources, cards: seq<Card>, choice: seq<seq<int>>, cardTexts: seq<string>,
                                 tileTexts: seq<string>)
    requires |choice| == |cards|
  {
    && cardTexts == Names(cards) && tileTexts == EntryTexts(cards, choice)
    && (!HasTiles(request) ==> forall k :: 0 <= k < |choice| ==> choice[k] == [])
  }

  lemma MoreTexts(request: Resources, cards: seq<Card>, choice: seq<seq<int>>, j: nat, chosen: seq<int>,
                         cardTexts: seq<string>, tileTexts: seq<string>)
    requires j < |cards| && |choice| == j
    requires TextsOf(request, cards[..j], choice, cardTexts, tileTexts) && (!HasTiles(request) ==> chosen == [])
    ensures TextsOf(request, cards[..j + 1], choice + [chosen], cardTexts + [cards[j].gpuName],
                    tileTexts + [EntryText(cards[j].gpuName, chosen)])
  {
    assert Names(cards[..j + 1]) == Names(cards[..j]) + [cards[j].gpuName];
    assert EntryTexts(cards[..j + 1], choice + [chosen]) == EntryTexts(cards[..j], choice) + [EntryText(cards[j].gpuName, chosen)];
  }

  lemma MoreEntries(cards: seq<Card>, choice: seq<seq<int>>, j: nat, chosen: seq<int>, entries: seq<TileEntry>)
    requires j < |cards| && |choice| == j
    ensures entries + CardEntries(cards[..j + 1], choice + [chosen])
         == entries + CardEntries(cards[..j], choice) + EntryOf(cards[j].gpuName, chosen)
  {
    assert cards[..j + 1][..j] == cards[..j] && (choice + [chosen])[..j] == choice;
  }

  lemma {:induction false} XeClearPrefix(node: NodeInfo, lower: NodeTiles, plan: seq<seq<Card>>, k: nat)
    requires PlanXeClear(node, lower, plan) && k <= |plan|
    ensures PlanXeClear(node, lower, plan[..k])
    decreases |plan|
  {
    if k < |plan| {
      var front := plan[..|plan| - 1];
      XeClearPrefix(node, lower, front, k);
      assert front[..k] == plan[..k];
    } else {
      assert plan[..k] == plan;
    }
  }

  lemma PrintingStarts(node: NodeInfo, lower: NodeTiles, upper: NodeTiles, requests: seq<Resources>,
                       plan: seq<seq<Card>>, xeLinked: bool, unusable: NodeTiles)
    requires Ready(node, lower, upper, requests, plan, xeLinked) && plan != []
    requires forall c :: TilesAt(unusable, c) == DisabledTiles(node, c)
    ensures Printing(node, lower, requests, plan, xeLinked, 0, 0, [], unusable)
  {
    NoneChosen(node, lower, PlannedAllocs(requests, plan));
    if xeLinked {
      XeClearPrefix(node, lower, plan, 1);
    }
  }

  lemma PrintingGoesOn(node: NodeInfo, lower: NodeTiles, upper: NodeTiles, requests: seq<Resources>,
                       plan: seq<seq<Card>>, xeLinked: bool, i: nat, entries: seq<TileEntry>, unusable: NodeTiles)
    requires Ready(node, lower, upper, requests, plan, xeLinked) && i < |plan|
    requires Printing(node, lower, requests, plan, xeLinked, i, |plan[i]|, entries, unusable)
    ensures ChosenSoFar(node, lower, entries, PlannedAllocs(requests, plan), i + 1, 0)
    ensures i + 1 < |plan| ==> Printing(node, lower, requests, plan, xeLinked, i + 1, 0, entries, unusable)
  {
    NextContainer(node, lower, entries, PlannedAllocs(requests, plan), i);
    if i + 1 < |plan| && xeLinked {
      XeClearPrefix(node, lower, plan, i + 2);
      assert plan[..i + 1][..i] == plan[..i];
      assert plan[i][..|plan[i]|] == plan[i];
    }
  }

  /** The state of printing between two containers. */
  ghost predicate Converted(node: NodeInfo, lower: NodeTiles, requests: seq<Resources>, plan: seq<seq<Card>>,
                            xeLinked: bool, i: nat, choice: seq<seq<seq<int>>>, entries: seq<TileEntry>,
                            unusable: NodeTiles)
    requires |plan| == |requests| && i <= |plan|
  {
    && ChosenWhereAsked(requests[..i], choice)
    && ChosenSoFar(node, lower, entries, PlannedAllocs(requests, plan), i, 0)
    && (i < |plan| ==> Printing(node, lower, requests, plan, xeLinked, i, 0, entries, unusable))
  }

  lemma ConvertStarts(node: NodeInfo, lower: NodeTiles, upper: NodeTiles, requests: seq<Resources>,
                      plan: seq<seq<Card>>, xeLinked: bool, unusable: NodeTiles)
    requires |plan| == |requests| && forall c :: TilesAt(unusable, c) == DisabledTiles(node, c)
    ensures plan[..0] == []
    ensures Ready(node, lower, upper, requests, plan, xeLinked) ==>
              Converted(node, lower, requests, plan, xeLinked, 0, [], [], unusable)
  {
    NoneChosen(node, lower, PlannedAllocs(requests, plan));
    if Ready(node, lower, upper, requests, plan, xeLinked) && plan != [] {
      PrintingStarts(node, lower, upper, requests, plan, xeLinked, unusable);
    }
  }

  lemma ConvertGoesOn(node: NodeInfo, lower: NodeTiles, upper: NodeTiles, requests: seq<Resources>,
                      plan: seq<seq<Card>>, xeLinked: bool, i: nat, choice: seq<seq<seq<int>>>, entries: seq<TileEntry>,
                      before: NodeTiles, unusable: NodeTiles, picked: seq<seq<int>>)
    requires |plan| == |requests| && i < |plan| && |picked| == |plan[i]|
    requires !HasTiles(requests[i]) ==> forall j :: 0 <= j < |picked| ==> picked[j] == []
    requires Ready(node, lower, upper, requests, plan, xeLinked) ==>
               Converted(node, lower, requests, plan, xeLinked, i, choice, entries, before)
    requires Ready(node, lower, upper, requests, plan, xeLinked)
             && Printing(node, lower, requests, plan, xeLinked, i, 0, entries, before) ==>
               && ChoiceRange(picked)
               && Printing(node, lower, requests, plan, xeLinked, i, |plan[i]|, entries + CardEntries(plan[i], picked), unusable)
    ensures Ready(node, lower, upper, requests, plan, xeLinked) ==>
              Converted(node, lower, requests, plan, xeLinked, i + 1, choice + [picked],
                        entries + CardEntries(plan[i], picked), unusable)
  {
    if Ready(node, lower, upper, requests, plan, xeLinked) {
      PrintingGoesOn(node, lower, upper, requests, plan, xeLinked, i, entries + CardEntries(plan[i], picked), unusable);
      assert requests[..i + 1] == requests[..i] + [requests[i]];
    }
  }

  lemma OneMoreContainer(requests: seq<Resources>, plan: seq<seq<Card>>, choice: seq<seq<seq<int>>>, i: nat,
                         picked: seq<seq<int>>)
    requires |plan| == |requests| && i < |plan| && ChoiceShape(plan[..i], choice) && |picked| == |plan[i]|
    ensures ChoiceShape(plan[..i + 1], choice + [picked])
    ensures CardTexts(plan[..i + 1]) == CardTexts(plan[..i]) + [Join(Names(plan[i]), ',')]
    ensures TileTexts(requests[..i + 1], plan[..i + 1], choice + [picked])
         == TileTexts(requests[..i], plan[..i], choice) + [ContainerText(requests[i], plan[i], picked)]
    ensures PlanEntries(plan[..i + 1], choice + [picked]) == PlanEntries(plan[..i], choice) + CardEntries(plan[i], picked)
  {
    var p, ch := plan[..i + 1], choice + [picked];
    assert p == plan[..i] + [plan[i]];
    assert p[..i] == plan[..i] && ch[..i] == choice;
    forall k | 0 <= k < |p| ensures |ch[k]| == |p[k]| {
      assert k < i ==> p[k] == plan[..i][k] && ch[k] == choice[k];
    }
  }
}
