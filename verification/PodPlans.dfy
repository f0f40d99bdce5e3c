/** What is known of a planned pod: how the planner's copy has grown, which cards it got and which tiles it was
    promised. */
module PodPlans {
  import opened Text
  import opened ResourceArithmetic
  import opened Allocations
  import opened Annotations
  import opened Ordering
  import opened Placement
  import opened TilePlacement
  import opened FirstFit
  import opened SharedGpu
  import opened XeLinks

  /** The copy grows by at least an allocation's use, and by exactly that if nothing failed before. */
  ghost predicate ContainerAdded(before: NodeResources, after: NodeResources, alloc: Alloc, exact: bool) {
    && (forall c, k :: AmountAt(after, c, k) >= AmountAt(before, c, k) + CardsUse(alloc.share, alloc.cards, c, k))
    && (exact ==> forall c, k :: AmountAt(after, c, k) == AmountAt(before, c, k) + CardsUse(alloc.share, alloc.cards, c, k))
  }

  ghost predicate PlanAdded(before: NodeResources, after: NodeResources, allocs: seq<Alloc>, exact: bool) {
    && (forall c, k :: AmountAt(after, c, k) >= AmountAt(before, c, k) + Use(allocs, c, k))
    && (exact ==> forall c, k :: AmountAt(after, c, k) == AmountAt(before, c, k) + Use(allocs, c, k))
  }

  /** While the containers are placed: the copy has grown by the same-GPU sum and by the containers placed so far. */
  ghost predicate PlanProgress(start: NodeResources, now: NodeResources, requests: seq<Resources>, plan: seq<seq<Card>>,
                               sameGpu: set<int>, on: string, exact: bool) {
    && |plan| <= |requests|
    && (forall c, k :: AmountAt(now, c, k) >= AmountAt(start, c, k) + Progress(requests, plan, sameGpu, on, c, k))
    && (exact ==> forall c, k :: AmountAt(now, c, k) == AmountAt(start, c, k) + Progress(requests, plan, sameGpu, on, c, k))
  }

  function Progress(requests: seq<Resources>, plan: seq<seq<Card>>, sameGpu: set<int>, on: string, card: string,
                    key: string): int
    requires |plan| <= |requests|
  {
    SameGpuUse(requests, sameGpu, on, card, key)
    + PartUse(PlannedAllocs(requests[..|plan|], plan), sameGpu, false, card, key)
  }

  lemma ProgressOneMore(requests: seq<Resources>, plan: seq<seq<Card>>, sameGpu: set<int>, on: string, cards: seq<Card>,
                        c: string, k: string)
    requires |plan| < |requests|
    ensures var a := PlannedAlloc(requests[|plan|], cards);
            Progress(requests, plan + [cards], sameGpu, on, c, k)
            == Progress(requests, plan, sameGpu, on, c, k) + if |plan| in sameGpu then 0 else CardsUse(a.share, a.cards, c, k)
  {
    var n := |plan|;
    assert requests[..n + 1][..n] == requests[..n];
    var more := PlannedAllocs(requests[..n + 1], plan + [cards]);
    assert more[..n] == PlannedAllocs(requests[..n], plan);
    assert more[n] == PlannedAlloc(requests[n], cards);
  }

  lemma ProgressStart(start: NodeResources, now: NodeResources, requests: seq<Resources>, sameGpu: set<int>, on: string,
                      exact: bool)
    requires sameGpu == {} ==> now == start
    requires sameGpu != {} ==> SameGpuAdded(start, now, requests, sameGpu, on)
    requires exact ==> OnePluginType(requests, sameGpu)
    ensures PlanProgress(start, now, requests, [], sameGpu, on, exact)
  {
    forall c, k ensures Progress(requests, [], sameGpu, on, c, k) == SameGpuUse(requests, sameGpu, on, c, k) {
      assert PlannedAllocs(requests[..0], []) == [];
    }
    if sameGpu == {} {
      forall k ensures SelectedSum(requests, {}, k) == 0 {
        SelectedSumNone(requests, k);
      }
    }
  }

  lemma ProgressSkip(start: NodeResources, now: NodeResources, requests: seq<Resources>, plan: seq<seq<Card>>,
                     sameGpu: set<int>, on: string, exact: bool, cards: seq<Card>)
    requires |plan| < |requests| && |plan| in sameGpu
    requires PlanProgress(start, now, requests, plan, sameGpu, on, exact)
    ensures PlanProgress(start, now, requests, plan + [cards], sameGpu, on, exact)
  {
    forall c, k
      ensures Progress(requests, plan + [cards], sameGpu, on, c, k) == Progress(requests, plan, sameGpu, on, c, k)
    {
      ProgressOneMore(requests, plan, sameGpu, on, cards, c, k);
    }
  }

  lemma ProgressMore(start: NodeResources, now: NodeResources, after: NodeResources, requests: seq<Resources>,
                     plan: seq<seq<Card>>, sameGpu: set<int>, on: string, exact: bool, one: bool, cards: seq<Card>)
    requires |plan| < |requests| && |plan| !in sameGpu && (exact ==> one)
    requires PlanProgress(start, now, requests, plan, sameGpu, on, exact)
    requires ContainerAdded(now, after, PlannedAlloc(requests[|plan|], cards), one)
    ensures PlanProgress(start, after, requests, plan + [cards], sameGpu, on, exact)
  {
    var a := PlannedAlloc(requests[|plan|], cards);
    forall c, k
      ensures Progress(requests, plan + [cards], sameGpu, on, c, k)
           == Progress(requests, plan, sameGpu, on, c, k) + CardsUse(a.share, a.cards, c, k)
    {
      ProgressOneMore(requests, plan, sameGpu, on, cards, c, k);
    }
    forall c, k
      ensures AmountAt(after, c, k) >= AmountAt(start, c, k) + Progress(requests, plan + [cards], sameGpu, on, c, k)
      ensures exact ==> AmountAt(after, c, k) == AmountAt(start, c, k) + Progress(requests, plan + [cards], sameGpu, on, c, k)
    {
      assert AmountAt(now, c, k) >= AmountAt(start, c, k) + Progress(requests, plan, sameGpu, on, c, k);
      assert AmountAt(after, c, k) >= AmountAt(now, c, k) + CardsUse(a.share, a.cards, c, k);
    }
  }

  lemma ProgressEnd(start: NodeResources, now: NodeResources, requests: seq<Resources>, plan: seq<seq<Card>>,
                    sameGpu: set<int>, on: string, exact: bool)
    requires |plan| == |requests| && PlanProgress(start, now, requests, plan, sameGpu, on, exact)
    requires forall i :: i in sameGpu ==> 0 <= i < |requests|
    requires forall i :: i in sameGpu ==> |plan[i]| == 1 && plan[i][0].gpuName == on
    ensures PlanAdded(start, now, PlannedAllocs(requests, plan), exact)
  {
    var allocs := PlannedAllocs(requests, plan);
    assert requests[..|plan|] == requests;
    forall i | 0 <= i < |allocs| && i in sameGpu ensures allocs[i] == Alloc(requests[i], [on]) {
      ShareByOne(requests[i]);
      assert Names(plan[i]) == [on];
    }
    forall c, k ensures Progress(requests, plan, sameGpu, on, c, k) == Use(allocs, c, k) {
      UseIsBothParts(allocs, sameGpu, c, k);
      SelectedUse(requests, allocs, sameGpu, on, c, k);
    }
    forall c, k
      ensures AmountAt(now, c, k) >= AmountAt(start, c, k) + Use(allocs, c, k)
      ensures exact ==> AmountAt(now, c, k) == AmountAt(start, c, k) + Use(allocs, c, k)
    {
      assert AmountAt(now, c, k) >= AmountAt(start, c, k) + Progress(requests, plan, sameGpu, on, c, k);
    }
  }

  predicate NoXeTiles(plan: seq<seq<Card>>) {
    forall i, j :: 0 <= i < |plan| && 0 <= j < |plan[i]| ==> plan[i][j].xeLinkedTileIds == []
  }

  ghost predicate ContainerPlaced(node: NodeInfo, before: NodeResources, after: NodeResources, request: Resources,
                                  gpuMaps: seq<set<string>>, cards: seq<Card>) {
    && CardsListed(node, before, request, gpuMaps, cards)
    && ContainerAdded(before, after, PlannedAlloc(request, cards), |gpuMaps| == 1)
  }

  ghost predicate CardsListed(node: NodeInfo, before: NodeResources, request: Resources, gpuMaps: seq<set<string>>,
                              cards: seq<Card>) {
    && |cards| == NumGpu(request) && NoDuplicates(Names(cards))
    && (cards != [] ==> NonNegative(PlannedAlloc(request, cards).share))
    && exists m :: m in gpuMaps && forall j :: 0 <= j < |cards| ==> Listed(node, before, m, cards[j].gpuName)
  }

  lemma PlacedContainer(node: NodeInfo, before: NodeResources, mid: NodeResources, after: NodeResources, request: Resources,
                        gpuMaps: seq<set<string>>, cards: seq<Card>)
    requires Grown(before, mid, PerGpuCapacity(node))
    requires |gpuMaps| == 1 ==> mid == before
    requires CardsListed(node, before, request, gpuMaps, cards)
    requires AdjustCards(mid, PerGpuRequest(request), Names(cards), true) == Some(after)
    ensures ContainerPlaced(node, before, after, request, gpuMaps, cards)
  {
    AddCardsIsExact(mid, PerGpuRequest(request), Names(cards));
    if cards != [] {
      ShareOfRequest(request, |cards|);
    } else {
      assert Names(cards) == [];
    }
    forall c, k
      ensures AmountAt(after, c, k) == AmountAt(mid, c, k) + CardsUse(PlannedAlloc(request, cards).share, Names(cards), c, k)
      ensures AmountAt(before, c, k) <= AmountAt(mid, c, k)
    {
    }
  }

  /** What is known of the tiles a container was promised: with Xe links, one clear tile per card. */
  ghost predicate ContainerTiles(node: NodeInfo, lower: NodeTiles, xeLinked: bool, before: NodeTiles, after: NodeTiles,
                                 cards: seq<Card>) {
    if xeLinked then
      && XeClear(node, lower, before, cards) && PairsJoined(node, cards, |cards| / 2)
      && forall c :: TilesAt(before, c) + XeUse(cards, c) <= TilesAt(after, c)
    else
      forall j :: 0 <= j < |cards| ==> cards[j].xeLinkedTileIds == []
  }

  lemma EligibleAreListed(node: NodeInfo, balanced: string, mid: NodeResources, request: Resources, gpuMap: set<string>,
                          cards: seq<Card>)
    requires PickedWell(node, balanced, PerGpuCapacity(node), mid, PerGpuRequest(request), gpuMap, Names(cards))
    ensures forall j :: 0 <= j < |cards| ==> Listed(node, mid, gpuMap, cards[j].gpuName)
  {
    forall j | 0 <= j < |cards| ensures Listed(node, mid, gpuMap, cards[j].gpuName) {
      assert Names(cards)[j] in Eligible(node, PerGpuCapacity(node), mid, PerGpuRequest(request), gpuMap);
    }
  }

  lemma ListedAtStart(node: NodeInfo, start: NodeResources, mid: NodeResources, request: Resources,
                      gpuMaps: seq<set<string>>, i: nat, cards: seq<Card>)
    requires i < |gpuMaps| && mid.Keys == start.Keys
    requires |cards| == NumGpu(request) && NoDuplicates(Names(cards))
    requires AdjustCards(mid, PerGpuRequest(request), Names(cards), true).Some?
    requires forall j :: 0 <= j < |cards| ==> Listed(node, mid, gpuMaps[i], cards[j].gpuName)
    ensures CardsListed(node, start, request, gpuMaps, cards)
  {
    if cards != [] {
      assert Names(cards) != [];
      AddCardsIsExact(mid, PerGpuRequest(request), Names(cards));
      ShareOfRequest(request, |cards|);
    }
    var m := gpuMaps[i];
    assert m in gpuMaps;
    assert forall j :: 0 <= j < |cards| ==> Listed(node, start, m, cards[j].gpuName);
  }

  /** What is known of a plan: same-GPU containers all have the one card, the others the cards they ask for. */
  ghost predicate PlanListed(node: NodeInfo, start: NodeResources, requests: seq<Resources>, gpuMaps: seq<set<string>>,
                             plan: seq<seq<Card>>, sameGpu: set<int>, shared: seq<Card>) {
    && |plan| <= |requests|
    && forall i :: 0 <= i < |plan| ==>
         if i in sameGpu then plan[i] == shared else CardsListed(node, start, requests[i], gpuMaps, plan[i])
  }

  /** Every Xe-linked choice is clear of used and disabled tiles and of the pod's earlier choices. */
  ghost predicate PlanXeClear(node: NodeInfo, lower: NodeTiles, plan: seq<seq<Card>>)
    decreases |plan|
  {
    plan == [] ||
    var n := |plan| - 1;
    && PlanXeClear(node, lower, plan[..n]) && NoDuplicates(Names(plan[n])) && PairsJoined(node, plan[n], |plan[n]| / 2)
    && forall j :: 0 <= j < |plan[n]| ==>
         && |plan[n][j].xeLinkedTileIds| == 1
         && var t, c := plan[n][j].xeLinkedTileIds[0], plan[n][j].gpuName;
            0 <= t <= MAX_INT && t !in TilesAt(lower, c) && t !in DisabledTiles(node, c) && t !in PlanXeUse(plan[..n], c)
  }

  ghost predicate PlanTiles(node: NodeInfo, lower: NodeTiles, xeLinked: bool, plan: seq<seq<Card>>, marked: NodeTiles) {
    if xeLinked then
      PlanXeClear(node, lower, plan) && forall c :: PlanXeUse(plan, c) <= TilesAt(marked, c)
    else
      NoXeTiles(plan)
  }

  lemma PlanTilesMore(node: NodeInfo, lower: NodeTiles, xeLinked: bool, plan: seq<seq<Card>>, marked: NodeTiles,
                      after: NodeTiles, cards: seq<Card>)
    requires PlanTiles(node, lower, xeLinked, plan, marked) && Kept(marked, after)
    requires ContainerTiles(node, lower, xeLinked, marked, after, cards) && NoDuplicates(Names(cards))
    ensures PlanTiles(node, lower, xeLinked, plan + [cards], after)
  {
    var all := plan + [cards];
    assert all[..|all| - 1] == plan;
    if xeLinked {
      forall j | 0 <= j < |cards|
        ensures |cards[j].xeLinkedTileIds| == 1
        ensures var t, c := cards[j].xeLinkedTileIds[0], cards[j].gpuName;
                0 <= t <= MAX_INT && t !in TilesAt(lower, c) && t !in DisabledTiles(node, c) && t !in PlanXeUse(plan, c)
      {
        assert XeCardClear(node, lower, marked, cards[j]);
        assert PlanXeUse(plan, cards[j].gpuName) <= TilesAt(marked, cards[j].gpuName);
      }
      forall c ensures PlanXeUse(all, c) <= TilesAt(after, c) {
        assert PlanXeUse(plan, c) <= TilesAt(marked, c);
        assert TilesAt(marked, c) + XeUse(cards, c) <= TilesAt(after, c);
      }
    }
  }

  ghost function SharedName(shared: seq<Card>): string { if shared == [] then "" else shared[0].gpuName }

  lemma ListedMore(node: NodeInfo, start: NodeResources, now: NodeResources, requests: seq<Resources>,
                   gpuMaps: seq<set<string>>, plan: seq<seq<Card>>, sameGpu: set<int>, shared: seq<Card>,
                   cards: seq<Card>)
    requires |plan| < |requests| && |plan| !in sameGpu && now.Keys == start.Keys
    requires PlanListed(node, start, requests, gpuMaps, plan, sameGpu, shared)
    requires CardsListed(node, now, requests[|plan|], gpuMaps, cards)
    ensures PlanListed(node, start, requests, gpuMaps, plan + [cards], sameGpu, shared)
  {
    var m :| m in gpuMaps && forall j :: 0 <= j < |cards| ==> Listed(node, now, m, cards[j].gpuName);
    assert forall j :: 0 <= j < |cards| ==> Listed(node, start, m, cards[j].gpuName);
    assert CardsListed(node, start, requests[|plan|], gpuMaps, cards);
  }

  ghost predicate SharedWell(node: NodeInfo, start: NodeResources, requests: seq<Resources>, sameGpu: set<int>,
                             gpuMap: set<string>, shared: seq<Card>) {
    sameGpu != {} ==>
      && |shared| == 1 && shared[0].xeLinkedTileIds == [] && Listed(node, start, gpuMap, shared[0].gpuName)
      && forall i :: i in sameGpu && 0 <= i < |requests| ==> SameGpuRequest(requests[i]) && NonNegative(requests[i])
  }

  /** What planning knows of the plan it returns. */
  ghost predicate PodPlan(node: NodeInfo, lower: NodeTiles, start: NodeResources, end: NodeResources,
                          requests: seq<Resources>, sameGpu: set<int>, gpuMaps: seq<set<string>>, xeLinked: bool,
                          plan: seq<seq<Card>>, shared: seq<Card>, marked: NodeTiles)
    requires gpuMaps != []
  {
    && |plan| == |requests|
    && PlanAdded(start, end, PlannedAllocs(requests, plan), |gpuMaps| == 1 && OnePluginType(requests, sameGpu))
    && PlanListed(node, start, requests, gpuMaps, plan, sameGpu, shared)
    && SharedWell(node, start, requests, sameGpu, gpuMaps[0], shared)
    && PlanTiles(node, lower, xeLinked, plan, marked)
  }

  /** Xe-linked containers ask at most one tile of each card. */
  ghost predicate OneTilePerCard(requests: seq<Resources>, plan: seq<seq<Card>>) {
    forall i :: 0 <= i < |plan| && i < |requests| && plan[i] != [] ==> TilesPerCard(requests[i], |plan[i]|) <= 1
  }

  /** Lists of labels have a Go length. */
  predicate GoLists(node: NodeInfo) {
    forall c :: c in node.disabled ==> |node.disabled[c]| <= MAX_INT64
  }

  ghost predicate AcceptedPlan(node: NodeInfo, lower: NodeTiles, upper: NodeTiles, resources: NodeResources,
                               requests: seq<Resources>, sameGpu: set<int>, gpuMaps: seq<set<string>>, xeLinked: bool,
                               plan: seq<seq<Card>>, shared: seq<Card>)
    requires gpuMaps != []
  {
    && |plan| == |requests| && SharesNonNegative(PlannedAllocs(requests, plan))
    && PlanCards(node, resources.Keys + (set c | c in node.cards), requests, sameGpu, gpuMaps, plan, shared)
    && Fitting(PerGpuCapacity(node), resources, PlannedAllocs(requests, plan))
    && (CountedTiles(node, upper, resources) ==> TileRoom(node, upper, PlannedAllocs(requests, plan)))
    && (if xeLinked then PlanXeClear(node, lower, plan) else NoXeTiles(plan))
  }

  ghost predicate PlanCards(node: NodeInfo, known: set<string>, requests: seq<Resources>, sameGpu: set<int>,
                            gpuMaps: seq<set<string>>, plan: seq<seq<Card>>, shared: seq<Card>)
    requires gpuMaps != [] && |plan| == |requests|
  {
    && (forall i :: 0 <= i < |plan| && i !in sameGpu ==> ListedIn(node, known, requests[i], gpuMaps, plan[i]))
    && (forall i :: 0 <= i < |plan| && i in sameGpu ==> plan[i] == shared)
    && (sameGpu != {} ==>
          && |shared| == 1 && shared[0].xeLinkedTileIds == []
          && shared[0].gpuName in known && shared[0].gpuName in gpuMaps[0] && shared[0].gpuName in node.usable)
  }

  /** Distinct, listed and usable cards, as many as requested, all from one group. */
  ghost predicate ListedIn(node: NodeInfo, known: set<string>, request: Resources, gpuMaps: seq<set<string>>,
                           cards: seq<Card>) {
    && |cards| == NumGpu(request) && NoDuplicates(Names(cards))
    && exists m :: m in gpuMaps && forall j :: 0 <= j < |cards| ==>
         cards[j].gpuName in known && cards[j].gpuName in m && cards[j].gpuName in node.usable
  }

  lemma RoomFromCopy(node: NodeInfo, resources: NodeResources, start: NodeResources, end: NodeResources,
                     allocs: seq<Alloc>, exact: bool, c: string, k: string)
    requires NoLess(resources, start) && Bounded(start, end, PerGpuCapacity(node)) && end.Keys == start.Keys
    requires PlanAdded(start, end, allocs, exact) && Use(allocs, c, k) > 0
    ensures c in start && AmountAt(start, c, k) + Use(allocs, c, k) <= CapOf(PerGpuCapacity(node), k)
    ensures AmountAt(resources, c, k) + Use(allocs, c, k) <= CapOf(PerGpuCapacity(node), k)
  {
    assert AmountAt(end, c, k) >= AmountAt(start, c, k) + Use(allocs, c, k);
    assert AmountAt(end, c, k) == AmountAt(start, c, k) || AmountAt(end, c, k) <= CapOf(PerGpuCapacity(node), k);
    assert AmountAt(resources, c, k) <= AmountAt(start, c, k);
  }

  lemma TileRoomFromCopy(node: NodeInfo, upper: NodeTiles, resources: NodeResources, start: NodeResources,
                         end: NodeResources, allocs: seq<Alloc>, exact: bool, status: NodeTiles)
    requires NoLess(resources, start) && Bounded(start, end, PerGpuCapacity(node)) && end.Keys == start.Keys
    requires PlanAdded(start, end, allocs, exact) && CountedTiles(node, upper, resources)
    requires forall c :: TilesAt(status, c) <= TilesAt(upper, c)
    requires forall c :: c in start ==> UnavailableCounted(node, resources, start, status, c)
    ensures TileRoom(node, upper, allocs)
  {
    forall c | Use(allocs, c, TILES) > 0
      ensures |TilesAt(upper, c) + DisabledTiles(node, c)| + Use(allocs, c, TILES) <= Amount(PerGpuCapacity(node), TILES)
    {
      RoomFromCopy(node, resources, start, end, allocs, exact, c, TILES);
      UnavailableCoversDisabled(node, status, TilesAt(upper, c), c);
    }
  }

  lemma PlanShares(node: NodeInfo, requests: seq<Resources>, plan: seq<seq<Card>>, sameGpu: set<int>,
                   gpuMaps: seq<set<string>>, start: NodeResources, shared: seq<Card>)
    requires |plan| == |requests| && gpuMaps != [] && PlanListed(node, start, requests, gpuMaps, plan, sameGpu, shared)
    requires SharedWell(node, start, requests, sameGpu, gpuMaps[0], shared)
    ensures SharesNonNegative(PlannedAllocs(requests, plan))
  {
    var allocs := PlannedAllocs(requests, plan);
    forall a | a in allocs && a.cards != [] ensures NonNegative(a.share) {
      var i :| 0 <= i < |allocs| && allocs[i] == a;
      if i in sameGpu {
        ShareByOne(requests[i]);
        assert Names(plan[i]) != [] && |Names(plan[i])| == 1;
      } else {
        assert CardsListed(node, start, requests[i], gpuMaps, plan[i]);
        assert |Names(plan[i])| == |plan[i]|;
      }
    }
  }

  lemma CheckedPlan(node: NodeInfo, lower: NodeTiles, upper: NodeTiles, resources: NodeResources, start: NodeResources,
                    end: NodeResources, status: NodeTiles, requests: seq<Resources>, sameGpu: set<int>,
                    gpuMaps: seq<set<string>>, xeLinked: bool, plan: seq<seq<Card>>, shared: seq<Card>,
                    marked: NodeTiles)
    requires GoLists(node) && start == StartingCopy(node, resources, status)
    requires Grown(start, end, PerGpuCapacity(node)) && forall c :: TilesAt(status, c) <= TilesAt(upper, c)
    requires gpuMaps != [] && PodPlan(node, lower, start, end, requests, sameGpu, gpuMaps, xeLinked, plan, shared, marked)
    ensures AcceptedPlan(node, lower, upper, resources, requests, sameGpu, gpuMaps, xeLinked, plan, shared)
  {
    PlanShares(node, requests, plan, sameGpu, gpuMaps, start, shared);
    CardsOfPlan(node, start, requests, sameGpu, gpuMaps, plan, shared);
    StartCounts(node, resources, status);
    CheckedRoom(node, upper, resources, start, end, status, PlannedAllocs(requests, plan),
                |gpuMaps| == 1 && OnePluginType(requests, sameGpu));
  }

  lemma CheckedRoom(node: NodeInfo, upper: NodeTiles, resources: NodeResources, start: NodeResources,
                    end: NodeResources, status: NodeTiles, allocs: seq<Alloc>, exact: bool)
    requires NoLess(resources, start) && Grown(start, end, PerGpuCapacity(node)) && PlanAdded(start, end, allocs, exact)
    requires forall c :: TilesAt(status, c) <= TilesAt(upper, c)
    requires forall c :: c in start ==> UnavailableCounted(node, resources, start, status, c)
    ensures Fitting(PerGpuCapacity(node), resources, allocs)
    ensures CountedTiles(node, upper, resources) ==> TileRoom(node, upper, allocs)
  {
    forall c, k | Use(allocs, c, k) > 0 ensures AmountAt(resources, c, k) + Use(allocs, c, k) <= CapOf(PerGpuCapacity(node), k) {
      RoomFromCopy(node, resources, start, end, allocs, exact, c, k);
    }
    if CountedTiles(node, upper, resources) {
      TileRoomFromCopy(node, upper, resources, start, end, allocs, exact, status);
    }
  }

  lemma CardsOfPlan(node: NodeInfo, start: NodeResources, requests: seq<Resources>, sameGpu: set<int>,
                    gpuMaps: seq<set<string>>, plan: seq<seq<Card>>, shared: seq<Card>)
    requires gpuMaps != [] && |plan| == |requests|
    requires PlanListed(node, start, requests, gpuMaps, plan, sameGpu, shared)
    requires SharedWell(node, start, requests, sameGpu, gpuMaps[0], shared)
    ensures PlanCards(node, start.Keys, requests, sameGpu, gpuMaps, plan, shared)
  {
    forall i | 0 <= i < |plan| && i !in sameGpu ensures ListedIn(node, start.Keys, requests[i], gpuMaps, plan[i]) {
      assert CardsListed(node, start, requests[i], gpuMaps, plan[i]);
      var m :| m in gpuMaps && forall j :: 0 <= j < |plan[i]| ==> Listed(node, start, m, plan[i][j].gpuName);
      assert forall j :: 0 <= j < |plan[i]| ==> Listed(node, start, m, plan[i][j].gpuName);
    }
  }

  lemma PlanIsClean(node: NodeInfo, known: set<string>, requests: seq<Resources>, sameGpu: set<int>,
                    gpuMaps: seq<set<string>>, plan: seq<seq<Card>>, shared: seq<Card>)
    requires gpuMaps != [] && |plan| == |requests| && PlanCards(node, known, requests, sameGpu, gpuMaps, plan, shared)
    requires forall m, c :: m in gpuMaps && c in m ==> CleanName(c)
    ensures CleanPlan(plan)
  {
    forall i | 0 <= i < |plan| ensures CleanCards(plan[i]) {
      if i !in sameGpu {
        assert ListedIn(node, known, requests[i], gpuMaps, plan[i]);
      }
    }
  }

  lemma OneTileInPlan(node: NodeInfo, known: set<string>, requests: seq<Resources>, gpuMaps: seq<set<string>>,
                      plan: seq<seq<Card>>, shared: seq<Card>)
    requires gpuMaps != [] && |plan| == |requests| && PlanCards(node, known, requests, {}, gpuMaps, plan, shared)
    requires OneTileRequests(requests)
    ensures OneTilePerCard(requests, plan)
  {
    forall i | 0 <= i < |plan| && plan[i] != [] ensures TilesPerCard(requests[i], |plan[i]|) <= 1 {
      assert ListedIn(node, known, requests[i], gpuMaps, plan[i]);
    }
  }

  /** What planning promises for the annotations it prints: there is a plan that fits next to the amounts that
      were read, and the tiles chosen for it are as many as planned, distinct, and neither disabled nor in use. */
  ghost predicate PlanOutcome(node: NodeInfo, lower: NodeTiles, resources: NodeResources, requests: seq<Resources>,
                              annotation: string, tileAnnotation: string) {
    exists plan, choice :: OutcomeOf(node, lower, resources, requests, annotation, tileAnnotation, plan, choice)
  }

  ghost predicate OutcomeOf(node: NodeInfo, lower: NodeTiles, resources: NodeResources, requests: seq<Resources>,
                            annotation: string, tileAnnotation: string, plan: seq<seq<Card>>, choice: seq<seq<seq<int>>>) {
    && plan != [] && |plan| == |requests| && CleanPlan(plan)
    && SharesNonNegative(PlannedAllocs(requests, plan))
    && Fitting(PerGpuCapacity(node), resources, PlannedAllocs(requests, plan))
    && annotation == Join(CardTexts(plan), '|')
    && ChoiceShape(plan, choice) && tileAnnotation == Join(TileTexts(requests, plan, choice), '|')
    && ChosenWhereAsked(requests, choice)
    && ChosenSoFar(node, lower, PlanEntries(plan, choice), PlannedAllocs(requests, plan), |plan|, 0)
  }

  /** The used tiles of every card are the ones that are counted, and counting the disabled ones as well
      cannot overflow. */
  ghost predicate CountedTiles(node: NodeInfo, upper: NodeTiles, resources: NodeResources) {
    forall c :: |TilesAt(upper, c)| == AmountAt(resources, c, TILES) && TileHeadroom(node, resources, c)
  }

  /** For every card the planned use fits next to the given amounts. */
  ghost predicate Fitting(capacity: Resources, resources: NodeResources, allocs: seq<Alloc>) {
    forall c, k :: Use(allocs, c, k) > 0 ==> AmountAt(resources, c, k) + Use(allocs, c, k) <= CapOf(capacity, k)
  }

  /** Xe-linked containers ask for at most as many tiles as GPUs. */
  predicate OneTileRequests(requests: seq<Resources>) {
    forall r :: r in requests && NumGpu(r) >= 1 ==> TilesPerCard(r, NumGpu(r)) <= 1
  }
}
