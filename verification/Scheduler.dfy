/** scheduler.go: the planner. It works on a private copy of the node's use, places every container,
    picks tile indices and prints both annotations. */
module Scheduler {
  import opened Text
  import opened ResourceArithmetic
  import opened Allocations
  import opened Annotations
  import opened Ordering
  import opened Placement
  import opened TilePlacement
  import opened NodeResourceCache
  import opened FirstFit
  import opened SharedGpu
  import opened Leftovers
  import opened XeLinks
  import opened XeSearch
  import opened PodPlans
  import opened AnnotationPrinting

  class Extender {
    const node: NodeInfo
    /** The resource to balance on; empty when none is. */
    const balanced: string
    /** What the n-th read of the shared tile status returns. */
    const statusRead: nat -> NodeTiles
    /** The shared tile status can only shrink between a first and a last moment. */
    ghost const upper: NodeTiles
    ghost const lower: NodeTiles

    var clock: nat
    /** nodeResourcesUsed and nodeTilesAllocating. */
    var used: NodeResources
    var allocating: NodeTiles

    ghost predicate ReadsBetween() {
      forall i: nat, c :: TilesAt(lower, c) <= TilesAt(statusRead(i), c) <= TilesAt(upper, c)
    }

    constructor (node: NodeInfo, balanced: string, statusRead: nat -> NodeTiles, resources: NodeResources,
                 ghost upper: NodeTiles, ghost lower: NodeTiles)
      ensures this.node == node && this.balanced == balanced && this.statusRead == statusRead
      ensures this.upper == upper && this.lower == lower
      ensures used == resources && allocating == map[] && clock == 0
    {
      this.node, this.balanced, this.statusRead, this.upper, this.lower := node, balanced, statusRead, upper, lower;
      used, allocating, clock := resources, map[], 0;
    }

    function Capacity(): Resources { PerGpuCapacity(node) }

    ghost function Copy(): XeState
      reads this
    {
      XeState(used, allocating)
    }

    /** The statuses read between two moments. */
    ghost function Seen(from: nat, to: nat): set<NodeTiles> { set i | from <= i < to :: statusRead(i) }

    method ReadTileStatus() returns (status: NodeTiles)
      requires ReadsBetween()
      modifies this`clock
      ensures status == statusRead(old(clock)) && clock == old(clock) + 1
      ensures forall c :: TilesAt(lower, c) <= TilesAt(status, c) <= TilesAt(upper, c)
    {
      status := statusRead(clock);
      clock := clock + 1;
    }

    static method CheckResourceCapacity(needed: Resources, capacity: Resources, usedRes: Resources) returns (ok: bool)
      ensures ok == Fits(needed, capacity, usedRes)
    {
      var todo := needed.Keys;
      while todo != {}
        invariant todo <= needed.Keys
        invariant forall k :: k in needed && k !in todo ==> FitsOne(needed[k], capacity, usedRes, k)
        decreases todo
      {
        var resName :| resName in todo;
        var resNeed := needed[resName];
        assert resName in needed;
        if resNeed < 0 {
          return false;
        }
        if resName !in capacity || capacity[resName] <= 0 {
          return false;
        }
        var resUsed: int64 := if resName in usedRes then usedRes[resName] else 0;
        if resUsed < 0 {
          return false;
        }
        if WrapAdd(resUsed, resNeed) < 0 {
          return false;
        }
        if capacity[resName] < WrapAdd(resUsed, resNeed) {
          return false;
        }
        todo := todo - {resName};
      }
      ok := true;
    }

    method ArrangedNames() returns (names: seq<string>)
      ensures Arranged(node, balanced, used, names)
    {
      names := SortNames(used.Keys);
      if balanced != "" {
        names := ArrangePerAvailability(used, names, GPU_PREFIX + balanced, used.Keys);
      } else if node.preferredCard != "" {
        ghost var sorted := names;
        names := MovePreferredToFront(names, node.preferredCard, used.Keys);
        if node.preferredCard in used {
          ghost var i :| 0 <= i < |sorted| && sorted[i] == node.preferredCard && names == sorted[0 := sorted[i]][i := sorted[0]];
          SwapArranges(node, used, sorted, i);
        }
      }
    }

    /** One search of the first-fit loop. */
    method FitOne(share: Resources, gpuMap: set<string>, taken: set<string>) returns (card: Option<string>)
      modifies this`used
      ensures card.None? ==> used == old(used) && Eligible(node, Capacity(), used, share, gpuMap) <= taken
      ensures card.Some? ==>
                && card.value in Eligible(node, Capacity(), old(used), share, gpuMap) - taken
                && card.value == FirstOf(node, balanced, old(used), Eligible(node, Capacity(), old(used), share, gpuMap) - taken)
                && AdjustCard(old(used), share, card.value, true) == Some(used)
                && forall c :: c in Eligible(node, Capacity(), old(used), share, gpuMap) && c !in taken && c != card.value ==>
                     Preferred(node, balanced, old(used), card.value, c)
      ensures card.Some? && balanced != "" ==>
        forall c :: c in Eligible(node, Capacity(), old(used), share, gpuMap) - taken ==>
          var key := GPU_PREFIX + balanced;
          && AmountAt(old(used), card.value, key) <= AmountAt(old(used), c, key)
          && (AmountAt(old(used), card.value, key) == AmountAt(old(used), c, key) ==> LexLe(card.value, c))
    {
      var gpuNames := ArrangedNames();
      var i := 0;
      while i < |gpuNames|
        invariant 0 <= i <= |gpuNames| && used == old(used)
        invariant forall j :: 0 <= j < i ==> gpuNames[j] !in Eligible(node, Capacity(), used, share, gpuMap) - taken
      {
        var gpuName := gpuNames[i];
        assert gpuName in used.Keys;
        if Available(node, gpuMap, taken, gpuName) {
          var fits := CheckResourceCapacity(share, Capacity(), used[gpuName]);
          if fits {
            var rm := new ResourceMap(used[gpuName]);
            FittingAddSucceeds(share, Capacity(), used[gpuName]);
            var _ := rm.AddRM(share);
            used := used[gpuName := rm.amounts];
            forall c | c in Eligible(node, Capacity(), old(used), share, gpuMap) && c !in taken && c != gpuName
              ensures Preferred(node, balanced, old(used), gpuName, c)
            {
              assert c in gpuNames;
              var j :| 0 <= j < |gpuNames| && gpuNames[j] == c;
              assert j > i;
            }
            FirstOfIs(node, balanced, old(used), Eligible(node, Capacity(), old(used), share, gpuMap) - taken, gpuName);
            if balanced != "" {
              FirstIsLeastUsed(node, balanced, old(used), Eligible(node, Capacity(), old(used), share, gpuMap) - taken);
            }
            return Some(gpuName);
          }
        }
        i := i + 1;
      }
      forall c | c in Eligible(node, Capacity(), used, share, gpuMap) ensures c in taken {
        assert c in gpuNames;
      }
      card := None;
    }

    /** Per-container placement: first fit. It succeeds exactly when there are at least as many eligible cards as
        GPUs are requested; a failed attempt leaves what it had placed so far in the copy. */
    method GetCards(request: Resources, gpuMap: set<string>) returns (cards: Option<seq<Card>>)
      modifies this`used
      ensures Realizes(cards, used, PlaceCards(node, balanced, old(used), PerGpuRequest(request), gpuMap, NumGpu(request), {}))
      ensures cards.Some? <==> NumGpu(request) <= |Eligible(node, Capacity(), old(used), PerGpuRequest(request), gpuMap)|
      ensures cards.Some? ==>
                && |cards.value| == NumGpu(request)
                && PickedWell(node, balanced, Capacity(), old(used), PerGpuRequest(request), gpuMap, Names(cards.value))
                && AdjustCards(old(used), PerGpuRequest(request), Names(cards.value), true) == Some(used)
                && forall i :: 0 <= i < |cards.value| ==> cards.value[i].xeLinkedTileIds == []
      ensures cards.Some? && balanced != "" ==>
        LeastUsedFirst(GPU_PREFIX + balanced, old(used),
                       Eligible(node, Capacity(), old(used), PerGpuRequest(request), gpuMap), Names(cards.value))
      ensures Grown(old(used), used, Capacity())
    {
      var share, numGpu := PerGpuRequest(request), NumGpu(request);
      ghost var start := used;
      var picked: seq<Card> := [];
      var taken := {};
      var gpuNum := 0;
      assert OnTheWay(node, balanced, start, used, share, gpuMap, numGpu, picked, taken);
      while gpuNum < numGpu
        invariant 0 <= gpuNum <= numGpu && |picked| == gpuNum
        invariant OnTheWay(node, balanced, start, used, share, gpuMap, numGpu, picked, taken)
      {
        var card := PlaceOne(share, gpuMap, taken, start, picked, numGpu);
        if card.None? {
          return None;
        }
        picked := picked + [Card(card.value, [])];
        taken := taken + {card.value};
        gpuNum := gpuNum + 1;
      }
      AllPlaced(node, balanced, start, used, share, gpuMap, numGpu, picked, taken);
      if balanced != "" {
        PickedLeastUsed(node, balanced, start, share, gpuMap, Names(picked));
      }
      cards := Some(picked);
    }

    method PlaceOne(share: Resources, gpuMap: set<string>, taken: set<string>, ghost start: NodeResources,
                    ghost picked: seq<Card>, ghost n: int)
      returns (card: Option<string>)
      requires OnTheWay(node, balanced, start, used, share, gpuMap, n, picked, taken) && |picked| < n
      modifies this`used
      ensures card.Some? ==>
        OnTheWay(node, balanced, start, used, share, gpuMap, n, picked + [Card(card.value, [])], taken + {card.value})
      ensures card.None? ==> used == old(used) && |picked| == |Eligible(node, Capacity(), start, share, gpuMap)|
      ensures card.None? ==> PlaceCards(node, balanced, start, share, gpuMap, n, {}) == Placed(Names(picked), used, false)
    {
      card := FitOne(share, gpuMap, taken);
      if card.Some? {
        PlacingOneMore(node, balanced, start, old(used), used, share, gpuMap, Names(picked), taken, card.value);
        OneCardFurther(node, balanced, start, old(used), used, share, gpuMap, n, picked, taken, card.value);
      } else {
        PlacingCount(node, balanced, start, used, share, gpuMap, Names(picked), taken);
        PlaceCardsEnds(node, balanced, used, share, gpuMap, n - |picked|, taken);
        assert Names(picked) + [] == Names(picked);
      }
    }

    // ---- same-GPU containers ----

    static method SanitizeSamegpuRequests(indices: set<int>, requests: seq<Resources>) returns (err: Option<Error>)
      requires forall i :: i in indices ==> 0 <= i < |requests|
      ensures err.None? <==> forall i :: i in indices ==> SameGpuRequest(requests[i])
      ensures err.None? <==> forall i :: i in indices ==>
        && "gpu.intel.com/tiles" !in requests[i]
        && "gpu.intel.com/i915_monitoring" !in requests[i] && "gpu.intel.com/xe_monitoring" !in requests[i]
        && var xe, i915 := Amount(requests[i], "gpu.intel.com/xe"), Amount(requests[i], "gpu.intel.com/i915");
           xe == 1 || (xe <= 0 && i915 == 1)
      ensures err.None? || err == Some(ErrResConflict)
    {
      var todo := indices;
      while todo != {}
        invariant todo <= indices
        invariant forall i :: i in indices - todo ==> SameGpuRequest(requests[i])
        decreases todo
      {
        var idx := AnyOf(todo);
        var request := requests[idx];
        assert idx in indices;
        if TILES in request || I915_MONITORING in request || XE_MONITORING in request {
          return Some(ErrResConflict);
        }
        if NumGpu(request) != 1 {
          return Some(ErrResConflict);
        }
        todo := todo - {idx};
      }
      err := None;
    }

    /** The sum of the listed requests, with the plugin resource replaced by a single unit. The requests
        are added in any order; that fails exactly when one is negative or a sum overflows. */
    static method CombineSamegpuRequests(indices: set<int>, requests: seq<Resources>)
      returns (combined: Resources, ghost sum: Resources, err: Option<Error>)
      requires forall i :: i in indices ==> 0 <= i < |requests|
      ensures err.None? <==> Combinable(requests, indices)
      ensures err.None? ==> CombinedWell(combined, requests, indices) && combined == CombinedRequest(requests, indices)
      ensures err.None? ==> SumsTo(sum, requests, indices) && combined == sum[PluginName(sum) := 1]
    {
      var rm := new ResourceMap(map[]);
      combined, sum := map[], map[];
      var todo := indices;
      ghost var done := {};
      forall k ensures SelectedSum(requests, {}, k) == 0 {
        SelectedSumNone(requests, k);
      }
      while todo != {}
        invariant todo + done == indices && todo * done == {}
        invariant SumsTo(rm.amounts, requests, done) && NonNegative(rm.amounts)
        invariant rm.amounts.Keys == KeysOf(requests, done)
        invariant forall i :: i in done ==> NonNegative(requests[i])
        decreases todo
      {
        var index := AnyOf(todo);
        ghost var before := rm.amounts;
        err := rm.AddRM(requests[index]);
        if err.Some? {
          NotCombinable(before, requests, done, index, indices);
          return;
        }
        CombinedOneMore(before, rm.amounts, requests, done, index);
        todo, done := todo - {index}, done + {index};
      }
      assert done == indices;
      sum := rm.amounts;
      combined := rm.amounts[PluginName(rm.amounts) := 1];
      err := None;
      CombinedIs(sum, combined, requests, indices);
    }

    method PruneByPlugin(gpuMap: set<string>, plugin: string, needed: int) returns (pruned: set<string>)
      ensures pruned == WithPluginRoom(node, used, gpuMap, plugin, needed)
    {
      pruned := gpuMap;
      var todo := used.Keys;
      while todo != {}
        invariant todo <= used.Keys
        invariant pruned == set c | c in gpuMap && !(c in used.Keys - todo && PluginRoom(Capacity(), used[c], plugin) < needed)
        decreases todo
      {
        var gpuName :| gpuName in todo;
        if PluginRoom(Capacity(), used[gpuName], plugin) < needed {
          pruned := pruned - {gpuName};
        }
        todo := todo - {gpuName};
      }
    }

    /** All listed containers get one card. Its use rises by the sum of their requests; the plugin units rise
        by the number of containers, although the search asks for one unit only. */
    method GetCardForSamegpu(indices: set<int>, requests: seq<Resources>, gpuMap: set<string>)
      returns (cards: Option<seq<Card>>)
      requires indices != {} && forall i :: i in indices ==> 0 <= i < |requests|
      modifies this`used
      ensures Grown(old(used), used, Capacity())
      ensures cards.Some? <==> MayShare(requests, indices) && Shareable(node, old(used), requests, indices, gpuMap) != {}
      ensures Realizes(cards, used, PlaceSameGpu(node, balanced, old(used), requests, indices, gpuMap))
      ensures cards.Some? ==>
                && |cards.value| == 1 && cards.value[0].xeLinkedTileIds == []
                && Listed(node, old(used), gpuMap, cards.value[0].gpuName)
                && (forall i :: i in indices ==> SameGpuRequest(requests[i]) && NonNegative(requests[i]))
                && SameGpuAdded(old(used), used, requests, indices, cards.value[0].gpuName)
    {
      ghost var start := used;
      var err := SanitizeSamegpuRequests(indices, requests);
      if err.Some? {
        NoneShared(node, balanced, used, requests, indices, gpuMap);
        return None;
      }
      ghost var sum;
      var combined;
      combined, sum, err := CombineSamegpuRequests(indices, requests);
      if err.Some? {
        NoneShared(node, balanced, used, requests, indices, gpuMap);
        return None;
      }
      var plugin := PluginName(combined);
      assert plugin == PluginName(sum);
      cards := FindSamegpuCard(combined, plugin, |indices|, gpuMap);
      if cards.None? {
        NoneShared(node, balanced, used, requests, indices, gpuMap);
        return;
      }
      PlaceSamegpu(indices, requests, sum, plugin, cards.value[0].gpuName, start);
      OneShared(node, balanced, start, used, requests, indices, gpuMap, combined, cards.value);
    }

    /** The search asks for one plugin unit, on a card that has room for n. */
    method FindSamegpuCard(combined: Resources, plugin: string, n: nat, gpuMap: set<string>)
      returns (cards: Option<seq<Card>>)
      requires n >= 1 && plugin == PluginName(combined) && plugin in combined && combined[plugin] == 1
      modifies this`used
      ensures Grown(old(used), used, Capacity())
      ensures cards.None? <==>
        Eligible(node, Capacity(), old(used), combined, WithPluginRoom(node, old(used), gpuMap, plugin, n)) == {}
      ensures cards.None? ==> used == old(used)
      ensures cards.Some? ==>
                && |cards.value| == 1 && cards.value[0].xeLinkedTileIds == []
                && cards.value[0].gpuName == FirstOf(node, balanced, old(used),
                     Eligible(node, Capacity(), old(used), combined, WithPluginRoom(node, old(used), gpuMap, plugin, n)))
                && SamegpuFound(node, old(used), used, combined, plugin, n, gpuMap, cards.value[0].gpuName)
    {
      ghost var start := used;
      var pruned := PruneByPlugin(gpuMap, plugin, n);
      assert NumGpu(combined) == 1 && PerGpuRequest(combined) == combined;
      cards := GetCards(combined, pruned);
      PlaceOneCard(node, balanced, start, combined, pruned);
      if cards.Some? {
        assert Names(cards.value)[0] == cards.value[0].gpuName;
        SameGpuPlaced(node, balanced, start, used, combined, plugin, n, gpuMap, pruned, cards.value);
      }
    }

    /** The bookkeeping after the search: the remaining plugin units go to the card that was found. */
    method PlaceSamegpu(indices: set<int>, requests: seq<Resources>, ghost sum: Resources, plugin: string, card: string,
                        ghost start: NodeResources)
      requires indices != {} && forall i :: i in indices ==> 0 <= i < |requests|
      requires forall i :: i in indices ==> SameGpuRequest(requests[i]) && NonNegative(requests[i])
      requires SumsTo(sum, requests, indices) && plugin == PluginName(sum)
      requires card in start && card in used && Fits(sum[plugin := 1], Capacity(), start[card])
      requires |indices| <= MAX_INT64 && AmountAt(start, card, plugin) + |indices| <= CapOf(Capacity(), plugin)
      requires AdjustCard(start, sum[plugin := 1], card, true) == Some(used)
      requires AdjustCard(used, map[plugin := |indices| - 1], card, true).Some?
      modifies this`used
      ensures Grown(start, used, Capacity()) && SameGpuAdded(start, used, requests, indices, card)
      ensures used == AfterAdd(old(used), map[plugin := |indices| - 1], card)
    {
      ghost var mid := used;
      Bookkeep(card, plugin, |indices|);
      SameGpuTotals(node, start, mid, used, requests, indices, sum, card);
    }

    method Bookkeep(card: string, plugin: string, n: int)
      requires 1 <= n <= MAX_INT64 && card in used
      requires AdjustCard(used, map[plugin := n - 1], card, true).Some?
      modifies this`used
      ensures AdjustCard(old(used), map[plugin := n - 1], card, true) == Some(used)
    {
      var rm := new ResourceMap(used[card]);
      var _ := rm.AddRM(map[plugin := n - 1]);
      used := used[card := rm.amounts];
    }

    // ---- Xe-linked pairs ----

    static method SanitizeTiles(tilesMap: map<string, seq<int>>,
                                tilesPerGpu: int) returns (sanitized: map<string, seq<int>>)
      ensures sanitized.Keys == tilesMap.Keys
      ensures forall c :: c in tilesMap ==> sanitized[c] == Sanitized(tilesMap[c], tilesPerGpu)
    {
      sanitized := map[];
      var todo := tilesMap.Keys;
      while todo != {}
        invariant todo <= tilesMap.Keys && sanitized.Keys == tilesMap.Keys - todo
        invariant forall c :: c in sanitized ==> sanitized[c] == Sanitized(tilesMap[c], tilesPerGpu)
        decreases todo
      {
        var card :| card in todo;
        var stiles := SanitizeList(tilesMap[card], tilesPerGpu);
        sanitized := sanitized[card := stiles];
        todo := todo - {card};
      }
    }

    static method SanitizeList(tiles: seq<int>, tilesPerGpu: int) returns (stiles: seq<int>)
      ensures stiles == Sanitized(tiles, tilesPerGpu)
    {
      stiles := [];
      var i := 0;
      while i < |tiles|
        invariant 0 <= i <= |tiles| && stiles == Sanitized(tiles[..i], tilesPerGpu)
      {
        assert tiles[..i + 1][..i] == tiles[..i];
        if tiles[i] < tilesPerGpu {
          stiles := stiles + [tiles[i]];
        }
        i := i + 1;
      }
      assert tiles[..i] == tiles;
    }

    /** Each list of the source is appended to the card's list. */
    static method CombineMappings(source: map<string, seq<int>>, dest: map<string, seq<int>>)
      returns (combined: map<string, seq<int>>)
      ensures combined.Keys == source.Keys + dest.Keys
      ensures forall c :: ListAt(combined, c) == ListAt(dest, c) + ListAt(source, c)
    {
      combined := dest;
      var todo := source.Keys;
      while todo != {}
        invariant todo <= source.Keys && combined.Keys == dest.Keys + (source.Keys - todo)
        invariant forall c :: ListAt(combined, c) == ListAt(dest, c) + (if c in todo then [] else ListAt(source, c))
        decreases todo
      {
        var card :| card in todo;
        combined := combined[card := (if card in combined then combined[card] else []) + source[card]];
        todo := todo - {card};
      }
    }

    /** The used tiles as lists, in any order. */
    static method TileLists(tiles: NodeTiles) returns (lists: map<string, seq<int>>)
      ensures forall c :: TileSet(ListAt(lists, c)) == TilesAt(tiles, c)
    {
      lists := map[];
      var todo := tiles.Keys;
      while todo != {}
        invariant todo <= tiles.Keys
        invariant forall c :: TileSet(ListAt(lists, c)) == if c in todo then {} else TilesAt(tiles, c)
        decreases todo
      {
        var card :| card in todo;
        var list := MapKeys(tiles[card]);
        lists := lists[card := list];
        todo := todo - {card};
      }
    }

    /** Disabled, descheduled, used and currently allocated tiles. */
    method CreateUnavailableTilesStat() returns (unavailable: NodeTiles)
      requires ReadsBetween()
      modifies this`clock
      ensures clock == old(clock) + 1
      ensures forall c :: TilesAt(unavailable, c)
                       == TilesAt(statusRead(old(clock)), c) + DisabledTiles(node, c) + TilesAt(allocating, c)
    {
      var tilesPerGpu := Amount(Capacity(), TILES);
      var disabledTilesMap := SanitizeTiles(node.disabled, tilesPerGpu);
      var status := ReadTileStatus();
      var usedTilesStats := TileLists(status);
      var combined := CombineMappings(disabledTilesMap, usedTilesStats);
      var unusableTiles := TileLists(allocating);
      var all := CombineMappings(unusableTiles, combined);
      unavailable := TileSets(all);
      forall c
        ensures TilesAt(unavailable, c) == TilesAt(status, c) + DisabledTiles(node, c) + TilesAt(allocating, c)
      {
        JoinedLists(all, ListAt(combined, c), ListAt(unusableTiles, c), c);
        JoinedLists(combined, ListAt(usedTilesStats, c), ListAt(disabledTilesMap, c), c);
        assert TilesAt(TileSets(combined), c) == TileSet(ListAt(combined, c));
      }
    }

    function XeAvailable(status: NodeTiles, card: string): set<int>
      reads this
    {
      XeTiles(node, card) - (TilesAt(status, card) + DisabledTiles(node, card) + TilesAt(allocating, card))
    }

    method CreateAvailableXeLinkedTilesStat(gpuNames: seq<string>) returns (available: NodeTiles)
      requires ReadsBetween()
      modifies this`clock
      ensures clock == old(clock) + 1
      ensures available.Keys == set c | c in gpuNames
      ensures forall c :: c in gpuNames ==> available[c] == XeAvailable(statusRead(old(clock)), c)
      ensures forall c, t :: c in gpuNames ==>
        (t in available[c] <==>
           Linked(node.links, DeviceId(node, c), t) && Clear(node, Copy(), statusRead(old(clock)), c, t))
    {
      var unavailable := CreateUnavailableTilesStat();
      available := map[];
      var i := 0;
      while i < |gpuNames|
        invariant 0 <= i <= |gpuNames|
        invariant available.Keys == set c | c in gpuNames[..i]
        invariant forall c :: c in gpuNames[..i] ==> available[c] == XeTiles(node, c) - TilesAt(unavailable, c)
      {
        var gpuName := gpuNames[i];
        var free := XeTiles(node, gpuName) - (if gpuName in unavailable then unavailable[gpuName] else {});
        available := available[gpuName := free];
        assert gpuNames[..i + 1] == gpuNames[..i] + [gpuName];
        i := i + 1;
      }
      assert gpuNames[..i] == gpuNames;
      forall c, t | c in gpuNames
        ensures t in available[c] <==>
          Linked(node.links, DeviceId(node, c), t) && Clear(node, Copy(), statusRead(old(clock)), c, t)
      {
        OfferedMeans(node, Copy(), statusRead(old(clock)), c, t);
      }
    }

    method AddShare(card: string, share: Resources)
      requires card in used && AdjustCard(used, share, card, true).Some?
      modifies this`used
      ensures AdjustCard(old(used), share, card, true) == Some(used)
    {
      var rm := new ResourceMap(used[card]);
      var _ := rm.AddRM(share);
      used := used[card := rm.amounts];
    }

    method MarkAllocating(card: Card)
      modifies this`allocating
      ensures allocating == Marked(old(allocating), card)
    {
      var tiles := if card.gpuName in allocating then allocating[card.gpuName] else {};
      allocating := allocating[card.gpuName := tiles + TileSet(card.xeLinkedTileIds)];
    }

    /** The search over the free linked tiles of one card, in any order. */
    method FindLinkedTile(gpuName: string, share: Resources, available: NodeTiles, gpuMap: set<string>, taken: set<string>)
      returns (tile: Option<int>)
      requires gpuName in used && Available(node, gpuMap, taken, gpuName) && Fits(share, Capacity(), used[gpuName])
      ensures tile.Some? ==> PairFits(node, used, share, gpuMap, taken, available, gpuName, tile.value)
      ensures tile.None? ==> forall t :: !PairFits(node, used, share, gpuMap, taken, available, gpuName, t)
    {
      var todo := if gpuName in available then available[gpuName] else {};
      while todo != {}
        invariant todo <= TilesAt(available, gpuName)
        invariant forall t :: t !in todo ==> !PairFits(node, used, share, gpuMap, taken, available, gpuName, t)
        decreases todo
      {
        var tileIndex := AnyOf(todo);
        var (linkedGpuName, linkedTileID) := LinkedGpu(node, gpuName, tileIndex);
        if Available(node, gpuMap, taken, linkedGpuName) && linkedGpuName in used
           && linkedGpuName in available && linkedTileID in available[linkedGpuName] {
          var linkedFits := CheckResourceCapacity(share, Capacity(), used[linkedGpuName]);
          if linkedFits {
            return Some(tileIndex);
          }
        }
        todo := todo - {tileIndex};
      }
      tile := None;
    }

    method AddPair(share: Resources, ghost available: NodeTiles, ghost gpuMap: set<string>, ghost taken: set<string>,
                   a: Card, b: Card)
      requires NoSelfLinks(node) && "" !in gpuMap
      requires |a.xeLinkedTileIds| == |b.xeLinkedTileIds| == 1
      requires PairFits(node, used, share, gpuMap, taken, available, a.gpuName, a.xeLinkedTileIds[0])
      requires (b.gpuName, b.xeLinkedTileIds[0]) == LinkedGpu(node, a.gpuName, a.xeLinkedTileIds[0])
      modifies this`used, this`allocating
      ensures AdjustCards(old(used), share, [a.gpuName, b.gpuName], true) == Some(used)
      ensures allocating == MarkedPair(old(allocating), a, b)
    {
      PairAdds(node, used, share, gpuMap, taken, available, a.gpuName, a.xeLinkedTileIds[0]);
      AddShare(a.gpuName, share);
      AddShare(b.gpuName, share);
      MarkAllocating(a);
      MarkAllocating(b);
    }

    /** A pair is found exactly when one exists. */
    method FindXeLinkedGPUPair(gpuNames: seq<string>, share: Resources, available: NodeTiles, gpuMap: set<string>,
                               taken: set<string>)
      returns (pair: Option<(Card, Card)>)
      requires NoSelfLinks(node) && "" !in gpuMap
      requires Holds(gpuNames, used.Keys)
      modifies this`used, this`allocating
      ensures pair.Some? <==> PairExists(node, old(used), share, gpuMap, taken, available)
      ensures pair.Some? <==> SomeLinkOffers(node, old(used), share, gpuMap, taken, available)
      ensures pair.None? ==> used == old(used) && allocating == old(allocating)
      ensures pair.Some? ==>
                && var (a, b) := pair.value;
                   && |a.xeLinkedTileIds| == |b.xeLinkedTileIds| == 1
                   && PairFits(node, old(used), share, gpuMap, taken, available, a.gpuName, a.xeLinkedTileIds[0])
                   && (b.gpuName, b.xeLinkedTileIds[0]) == LinkedGpu(node, a.gpuName, a.xeLinkedTileIds[0])
                   && AdjustCards(old(used), share, [a.gpuName, b.gpuName], true) == Some(used)
                   && allocating == MarkedPair(old(allocating), a, b)
      ensures pair.Some? ==>
        exists i :: 0 <= i < |gpuNames| && gpuNames[i] == pair.value.0.gpuName
          && forall j, t :: 0 <= j < i ==> !PairFits(node, old(used), share, gpuMap, taken, available, gpuNames[j], t)
    {
      PairIsLink(node, used, share, gpuMap, taken, available);
      var i := 0;
      while i < |gpuNames|
        invariant 0 <= i <= |gpuNames| && used == old(used) && allocating == old(allocating)
        invariant forall j, t :: 0 <= j < i ==> !PairFits(node, used, share, gpuMap, taken, available, gpuNames[j], t)
      {
        var gpuName := gpuNames[i];
        assert gpuName in used.Keys;
        var fits := CheckResourceCapacity(share, Capacity(), used[gpuName]);
        if Available(node, gpuMap, taken, gpuName) && fits {
          var tile := FindLinkedTile(gpuName, share, available, gpuMap, taken);
          if tile.Some? {
            var (linkedGpuName, linkedTileID) := LinkedGpu(node, gpuName, tile.value);
            var a, b := Card(gpuName, [tile.value]), Card(linkedGpuName, [linkedTileID]);
            AddPair(share, available, gpuMap, taken, a, b);
            return Some((a, b));
          }
        }
        i := i + 1;
      }
      forall card, tile ensures !PairFits(node, used, share, gpuMap, taken, available, card, tile) {
        assert card in used ==> card in gpuNames;
      }
      pair := None;
    }

    /** Xe-linked placement of one container, two cards at a time. An odd request is refused. */
    method GetXELinkedCards(request: Resources, gpuMap: set<string>) returns (cards: Option<seq<Card>>)
      requires ReadsBetween() && NoSelfLinks(node) && "" !in gpuMap
      modifies this`used, this`allocating, this`clock
      ensures Grown(old(used), used, Capacity()) && Kept(old(allocating), allocating)
      ensures NumGpu(request) % 2 != 0 ==> cards.None? && used == old(used) && allocating == old(allocating)
      ensures clock >= old(clock)
      ensures XeAttempt(node, old(Copy()), request, gpuMap, Seen(old(clock), clock), cards, Copy())
      ensures cards.Some? ==>
                && |cards.value| == NumGpu(request)
                && PlacedDistinct(node, old(used), used, PerGpuRequest(request), gpuMap, cards.value)
                && PairTiles(node, lower, old(allocating), allocating, cards.value, NumGpu(request) / 2)
    {
      var share, numGpu := PerGpuRequest(request), NumGpu(request);
      if numGpu % 2 != 0 {
        return None;
      }
      var picked: seq<Card> := [];
      var taken := {};
      var gpuNum := 0;
      ghost var half, pairs := numGpu / 2, 0;
      assert numGpu == 2 * half;
      ghost var start, before, copy, first := used, allocating, Copy(), clock;
      NoPairsYet(node, lower, used, allocating, share, gpuMap);
      while gpuNum < numGpu
        invariant gpuNum == 2 * pairs && 0 <= pairs <= half && |picked| == gpuNum && clock >= first
        invariant PairsPicked(node, copy, share, gpuMap, picked, Seen(first, clock), Copy())
        invariant PairsPlaced(node, start, used, share, gpuMap, picked, taken)
        invariant PairTiles(node, lower, before, allocating, picked, pairs)
      {
        assert pairs < half;
        var pair := PlacePair(share, gpuMap, picked, pairs, taken, start, before, numGpu, copy, first);
        if pair.None? {
          KeptByPairs(node, lower, before, allocating, picked, pairs);
          return None;
        }
        picked := picked + [pair.value.0, pair.value.1];
        taken := taken + {pair.value.0.gpuName, pair.value.1.gpuName};
        gpuNum, pairs := gpuNum + 2, pairs + 1;
      }
      KeptByPairs(node, lower, before, allocating, picked, pairs);
      cards := Some(picked);
    }

    lemma AllOffered(gpuNames: seq<string>, status: NodeTiles, available: NodeTiles)
      requires Holds(gpuNames, used.Keys) && available.Keys == set c | c in gpuNames
      requires forall c :: c in gpuNames ==> available[c] == XeAvailable(status, c)
      ensures available == OfferOf(node, Copy(), status)
    {
    }

    /** One round of the pair search, with a fresh look at the shared tile status. */
    method PlacePair(share: Resources, gpuMap: set<string>, ghost picked: seq<Card>, ghost pairs: nat,
                     taken: set<string>, ghost start: NodeResources, ghost before: NodeTiles, ghost n: int,
                     ghost copy: XeState, ghost first: nat)
      returns (pair: Option<(Card, Card)>)
      requires |picked| < n && first <= clock
      requires ReadsBetween() && NoSelfLinks(node) && "" !in gpuMap
      requires PairsPlaced(node, start, used, share, gpuMap, picked, taken)
      requires PairTiles(node, lower, before, allocating, picked, pairs)
      requires PairsPicked(node, copy, share, gpuMap, picked, Seen(first, clock), Copy())
      modifies this`used, this`allocating, this`clock
      ensures first <= clock && clock >= old(clock)
      ensures pair.None? ==> used == old(used) && allocating == old(allocating)
      ensures pair.None? ==> exists status :: RanOut(node, copy, share, gpuMap, n, picked, Seen(first, clock), status, Copy())
      ensures pair.Some? ==> StartsFirst(old(Copy()), share, gpuMap, taken, statusRead(old(clock)), pair.value.0.gpuName)
      ensures pair.Some? ==>
                PairsPicked(node, copy, share, gpuMap, picked + [pair.value.0, pair.value.1], Seen(first, clock), Copy())
      ensures pair.Some? ==>
                && PairsPlaced(node, start, used, share, gpuMap, picked + [pair.value.0, pair.value.1],
                               taken + {pair.value.0.gpuName, pair.value.1.gpuName})
                && PairTiles(node, lower, before, allocating, picked + [pair.value.0, pair.value.1], pairs + 1)
    {
      ghost var was, read := Copy(), clock;
      var gpuNames, available := OfferTiles();
      assert Seen(first, clock) == Seen(first, read) + {statusRead(read)};
      pair := FindXeLinkedGPUPair(gpuNames, share, available, gpuMap, taken);
      RoundOfSearch(node, copy, share, gpuMap, n, picked, Seen(first, read), Seen(first, clock), statusRead(read), was, taken,
                    pair, Copy());
      if pair.Some? {
        ghost var i :| 0 <= i < |gpuNames| && gpuNames[i] == pair.value.0.gpuName
          && forall j, t :: 0 <= j < i ==> !PairFits(node, was.used, share, gpuMap, taken, available, gpuNames[j], t);
        FirstStart(was, share, gpuMap, taken, statusRead(read), gpuNames, i);
        PairPlaced(node, lower, start, was.used, used, share, gpuMap, before, was.allocating, picked, pairs, taken,
                   statusRead(read), available, pair.value.0, pair.value.1);
      }
    }

    /** Of the cards from which a pair can be had, this one comes first in the order in which cards are tried. */
    ghost predicate StartsFirst(s: XeState, share: Resources, gpuMap: set<string>, taken: set<string>, status: NodeTiles,
                                card: string) {
      forall c, t :: c != card && PairFits(node, s.used, share, gpuMap, taken, OfferOf(node, s, status), c, t) ==>
        Preferred(node, balanced, s.used, card, c)
    }

    lemma FirstStart(s: XeState, share: Resources, gpuMap: set<string>, taken: set<string>, status: NodeTiles,
                     gpuNames: seq<string>, i: nat)
      requires i < |gpuNames| && Arranged(node, balanced, s.used, gpuNames)
      requires forall j, t :: 0 <= j < i ==>
        !PairFits(node, s.used, share, gpuMap, taken, OfferOf(node, s, status), gpuNames[j], t)
      ensures StartsFirst(s, share, gpuMap, taken, status, gpuNames[i])
    {
      forall c, t | c != gpuNames[i] && PairFits(node, s.used, share, gpuMap, taken, OfferOf(node, s, status), c, t)
        ensures Preferred(node, balanced, s.used, gpuNames[i], c)
      {
        assert c in gpuNames;
        var j :| 0 <= j < |gpuNames| && gpuNames[j] == c;
        assert j > i;
      }
    }

    /** The names to search, and the tiles on offer after a fresh look at the tile status. */
    method OfferTiles() returns (gpuNames: seq<string>, available: NodeTiles)
      requires ReadsBetween()
      modifies this`clock
      ensures Arranged(node, balanced, used, gpuNames) && clock == old(clock) + 1
      ensures available == OfferOf(node, Copy(), statusRead(old(clock)))
      ensures Offered(node, lower, statusRead(old(clock)), allocating, available)
    {
      ghost var read := clock;
      gpuNames := ArrangedNames();
      available := CreateAvailableXeLinkedTilesStat(gpuNames);
      OnlyClearOffered(gpuNames, statusRead(read), available);
      AllOffered(gpuNames, statusRead(read), available);
    }

    lemma OnlyClearOffered(gpuNames: seq<string>, status: NodeTiles, available: NodeTiles)
      requires available.Keys == set c | c in gpuNames
      requires forall c :: c in gpuNames ==> available[c] == XeAvailable(status, c)
      requires forall c :: TilesAt(lower, c) <= TilesAt(status, c)
      ensures Offered(node, lower, status, allocating, available)
    {
    }

    // ---- all containers of a pod ----

    /** The groups of cards are tried in turn; what a failed group has placed stays in the copy. */
    method PlaceContainer(request: Resources, gpuMaps: seq<set<string>>, xeLinked: bool) returns (cards: Option<seq<Card>>)
      requires ReadsBetween() && (xeLinked ==> NoSelfLinks(node))
      requires gpuMaps != [] && forall m :: m in gpuMaps ==> "" !in m
      modifies this`used, this`allocating, this`clock
      ensures Grown(old(used), used, Capacity()) && Kept(old(allocating), allocating)
      ensures !xeLinked ==> Realizes(cards, used, PlaceInGroups(node, balanced, old(used), request, gpuMaps))
      ensures !xeLinked && cards.Some? ==>
        (GrowsBy(old(used), used, PerGpuRequest(request), Names(cards.value)) <==> NoLeftover(node, old(used), request, gpuMaps))
      ensures clock >= old(clock)
      ensures xeLinked ==> XeContainer(node, old(Copy()), request, gpuMaps, Seen(old(clock), clock), cards, Copy())
      ensures cards.Some? ==> ContainerPlaced(node, old(used), used, request, gpuMaps, cards.value)
      ensures cards.Some? ==> ContainerTiles(node, lower, xeLinked, old(allocating), allocating, cards.value)
    {
      ghost var start, before, copy, first := used, allocating, Copy(), clock;
      cards := None;
      assert gpuMaps[0..] == gpuMaps;
      var i := 0;
      while i < |gpuMaps| && cards.None?
        invariant 0 <= i <= |gpuMaps| && clock >= first
        invariant (i == |gpuMaps| || cards.Some?) ==> i > 0
        invariant TriedSoFar(start, before, copy, first, request, gpuMaps, xeLinked, i, cards)
      {
        cards := TryNext(request, gpuMaps, i, xeLinked, start, before, copy, first);
        i := i + 1;
      }
      AllTried(start, before, copy, first, request, gpuMaps, xeLinked, i, cards);
    }

    lemma AllTried(start: NodeResources, before: NodeTiles, copy: XeState, first: nat, request: Resources,
                   gpuMaps: seq<set<string>>, xeLinked: bool, i: nat, cards: Option<seq<Card>>)
      requires 0 < i <= |gpuMaps| && (i == |gpuMaps| || cards.Some?)
      requires TriedSoFar(start, before, copy, first, request, gpuMaps, xeLinked, i, cards)
      ensures Grown(start, used, Capacity()) && Kept(before, allocating)
      ensures !xeLinked ==> Realizes(cards, used, PlaceInGroups(node, balanced, start, request, gpuMaps))
      ensures !xeLinked && cards.Some? ==>
        (GrowsBy(start, used, PerGpuRequest(request), Names(cards.value)) <==> NoLeftover(node, start, request, gpuMaps))
      ensures xeLinked ==> XeContainer(node, copy, request, gpuMaps, Seen(first, clock), cards, Copy())
      ensures cards.Some? ==> ContainerPlaced(node, start, used, request, gpuMaps, cards.value)
      ensures cards.Some? ==> ContainerTiles(node, lower, xeLinked, before, allocating, cards.value)
    {
      if !xeLinked {
        GroupsAdd(node, balanced, start, request, gpuMaps);
        assert cards.None? ==> gpuMaps[i..] == [];
      }
    }

    /** What trying the first i groups has come to. */
    ghost predicate TriedSoFar(start: NodeResources, before: NodeTiles, copy: XeState, first: nat, request: Resources,
                               gpuMaps: seq<set<string>>, xeLinked: bool, i: nat, cards: Option<seq<Card>>)
      requires i <= |gpuMaps|
      reads this
    {
      && (cards.None? && i == 0 ==> used == start && allocating == before)
      && (!xeLinked ==> GroupsTried(start, request, gpuMaps, i, cards))
      && (xeLinked ==> XeGroupsTried(copy, first, request, gpuMaps, i, cards))
      && Grown(start, used, Capacity()) && Kept(before, allocating)
      && (cards.Some? ==> ContainerPlaced(node, start, used, request, gpuMaps, cards.value))
      && (cards.Some? ==> ContainerTiles(node, lower, xeLinked, before, allocating, cards.value))
    }

    method TryNext(request: Resources, gpuMaps: seq<set<string>>, i: nat, xeLinked: bool, ghost start: NodeResources,
                   ghost before: NodeTiles, ghost copy: XeState, ghost first: nat) returns (cards: Option<seq<Card>>)
      requires ReadsBetween() && (xeLinked ==> NoSelfLinks(node))
      requires i < |gpuMaps| && "" !in gpuMaps[i] && clock >= first
      requires TriedSoFar(start, before, copy, first, request, gpuMaps, xeLinked, i, None)
      modifies this`used, this`allocating, this`clock
      ensures clock >= old(clock)
      ensures TriedSoFar(start, before, copy, first, request, gpuMaps, xeLinked, i + 1, cards)
    {
      ghost var now, was, read := used, Copy(), clock;
      cards := TryGroup(request, gpuMaps, i, xeLinked, start, before);
      if xeLinked {
        AttemptSeesMore(node, was, request, gpuMaps[i], Seen(read, clock), Seen(first, clock), cards, Copy());
        OneGroupMore(node, copy, request, gpuMaps, i, Seen(first, read), Seen(first, clock), was, cards, Copy());
      } else {
        NextGroupTried(start, now, request, gpuMaps, i, cards);
      }
    }

    /** The first i groups have been tried for linked pairs. */
    ghost predicate XeGroupsTried(copy: XeState, first: nat, request: Resources, gpuMaps: seq<set<string>>, i: nat,
                                  cards: Option<seq<Card>>)
      requires i <= |gpuMaps|
      reads this
    {
      if cards.Some? then XeContainer(node, copy, request, gpuMaps, Seen(first, clock), cards, Copy())
      else XeFailed(node, copy, request, gpuMaps, i, Seen(first, clock), Copy())
    }

    /** The first i groups have been tried: the outcome is known, or it is that of the groups left. */
    ghost predicate GroupsTried(start: NodeResources, request: Resources, gpuMaps: seq<set<string>>, i: nat,
                                cards: Option<seq<Card>>)
      requires i <= |gpuMaps|
      reads this
    {
      var whole := PlaceInGroups(node, balanced, start, request, gpuMaps);
      if cards.Some? then Realizes(cards, used, whole)
      else whole == PlaceInGroups(node, balanced, used, request, gpuMaps[i..])
    }

    lemma NextGroupTried(start: NodeResources, before: NodeResources, request: Resources, gpuMaps: seq<set<string>>, i: nat,
                         cards: Option<seq<Card>>)
      requires i < |gpuMaps|
      requires PlaceInGroups(node, balanced, start, request, gpuMaps) == PlaceInGroups(node, balanced, before, request, gpuMaps[i..])
      requires Realizes(cards, used, PlaceCards(node, balanced, before, PerGpuRequest(request), gpuMaps[i], NumGpu(request), {}))
      ensures GroupsTried(start, request, gpuMaps, i + 1, cards)
    {
      NextGroup(node, balanced, before, request, gpuMaps, i);
    }

    method TryGroup(request: Resources, gpuMaps: seq<set<string>>, i: nat, xeLinked: bool,
                    ghost start: NodeResources, ghost before: NodeTiles) returns (cards: Option<seq<Card>>)
      requires ReadsBetween() && (xeLinked ==> NoSelfLinks(node))
      requires i < |gpuMaps| && "" !in gpuMaps[i]
      requires Grown(start, used, Capacity()) && Kept(before, allocating) && (i == 0 ==> used == start)
      modifies this`used, this`allocating, this`clock
      ensures Grown(start, used, Capacity()) && Kept(before, allocating)
      ensures !xeLinked ==>
        Realizes(cards, used, PlaceCards(node, balanced, old(used), PerGpuRequest(request), gpuMaps[i], NumGpu(request), {}))
      ensures clock >= old(clock)
      ensures xeLinked ==> XeAttempt(node, old(Copy()), request, gpuMaps[i], Seen(old(clock), clock), cards, Copy())
      ensures cards.Some? ==> ContainerPlaced(node, start, used, request, gpuMaps, cards.value)
      ensures cards.Some? ==> ContainerTiles(node, lower, xeLinked, before, allocating, cards.value)
    {
      ghost var mid, marked := used, allocating;
      if xeLinked {
        cards := GetXELinkedCards(request, gpuMaps[i]);
      } else {
        cards := GetCards(request, gpuMaps[i]);
      }
      BoundedTwice(start, mid, used, Capacity());
      KeptTwice(before, marked, allocating);
      if cards.Some? {
        if xeLinked {
          ClearOfEarlier(node, lower, before, marked, cards.value);
        } else {
          EligibleAreListed(node, balanced, mid, request, gpuMaps[i], cards.value);
        }
        ListedAtStart(node, start, mid, request, gpuMaps, i, cards.value);
        PlacedContainer(node, start, mid, used, request, gpuMaps, cards.value);
      }
    }

    /** The state of pod-level planning after the first containers. */
    ghost predicate Planning(start: NodeResources, requests: seq<Resources>, gpuMaps: seq<set<string>>, xeLinked: bool,
                             sameGpu: set<int>, shared: seq<Card>, plan: seq<seq<Card>>)
      reads this
    {
      && Grown(start, used, Capacity())
      && PlanProgress(start, used, requests, plan, sameGpu, SharedName(shared), |gpuMaps| == 1 && OnePluginType(requests, sameGpu))
      && PlanListed(node, start, requests, gpuMaps, plan, sameGpu, shared)
      && PlanTiles(node, lower, xeLinked, plan, allocating)
    }

    method PlaceNext(requests: seq<Resources>, gpuMaps: seq<set<string>>, xeLinked: bool, ghost sameGpu: set<int>,
                     ghost shared: seq<Card>, plan: seq<seq<Card>>, ghost start: NodeResources)
      returns (cards: Option<seq<Card>>)
      requires ReadsBetween() && (xeLinked ==> NoSelfLinks(node))
      requires gpuMaps != [] && forall m :: m in gpuMaps ==> "" !in m
      requires |plan| < |requests| && |plan| !in sameGpu
      requires Planning(start, requests, gpuMaps, xeLinked, sameGpu, shared, plan)
      modifies this`used, this`allocating, this`clock
      ensures Grown(start, used, Capacity())
      ensures !xeLinked ==> Realizes(cards, used, PlaceInGroups(node, balanced, old(used), requests[|plan|], gpuMaps))
      ensures clock >= old(clock)
      ensures xeLinked ==> XeContainer(node, old(Copy()), requests[|plan|], gpuMaps, Seen(old(clock), clock), cards, Copy())
      ensures cards.Some? ==> Planning(start, requests, gpuMaps, xeLinked, sameGpu, shared, plan + [cards.value])
    {
      ghost var now, marked := used, allocating;
      cards := PlaceContainer(requests[|plan|], gpuMaps, xeLinked);
      BoundedTwice(start, now, used, Capacity());
      if cards.Some? {
        ProgressMore(start, now, used, requests, plan, sameGpu, SharedName(shared),
                     |gpuMaps| == 1 && OnePluginType(requests, sameGpu), |gpuMaps| == 1, cards.value);
        PlanTilesMore(node, lower, xeLinked, plan, marked, allocating, cards.value);
        ListedMore(node, start, now, requests, gpuMaps, plan, sameGpu, shared, cards.value);
      }
    }

    /** The same-GPU part of pod-level planning. */
    method PlaceShared(requests: seq<Resources>, sameGpu: set<int>, gpuMaps: seq<set<string>>, xeLinked: bool)
      returns (shared: Option<seq<Card>>)
      requires gpuMaps != [] && forall i :: i in sameGpu ==> 0 <= i < |requests|
      modifies this`used, this`allocating
      ensures Grown(old(used), used, Capacity())
      ensures Realizes(shared, used, PlaceSameGpu(node, balanced, old(used), requests, sameGpu, gpuMaps[0]))
      ensures shared.Some? ==> Planning(old(used), requests, gpuMaps, xeLinked, sameGpu, shared.value, [])
      ensures shared.Some? ==> SharedWell(node, old(used), requests, sameGpu, gpuMaps[0], shared.value)
      ensures shared.Some? ==> allocating == map[]
    {
      ghost var start := used;
      var samegpuCard: seq<Card> := [];
      if sameGpu != {} {
        var found := GetCardForSamegpu(sameGpu, requests, gpuMaps[0]);
        if found.None? {
          return None;
        }
        samegpuCard := found.value;
      }
      allocating := map[];
      ProgressStart(start, used, requests, sameGpu, SharedName(samegpuCard), |gpuMaps| == 1 && OnePluginType(requests, sameGpu));
      shared := Some(samegpuCard);
    }

    /** Pod-level planning: the same-GPU containers first, then the others in order. */
    method CheckForSpaceResourceRequests(requests: seq<Resources>, sameGpu: set<int>, gpuMaps: seq<set<string>>,
                                         xeLinked: bool)
      returns (plan: Option<seq<seq<Card>>>, ghost shared: seq<Card>)
      requires ReadsBetween() && (xeLinked ==> NoSelfLinks(node) && sameGpu == {})
      requires gpuMaps != [] && forall m :: m in gpuMaps ==> "" !in m
      requires forall i :: i in sameGpu ==> 0 <= i < |requests|
      modifies this`used, this`allocating, this`clock
      ensures Grown(old(used), used, Capacity())
      ensures !xeLinked ==> RealizesPod(plan, used, PlacePod(node, balanced, old(used), requests, sameGpu, gpuMaps))
      ensures !xeLinked && plan.Some? ==> |plan.value| == |requests|
      ensures !xeLinked && plan.Some? ==>
        (Grows(old(used), used, PlannedAllocs(requests, plan.value))
         <==> Clean(node, balanced, old(used), requests, sameGpu, gpuMaps))
      ensures clock >= old(clock)
      ensures xeLinked ==>
        XePod(node, XeState(old(used), map[]), requests, gpuMaps, Seen(old(clock), clock), plan, Copy())
      ensures plan.Some? ==>
        PodPlan(node, lower, old(used), used, requests, sameGpu, gpuMaps, xeLinked, plan.value, shared, allocating)
    {
      ghost var start, first := used, clock;
      shared := [];
      var samegpuCard := PlaceShared(requests, sameGpu, gpuMaps, xeLinked);
      if samegpuCard.None? {
        return None, [];
      }
      shared := samegpuCard.value;
      ghost var mid := used;
      var cards: seq<seq<Card>> := [];
      if !xeLinked {
        NothingPlaced(node, balanced, mid, requests, sameGpu, Names(shared), gpuMaps);
      }
      while |cards| < |requests|
        invariant |cards| <= |requests| && clock >= first
        invariant PodPlanning(start, mid, first, requests, gpuMaps, xeLinked, sameGpu, shared, cards)
        decreases |requests| - |cards|
      {
        var placed := PlaceContainerOf(requests, gpuMaps, xeLinked, sameGpu, samegpuCard.value, cards, start, mid, first);
        if placed.None? {
          return None, [];
        }
        cards := cards + [placed.value];
      }
      PodPlanned(start, mid, first, requests, gpuMaps, xeLinked, sameGpu, shared, cards);
      if !xeLinked {
        GrowsExactly(node, balanced, start, requests, sameGpu, gpuMaps);
        PlannedIsNamed(requests, cards);
      }
      plan := Some(cards);
    }

    ghost predicate PodPlanning(start: NodeResources, mid: NodeResources, first: nat, requests: seq<Resources>,
                                gpuMaps: seq<set<string>>, xeLinked: bool, sameGpu: set<int>, shared: seq<Card>,
                                plan: seq<seq<Card>>)
      reads this
    {
      && |plan| <= |requests|
      && Planning(start, requests, gpuMaps, xeLinked, sameGpu, shared, plan)
      && (!xeLinked ==> PodOnTheWay(node, balanced, mid, used, requests, sameGpu, Names(shared), gpuMaps, plan))
      && (xeLinked ==> XePlanned(node, XeState(mid, map[]), requests, gpuMaps, plan, Seen(first, clock), Copy()))
    }

    lemma PodPlanned(start: NodeResources, mid: NodeResources, first: nat, requests: seq<Resources>,
                     gpuMaps: seq<set<string>>, xeLinked: bool, sameGpu: set<int>, shared: seq<Card>,
                     plan: seq<seq<Card>>)
      requires gpuMaps != [] && forall i :: i in sameGpu ==> 0 <= i < |requests|
      requires |plan| == |requests| && PodPlanning(start, mid, first, requests, gpuMaps, xeLinked, sameGpu, shared, plan)
      requires SharedWell(node, start, requests, sameGpu, gpuMaps[0], shared)
      ensures PodPlan(node, lower, start, used, requests, sameGpu, gpuMaps, xeLinked, plan, shared, allocating)
      ensures !xeLinked ==>
        RealizesPod(Some(plan), used, PlaceRest(node, balanced, mid, requests, sameGpu, Names(shared), gpuMaps, 0))
      ensures xeLinked ==> XePod(node, XeState(mid, map[]), requests, gpuMaps, Seen(first, clock), Some(plan), Copy())
    {
      ProgressEnd(start, used, requests, plan, sameGpu, SharedName(shared), |gpuMaps| == 1 && OnePluginType(requests, sameGpu));
      if !xeLinked {
        PodIsPlaced(node, balanced, mid, used, requests, sameGpu, Names(shared), gpuMaps, plan);
      }
    }

    /** One container: the shared card, or a placement of its own. */
    method PlaceContainerOf(requests: seq<Resources>, gpuMaps: seq<set<string>>, xeLinked: bool, sameGpu: set<int>,
                            samegpuCard: seq<Card>, plan: seq<seq<Card>>, ghost start: NodeResources,
                            ghost mid: NodeResources, ghost first: nat)
      returns (cards: Option<seq<Card>>)
      requires ReadsBetween() && (xeLinked ==> NoSelfLinks(node) && sameGpu == {})
      requires gpuMaps != [] && forall m :: m in gpuMaps ==> "" !in m
      requires |plan| < |requests| && (|plan| in sameGpu ==> |samegpuCard| == 1 && samegpuCard[0].xeLinkedTileIds == [])
      requires PodPlanning(start, mid, first, requests, gpuMaps, xeLinked, sameGpu, samegpuCard, plan) && first <= clock
      modifies this`used, this`allocating, this`clock
      ensures Grown(start, used, Capacity())
      ensures clock >= old(clock)
      ensures cards.Some? ==>
        PodPlanning(start, mid, first, requests, gpuMaps, xeLinked, sameGpu, samegpuCard, plan + [cards.value])
      ensures xeLinked && cards.None? ==>
        XePod(node, XeState(mid, map[]), requests, gpuMaps, Seen(first, clock), None, Copy())
      ensures !xeLinked && cards.None? ==>
        RealizesPod(None, used, PlaceRest(node, balanced, mid, requests, sameGpu, Names(samegpuCard), gpuMaps, 0))
    {
      ghost var now, was, read := used, Copy(), clock;
      if |plan| in sameGpu {
        SkipShared(start, requests, gpuMaps, xeLinked, sameGpu, samegpuCard, plan);
        cards := Some(samegpuCard);
      } else {
        cards := PlaceNext(requests, gpuMaps, xeLinked, sameGpu, samegpuCard, plan, start);
      }
      if xeLinked {
        ContainerSeesMore(node, was, requests[|plan|], gpuMaps, Seen(read, clock), Seen(first, clock), cards, Copy());
        OneContainerMore(node, XeState(mid, map[]), requests, gpuMaps, plan, Seen(first, read), Seen(first, clock), was, cards,
                         Copy());
      } else {
        OneContainerFurther(node, balanced, mid, now, requests, sameGpu, Names(samegpuCard), gpuMaps, plan, cards, used);
      }
    }

    lemma SkipShared(start: NodeResources, requests: seq<Resources>, gpuMaps: seq<set<string>>, xeLinked: bool,
                     sameGpu: set<int>, shared: seq<Card>, plan: seq<seq<Card>>)
      requires |plan| < |requests| && |plan| in sameGpu && !xeLinked
      requires |shared| == 1 && shared[0].xeLinkedTileIds == []
      requires Planning(start, requests, gpuMaps, xeLinked, sameGpu, shared, plan)
      ensures Planning(start, requests, gpuMaps, xeLinked, sameGpu, shared, plan + [shared])
    {
      ProgressSkip(start, used, requests, plan, sameGpu, SharedName(shared),
                   |gpuMaps| == 1 && OnePluginType(requests, sameGpu), shared);
    }

    // ---- tiles ----

    static method CapacityTiles(cap: int) returns (freeTiles: set<int>)
      ensures freeTiles == Range(cap)
    {
      freeTiles := {};
      var i := 0;
      while i < cap
        invariant 0 <= i && (i <= cap || i == 0) && freeTiles == Range(i)
      {
        freeTiles := freeTiles + {i};
        i := i + 1;
      }
    }

    /** The keys of a search map, in any order. */
    static method MapKeys(freeTiles: set<int>) returns (tiles: seq<int>)
      ensures NoDuplicates(tiles) && TileSet(tiles) == freeTiles
    {
      tiles := [];
      var todo := freeTiles;
      while todo != {}
        invariant TileSet(tiles) + todo == freeTiles && TileSet(tiles) !! todo && NoDuplicates(tiles)
        decreases todo
      {
        var key := AnyOf(todo);
        assert TileSet(tiles + [key]) == TileSet(tiles) + {key};
        assert key !in TileSet(tiles);
        tiles := tiles + [key];
        todo := todo - {key};
      }
    }

    /** The free tiles of a card, in any order. */
    method GetFreeTiles(cap: int, gpuName: string, unusable: NodeTiles) returns (tiles: seq<int>)
      requires ReadsBetween()
      modifies this`clock
      ensures clock == old(clock) + 1 && NoDuplicates(tiles)
      ensures TileSet(tiles) == Range(cap) - TilesAt(statusRead(old(clock)), gpuName) - TilesAt(unusable, gpuName)
    {
      var nTiles := ReadTileStatus();
      var freeTiles := CapacityTiles(cap);
      freeTiles := freeTiles - (if gpuName in nTiles then nTiles[gpuName] else {});
      freeTiles := freeTiles - (if gpuName in unusable then unusable[gpuName] else {});
      tiles := MapKeys(freeTiles);
    }

    static method PreferredTilesFirst(tiles: seq<int>, preferred: seq<int>) returns (ordered: seq<int>)
      requires NoDuplicates(tiles)
      ensures NoDuplicates(ordered) && TileSet(ordered) == TileSet(tiles) && |ordered| == |tiles|
      ensures NoDuplicates(preferred) ==> PreferredAmong(preferred, TileSet(tiles)) <= ordered
    {
      var slice := new int[|tiles|](k requires 0 <= k < |tiles| => tiles[k]);
      assert slice[..] == tiles;
      if |preferred| > 0 {
        ReorderPreferredTilesFirst(slice, preferred);
      }
      ordered := slice[..];
    }

    method CreateTileAnnotation(card: Card, numCards: int, request: Resources, unusable: NodeTiles,
                                preferredTiles: seq<int>)
      returns (text: string, ghost chosen: seq<int>, after: NodeTiles)
      requires ReadsBetween() && numCards >= 1
      modifies this`clock
      ensures clock >= old(clock)
      ensures text == EntryText(card.gpuName, chosen)
      ensures TilesPicked(node, card, TilesPerCard(request, numCards), statusRead(old(clock)), unusable, after,
                          preferredTiles, chosen)
    {
      text, chosen, after := "", [], unusable;
      var requestedTilesPerGPU := TilesPerCard(request, numCards);
      if requestedTilesPerGPU == 0 {
        return;
      }
      var cap := Amount(Capacity(), TILES);
      if requestedTilesPerGPU < 0 || cap < requestedTilesPerGPU {
        return;
      }
      if |card.xeLinkedTileIds| == 1 && requestedTilesPerGPU == 1 {
        assert TileNames(card.xeLinkedTileIds) == [TileName(card.xeLinkedTileIds[0])];
        return card.gpuName + ":" + TileName(card.xeLinkedTileIds[0]), card.xeLinkedTileIds, unusable;
      }
      text, chosen, after := ChooseFreeTiles(card.gpuName, requestedTilesPerGPU, cap, unusable, preferredTiles);
    }

    /** The free tiles of one card, preferred ones first, as many as are asked for. */
    method ChooseFreeTiles(gpuName: string, n: int, cap: int, unusable: NodeTiles, preferredTiles: seq<int>)
      returns (text: string, ghost chosen: seq<int>, after: NodeTiles)
      requires ReadsBetween() && n >= 1
      modifies this`clock
      ensures clock >= old(clock)
      ensures text == EntryText(gpuName, chosen)
      ensures FreePicked(gpuName, n, Range(cap) - TilesAt(statusRead(old(clock)), gpuName) - TilesAt(unusable, gpuName),
                         unusable, after, preferredTiles, chosen)
    {
      text, chosen, after := "", [], unusable;
      var freeTiles := GetFreeTiles(cap, gpuName, unusable);
      TileSetSize(freeTiles);
      if |freeTiles| < n {
        return;
      }
      var ordered := PreferredTilesFirst(freeTiles, preferredTiles);
      text, after := TakeTiles(gpuName, ordered, n, unusable);
      chosen := ordered[..n];
      FirstTilesPicked(gpuName, n, freeTiles, ordered, unusable, preferredTiles);
    }

    /** The loop over the free tiles: it prints and marks the first ones. */
    static method TakeTiles(gpuName: string, freeTiles: seq<int>, n: int,
                            unusable: NodeTiles) returns (text: string, after: NodeTiles)
      requires 1 <= n <= |freeTiles|
      ensures text == EntryText(gpuName, freeTiles[..n])
      ensures after == unusable[gpuName := TilesAt(unusable, gpuName) + TileSet(freeTiles[..n])]
    {
      ghost var before := TilesAt(unusable, gpuName);
      var marked;
      text, marked := TakeFirst(gpuName, freeTiles, if gpuName in unusable then unusable[gpuName] else {});
      var k := 1;
      while k < n
        invariant 1 <= k <= n
        invariant Taken(gpuName, freeTiles, k, before, text, marked)
      {
        text, marked := TakeNext(gpuName, freeTiles, k, before, text, marked);
        k := k + 1;
      }
      TakenIsEntry(gpuName, freeTiles, n, before, text, marked);
      after := unusable[gpuName := marked];
    }

    static method TakeFirst(gpuName: string, tiles: seq<int>, before: set<int>) returns (text: string, marked: set<int>)
      requires tiles != []
      ensures Taken(gpuName, tiles, 1, before, text, marked)
    {
      text := gpuName + ":" + TileName(tiles[0]);
      marked := before + {tiles[0]};
      assert TileNames(tiles)[0] == TileName(tiles[0]) && tiles[..1] == [tiles[0]];
    }

    static method TakeNext(gpuName: string, tiles: seq<int>, k: nat, ghost before: set<int>, text: string, marked: set<int>)
      returns (longer: string, more: set<int>)
      requires 1 <= k < |tiles| && Taken(gpuName, tiles, k, before, text, marked)
      ensures Taken(gpuName, tiles, k + 1, before, longer, more)
    {
      OneMoreName(gpuName, TileNames(tiles), k);
      longer := text + "+" + TileName(tiles[k]);
      OneMoreMarked(tiles, k);
      more := marked + {tiles[k]};
    }

    // ---- printing both annotations ----

    /** Some read of the tile status from the given one on shows that the choice on the k-th card prefers its tiles. */
    ghost predicate CardPrefers(cards: seq<Card>, choice: seq<seq<int>>, entries: seq<TileEntry>, k: nat, first: nat)
      requires k < |choice| <= |cards|
    {
      exists at: nat :: first <= at && PrefersAt(cards, choice, entries, k, at)
    }

    ghost predicate PrefersAt(cards: seq<Card>, choice: seq<seq<int>>, entries: seq<TileEntry>, k: nat, at: nat)
      requires k < |choice| <= |cards|
    {
      PrefersTiles(node, statusRead(at), entries + CardEntries(cards[..k], choice[..k]), cards[k].gpuName, choice[k])
    }

    ghost predicate ContainerPrefers(cards: seq<Card>, choice: seq<seq<int>>, entries: seq<TileEntry>, first: nat)
      requires |choice| <= |cards|
    {
      forall k :: 0 <= k < |choice| ==> CardPrefers(cards, choice, entries, k, first)
    }

    /** So do the choices of all containers. */
    ghost predicate PlanPrefers(plan: seq<seq<Card>>, choice: seq<seq<seq<int>>>, first: nat)
      requires |choice| <= |plan| && ChoiceShape(plan[..|choice|], choice)
    {
      forall i :: 0 <= i < |choice| ==> ContainerPrefersAt(plan, choice, i, first)
    }

    ghost predicate ContainerPrefersAt(plan: seq<seq<Card>>, choice: seq<seq<seq<int>>>, i: nat, first: nat)
      requires i < |choice| <= |plan| && ChoiceShape(plan[..|choice|], choice)
    {
      && ChoiceShape(plan[..i], choice[..i]) && |choice[i]| == |plan[i]|
      && ContainerPrefers(plan[i], choice[i], PlanEntries(plan[..i], choice[..i]), first)
    }

    lemma OneMorePrefers(cards: seq<Card>, choice: seq<seq<int>>, entries: seq<TileEntry>, first: nat, at: nat,
                         chosen: seq<int>)
      requires |choice| < |cards| && ContainerPrefers(cards, choice, entries, first) && first <= at
      requires PrefersTiles(node, statusRead(at), entries + CardEntries(cards[..|choice|], choice), cards[|choice|].gpuName, chosen)
      ensures ContainerPrefers(cards, choice + [chosen], entries, first)
    {
      var more := choice + [chosen];
      forall k | 0 <= k < |more| ensures CardPrefers(cards, more, entries, k, first) {
        if k < |choice| {
          assert CardPrefers(cards, choice, entries, k, first);
          var was: nat :| first <= was && PrefersAt(cards, choice, entries, k, was);
          assert more[..k] == choice[..k];
          assert PrefersAt(cards, more, entries, k, was);
        } else {
          assert more[..k] == choice;
          assert PrefersAt(cards, more, entries, k, at);
        }
      }
    }

    lemma OneMoreContainerPrefers(plan: seq<seq<Card>>, choice: seq<seq<seq<int>>>, first: nat, picked: seq<seq<int>>)
      requires |choice| < |plan| && ChoiceShape(plan[..|choice|], choice) && |picked| == |plan[|choice|]|
      requires PlanPrefers(plan, choice, first)
      requires ContainerPrefers(plan[|choice|], picked, PlanEntries(plan[..|choice|], choice), first)
      ensures ChoiceShape(plan[..|choice| + 1], choice + [picked]) && PlanPrefers(plan, choice + [picked], first)
    {
      var more := choice + [picked];
      assert forall i :: 0 <= i < |more| ==> |more[i]| == |plan[i]| by {
        assert forall i :: 0 <= i < |choice| ==> plan[..|choice|][i] == plan[i];
      }
      forall i | 0 <= i < |more| ensures ContainerPrefersAt(plan, more, i, first) {
        if i < |choice| {
          assert ContainerPrefersAt(plan, choice, i, first);
          assert more[..i] == choice[..i];
        } else {
          assert more[..i] == choice;
        }
      }
    }

    /** One container's part of both annotations. */
    method ConvertContainer(request: Resources, cards: seq<Card>, unusable: NodeTiles, ghost requests: seq<Resources>,
                            ghost plan: seq<seq<Card>>, ghost xeLinked: bool, ghost i: nat, ghost entries: seq<TileEntry>,
                            ghost first: nat)
      returns (cardText: string, tileText: string, ghost choice: seq<seq<int>>, after: NodeTiles)
      requires ReadsBetween() && first <= clock
      requires |plan| == |requests| && i < |plan| && request == requests[i] && cards == plan[i]
      modifies this`clock
      ensures cardText == Join(Names(cards), ',')
      ensures |choice| == |cards| && tileText == ContainerText(request, cards, choice)
      ensures !HasTiles(request) ==> forall j :: 0 <= j < |choice| ==> choice[j] == []
      ensures Ready(node, lower, upper, requests, plan, xeLinked)
              && Printing(node, lower, requests, plan, xeLinked, i, 0, entries, unusable) ==>
                && ChoiceRange(choice)
                && Printing(node, lower, requests, plan, xeLinked, i, |cards|, entries + CardEntries(cards, choice), after)
                && (!xeLinked ==> ContainerPrefers(cards, choice, entries, first))
      ensures clock >= old(clock)
    {
      ghost var ready := Ready(node, lower, upper, requests, plan, xeLinked)
                         && Printing(node, lower, requests, plan, xeLinked, i, 0, entries, unusable);
      var cardTexts: seq<string>, tileTexts: seq<string> := [], [];
      choice, after := [], unusable;
      ghost var soFar := entries;
      assert cards[..0] == [];
      var j := 0;
      while j < |cards|
        invariant 0 <= j <= |cards| && |choice| == j && clock >= old(clock)
        invariant ready && !xeLinked ==> ContainerPrefers(cards, choice, entries, first)
        invariant TextsOf(request, cards[..j], choice, cardTexts, tileTexts)
        invariant soFar == entries + CardEntries(cards[..j], choice)
        invariant ready ==> ChoiceRange(choice) && Printing(node, lower, requests, plan, xeLinked, i, j, soFar, after)
      {
        var text;
        ghost var chosen;
        ghost var at := clock;
        text, chosen, after := ConvertCard(request, cards, j, after, requests, plan, xeLinked, i, soFar);
        if ready && !xeLinked {
          OneMorePrefers(cards, choice, entries, first, at, chosen);
        }
        MoreTexts(request, cards, choice, j, chosen, cardTexts, tileTexts);
        MoreEntries(cards, choice, j, chosen, entries);
        soFar := soFar + EntryOf(cards[j].gpuName, chosen);
        cardTexts, tileTexts := cardTexts + [cards[j].gpuName], tileTexts + [text];
        choice := choice + [chosen];
        j := j + 1;
      }
      assert cards[..j] == cards;
      cardText := Join(cardTexts, ',');
      tileText := if HasTiles(request) then Join(tileTexts, ',') else "";
    }

    method ConvertCard(request: Resources, cards: seq<Card>, j: nat, unusable: NodeTiles, ghost requests: seq<Resources>,
                       ghost plan: seq<seq<Card>>, ghost xeLinked: bool, ghost i: nat, ghost entries: seq<TileEntry>)
      returns (text: string, ghost chosen: seq<int>, after: NodeTiles)
      requires ReadsBetween()
      requires |plan| == |requests| && i < |plan| && request == requests[i] && cards == plan[i] && j < |cards|
      modifies this`clock
      ensures text == EntryText(cards[j].gpuName, chosen)
      ensures !HasTiles(request) ==> chosen == []
      ensures Ready(node, lower, upper, requests, plan, xeLinked)
              && Printing(node, lower, requests, plan, xeLinked, i, j, entries, unusable) ==>
                && TileRange(chosen)
                && Printing(node, lower, requests, plan, xeLinked, i, j + 1, entries + EntryOf(cards[j].gpuName, chosen), after)
                && (!xeLinked ==> PrefersTiles(node, statusRead(old(clock)), entries, cards[j].gpuName, chosen))
      ensures clock >= old(clock)
    {
      ghost var ready := Ready(node, lower, upper, requests, plan, xeLinked)
                         && Printing(node, lower, requests, plan, xeLinked, i, j, entries, unusable);
      var card := cards[j];
      var preferred := if card.gpuName in node.preferredTiles then node.preferredTiles[card.gpuName] else [];
      ghost var status := statusRead(clock);
      text, chosen, after := "", [], unusable;
      if HasTiles(request) {
        text, chosen, after := CreateTileAnnotation(card, |cards|, request, unusable, preferred);
      } else if ready {
        NoneAsked(node, upper, requests, plan, i, j);
      }
      if ready {
        NextCard(node, lower, upper, requests, plan, xeLinked, i, j, entries, status, unusable, after, preferred, chosen);
      }
    }

    /** convertNodeCardsToAnnotations: both annotations of a planned pod. When planning has accepted the pod,
        every card gets exactly its number of tiles. */
    method ConvertNodeCardsToAnnotations(requests: seq<Resources>, plan: seq<seq<Card>>, ghost xeLinked: bool)
      returns (annotation: string, tileAnnotation: string, ghost choice: seq<seq<seq<int>>>)
      requires ReadsBetween()
      modifies this`clock
      ensures |plan| != |requests| ==> annotation == "" && tileAnnotation == ""
      ensures |plan| == |requests| ==>
                && annotation == Join(CardTexts(plan), '|')
                && ChoiceShape(plan, choice) && tileAnnotation == Join(TileTexts(requests, plan, choice), '|')
                && (Ready(node, lower, upper, requests, plan, xeLinked) ==>
                      && ChosenWhereAsked(requests, choice)
                      && ChosenSoFar(node, lower, PlanEntries(plan, choice), PlannedAllocs(requests, plan), |plan|, 0)
                      && (!xeLinked ==> plan[..|choice|] == plan && PlanPrefers(plan, choice, old(clock))))
    {
      choice := [];
      if |plan| != |requests| {
        return "", "", [];
      }
      var disabledTilesMap := SanitizeTiles(node.disabled, Amount(Capacity(), TILES));
      var unusable := TileSets(disabledTilesMap);
      var cardTexts: seq<string>, tileTexts: seq<string> := [], [];
      ghost var entries := [];
      ConvertStarts(node, lower, upper, requests, plan, xeLinked, unusable);
      var i := 0;
      while i < |plan|
        invariant 0 <= i <= |plan| && ChoiceShape(plan[..i], choice)
        invariant cardTexts == CardTexts(plan[..i]) && tileTexts == TileTexts(requests[..i], plan[..i], choice)
        invariant entries == PlanEntries(plan[..i], choice) && clock >= old(clock)
        invariant !xeLinked && Ready(node, lower, upper, requests, plan, xeLinked) ==> PlanPrefers(plan, choice, old(clock))
        invariant Ready(node, lower, upper, requests, plan, xeLinked) ==>
          Converted(node, lower, requests, plan, xeLinked, i, choice, entries, unusable)
      {
        var cardText, tileText;
        ghost var picked, before := [], unusable;
        cardText, tileText, picked, unusable :=
          ConvertContainer(requests[i], plan[i], unusable, requests, plan, xeLinked, i, entries, old(clock));
        if !xeLinked && Ready(node, lower, upper, requests, plan, xeLinked) {
          OneMoreContainerPrefers(plan, choice, old(clock), picked);
        }
        OneMoreContainer(requests, plan, choice, i, picked);
        ConvertGoesOn(node, lower, upper, requests, plan, xeLinked, i, choice, entries, before, unusable, picked);
        entries := entries + CardEntries(plan[i], picked);
        cardTexts, tileTexts := cardTexts + [cardText], tileTexts + [tileText];
        choice := choice + [picked];
        i := i + 1;
      }
      assert plan[..i] == plan && requests[..i] == requests;
      annotation, tileAnnotation := Join(cardTexts, '|'), Join(tileTexts, '|');
    }

    // ---- the whole check ----

    method AddEmptyResourceMaps()
      modifies this`used
      ensures used == WithEmptyMaps(old(used), set c | c in node.cards)
    {
      ghost var start := used;
      var i := 0;
      while i < |node.cards|
        invariant 0 <= i <= |node.cards|
        invariant used == WithEmptyMaps(start, set c | c in node.cards[..i])
      {
        var gpu := node.cards[i];
        if gpu !in used {
          used := used[gpu := map[]];
        }
        assert node.cards[..i + 1] == node.cards[..i] + [gpu];
        i := i + 1;
      }
      assert node.cards[..i] == node.cards;
    }

    /** Per card, how many disabled or descheduled tiles are not in use. */
    method CreateUnavailableNodeResources() returns (res: NodeResources)
      requires ReadsBetween() && GoLists(node)
      modifies this`clock
      ensures res.Keys == node.disabled.Keys && clock == old(clock) + 1
      ensures forall c :: c in res ==> res[c] == map[TILES := UnavailableTiles(node, statusRead(old(clock)), c)]
      ensures forall c :: c in res ==>
        res[c][TILES] == |UnusedEntries(node.disabled[c], Amount(Capacity(), TILES), TilesAt(statusRead(old(clock)), c))|
    {
      res := map[];
      ghost var status := statusRead(clock);
      var usedTilesStats := ReadTileStatus();
      var todo := node.disabled.Keys;
      while todo != {}
        invariant todo <= node.disabled.Keys && res.Keys == node.disabled.Keys - todo && clock == old(clock) + 1
        invariant forall c :: c in res ==> res[c] == map[TILES := UnavailableTiles(node, status, c)]
        decreases todo
      {
        var card :| card in todo;
        var stiles := SanitizeList(node.disabled[card], Amount(Capacity(), TILES));
        SanitizedSize(node.disabled[card], Amount(Capacity(), TILES));
        var count := CountUnused(stiles, if card in usedTilesStats then usedTilesStats[card] else {});
        res := res[card := map[TILES := count]];
        todo := todo - {card};
      }
      forall c | c in res
        ensures UnavailableTiles(node, status, c)
             == |UnusedEntries(node.disabled[c], Amount(Capacity(), TILES), TilesAt(status, c))|
      {
        UnavailableMeans(node, status, c);
      }
    }

    static method CountUnused(tiles: seq<int>, usedTiles: set<int>) returns (count: nat)
      ensures count == UnusedCount(tiles, usedTiles)
    {
      count := 0;
      var i := 0;
      while i < |tiles|
        invariant 0 <= i <= |tiles| && count == UnusedCount(tiles[..i], usedTiles)
      {
        assert tiles[..i + 1][..i] == tiles[..i];
        if tiles[i] !in usedTiles {
          count := count + 1;
        }
        i := i + 1;
      }
      assert tiles[..i] == tiles;
    }

    /** The counts of one read are added; a failed addition is only warned about. */
    method AddUnavailableToUsedResources(res: NodeResources, ghost status: NodeTiles)
      requires GoLists(node) && res.Keys == node.disabled.Keys
      requires forall c :: c in res ==> res[c] == map[TILES := UnavailableTiles(node, status, c)]
      modifies this`used
      ensures used == WithAllUnavailable(node, old(used), status)
      ensures used.Keys == old(used).Keys && NoLess(old(used), used) && OnlyTilesChange(old(used), used)
      ensures forall c :: c in used ==> UnavailableCounted(node, old(used), used, status, c)
    {
      var todo := res.Keys;
      ghost var start := used;
      NoneCounted(node, start, status);
      while todo != {}
        invariant todo <= res.Keys && CountedExcept(node, start, used, status, todo)
        decreases todo
      {
        var card :| card in todo;
        ghost var before := used;
        AddUnavailableOf(card, res[card], status);
        CountedOneMore(node, start, before, used, status, todo, card);
        todo := todo - {card};
      }
      AllCounted(node, start, used, status);
      CountingOnlyAdds(node, start, status);
    }

    method AddUnavailableOf(card: string, res: Resources, ghost status: NodeTiles)
      requires GoLists(node) && card in node.disabled && res == map[TILES := UnavailableTiles(node, status, card)]
      modifies this`used
      ensures used == if card in old(used) then old(used)[card := WithUnavailable(node, old(used)[card], status, card)] else old(used)
    {
      if card in used {
        var rm := new ResourceMap(used[card]);
        var _ := rm.AddRM(res);
        used := used[card := rm.amounts];
      }
    }

    /** checkForSpaceAndRetrieveCards: what an accepted plan guarantees against the amounts that were read. */
    method CheckForSpaceAndRetrieveCards(requests: seq<Resources>, sameGpu: set<int>, gpuMaps: seq<set<string>>,
                                         xeLinked: bool)
      returns (plan: Option<seq<seq<Card>>>, ghost shared: seq<Card>)
      requires ReadsBetween() && GoLists(node) && (xeLinked ==> NoSelfLinks(node) && sameGpu == {})
      requires gpuMaps != [] && forall m :: m in gpuMaps ==> "" !in m
      requires forall i :: i in sameGpu ==> 0 <= i < |requests|
      modifies this`used, this`allocating, this`clock
      ensures plan.Some? ==> AcceptedPlan(node, lower, upper, old(used), requests, sameGpu, gpuMaps, xeLinked, plan.value, shared)
      ensures plan.Some? ==> PlanAdded(Start(old(used), old(clock)), used, PlannedAllocs(requests, plan.value),
                                       |gpuMaps| == 1 && OnePluginType(requests, sameGpu))
      ensures node.cards == [] ==> plan.None?
      ensures node.cards != [] && !xeLinked ==>
        RealizesPod(plan, used, PlacePod(node, balanced, Start(old(used), old(clock)), requests, sameGpu, gpuMaps))
      ensures node.cards != [] && xeLinked ==> XePlanOf(old(used), old(clock), clock, requests, gpuMaps, plan)
    {
      ghost var resources, read := used, clock;
      shared := [];
      if |node.cards| == 0 {
        return None, [];
      }
      AddEmptyResourceMaps();
      var unavailable := CreateUnavailableNodeResources();
      AddUnavailableToUsedResources(unavailable, statusRead(read));
      ghost var start, first := used, clock;
      plan, shared := CheckForSpaceResourceRequests(requests, sameGpu, gpuMaps, xeLinked);
      if xeLinked {
        XePlanIs(resources, read, first, start, requests, gpuMaps, plan);
      }
      if plan.Some? {
        CheckedPlan(node, lower, upper, resources, start, used, statusRead(read), requests, sameGpu, gpuMaps, xeLinked,
                    plan.value, shared, allocating);
      }
    }

    /** Plan or refusal is an outcome of the search for linked cards, with what was read between two moments. */
    ghost predicate XePlanOf(resources: NodeResources, from: nat, to: nat, requests: seq<Resources>,
                             gpuMaps: seq<set<string>>, plan: Option<seq<seq<Card>>>)
      requires GoLists(node)
    {
      exists after :: XePod(node, XeState(Start(resources, from), map[]), requests, gpuMaps, Seen(from, to), plan, after)
    }

    ghost predicate XePlanSince(resources: NodeResources, from: nat, requests: seq<Resources>, gpuMaps: seq<set<string>>,
                                plan: Option<seq<seq<Card>>>)
      requires GoLists(node)
    {
      exists to :: XePlanOf(resources, from, to, requests, gpuMaps, plan)
    }

    lemma XePlanIs(resources: NodeResources, from: nat, first: nat, start: NodeResources, requests: seq<Resources>,
                   gpuMaps: seq<set<string>>, plan: Option<seq<seq<Card>>>)
      requires GoLists(node) && start == Start(resources, from) && from <= first <= clock
      requires XePod(node, XeState(start, map[]), requests, gpuMaps, Seen(first, clock), plan, Copy())
      ensures XePlanOf(resources, from, clock, requests, gpuMaps, plan)
    {
      PodSeesMore(node, XeState(start, map[]), requests, gpuMaps, Seen(first, clock), Seen(from, clock), plan, Copy());
    }

    /** The copy a check works on: the amounts that were read, and the tiles that a read finds unavailable. */
    ghost function Start(resources: NodeResources, read: nat): NodeResources
      requires GoLists(node)
    {
      StartingCopy(node, resources, statusRead(read))
    }

    /** The middle of bindNode: check, then print. */
    method PlanAndPrint(requests: seq<Resources>, sameGpu: set<int>, gpuMaps: seq<set<string>>, xeLinked: bool)
      returns (ok: bool, annotation: string, tileAnnotation: string, ghost plan: seq<seq<Card>>)
      requires ReadsBetween() && GoLists(node) && (xeLinked ==> NoSelfLinks(node) && sameGpu == {} && OneTileRequests(requests))
      requires gpuMaps != [] && forall m, c :: m in gpuMaps && c in m ==> CleanName(c)
      requires forall i :: i in sameGpu ==> 0 <= i < |requests|
      modifies this`used, this`allocating, this`clock
      ensures node.cards == [] ==> !ok
      ensures node.cards != [] && !xeLinked ==>
        RealizesPod(if ok then Some(plan) else None, used,
                    PlacePod(node, balanced, Start(old(used), old(clock)), requests, sameGpu, gpuMaps))
      ensures node.cards != [] && xeLinked ==>
        XePlanSince(old(used), old(clock), requests, gpuMaps, if ok then Some(plan) else None)
      ensures ok ==> |plan| == |requests| && CleanPlan(plan) && annotation == Join(CardTexts(plan), '|')
      ensures ok ==> PlanAdded(Start(old(used), old(clock)), used, PlannedAllocs(requests, plan),
                               |gpuMaps| == 1 && OnePluginType(requests, sameGpu))
      ensures ok && requests != [] && CountedTiles(node, upper, old(used)) ==>
                exists choice :: OutcomeOf(node, lower, old(used), requests, annotation, tileAnnotation, plan, choice)
    {
      ghost var resources, read := used, clock;
      annotation, tileAnnotation, plan := "", "", [];
      var placed;
      ghost var shared;
      placed, shared := CheckForSpaceAndRetrieveCards(requests, sameGpu, gpuMaps, xeLinked);
      ok := placed.Some?;
      ghost var to := clock;
      assert node.cards != [] && xeLinked ==> XePlanOf(resources, read, to, requests, gpuMaps, placed);
      if ok {
        plan := placed.value;
        ghost var choice;
        annotation, tileAnnotation, choice := ConvertNodeCardsToAnnotations(requests, placed.value, xeLinked);
        ghost var known := resources.Keys + (set c | c in node.cards);
        PlanIsClean(node, known, requests, sameGpu, gpuMaps, plan, shared);
        if xeLinked {
          OneTileInPlan(node, known, requests, gpuMaps, plan, shared);
        }
        if requests != [] && CountedTiles(node, upper, resources) {
          assert Ready(node, lower, upper, requests, plan, xeLinked);
          assert OutcomeOf(node, lower, resources, requests, annotation, tileAnnotation, plan, choice);
        }
      }
    }
  }

  // ---- bindNode ----

  /** The container names of the same-GPU annotation: at least two, no repetition, all in the pod. */
  method ContainersRequestingSamegpu(csv: Option<string>,
                                     containers: seq<Container>) returns (names: set<string>, err: Option<Error>)
    ensures csv.None? ==> err.None? && names == {}
    ensures csv.Some? ==>
              && (err.None? <==> |Split(csv.value, ',')| >= 2 && NoDuplicates(Split(csv.value, ','))
                                 && forall n :: n in Split(csv.value, ',') ==> exists c :: c in containers && c.name == n)
              && (err.None? ==> forall n :: n in names <==> n in Split(csv.value, ','))
    ensures err.None? || err == Some(ErrAnnotation)
  {
    names := {};
    if csv.None? {
      return {}, None;
    }
    var list := Split(csv.value, ',');
    if |list| < 2 {
      return {}, Some(ErrAnnotation);
    }
    var podNames := set c | c in containers :: c.name;
    var i := 0;
    while i < |list|
      invariant 0 <= i <= |list|
      invariant forall n :: n in names <==> n in list[..i]
      invariant NoDuplicates(list[..i]) && forall n :: n in list[..i] ==> n in podNames
    {
      if list[i] in names || list[i] !in podNames {
        assert list[i] in list;
        if list[i] in names {
          var j :| 0 <= j < i && list[..i][j] == list[i];
          assert list[j] == list[i];
        }
        return {}, Some(ErrAnnotation);
      }
      assert list[..i + 1] == list[..i] + [list[i]];
      names := names + {list[i]};
      i := i + 1;
    }
    assert list[..i] == list;
    err := None;
  }
}
