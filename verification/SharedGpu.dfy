/** Containers that share one card: what the search may find and what is booked on the card it finds. */
module SharedGpu {
  import opened Text
  import opened ResourceArithmetic
  import opened Allocations
  import opened Annotations
  import opened Ordering
  import opened Placement
  import opened FirstFit

  /** What containers that share one card put on it: the sum of their requests. */
  function SameGpuUse(requests: seq<Resources>, indices: set<int>, on: string, card: string, key: string): int {
    if card == on then SelectedSum(requests, indices, key) else 0
  }

  ghost predicate SameGpuAdded(before: NodeResources, after: NodeResources, requests: seq<Resources>, indices: set<int>,
                               on: string) {
    && (forall c, k :: AmountAt(after, c, k) >= AmountAt(before, c, k) + SameGpuUse(requests, indices, on, c, k))
    && (OnePluginType(requests, indices) <==>
          forall c, k :: AmountAt(after, c, k) == AmountAt(before, c, k) + SameGpuUse(requests, indices, on, c, k))
  }

  lemma CombinedOneMore(before: Resources, after: Resources, requests: seq<Resources>, done: set<int>, index: int)
    requires 0 <= index < |requests| && index !in done
    requires SumsTo(before, requests, done) && NonNegative(before) && Sum(before, requests[index]) == Some(after)
    requires before.Keys == KeysOf(requests, done)
    ensures SumsTo(after, requests, done + {index}) && NonNegative(after) && NonNegative(requests[index])
    ensures after.Keys == KeysOf(requests, done + {index})
  {
    SumIsExact(before, requests[index], "");
    forall k
      ensures Amount(after, k) == SelectedSum(requests, done + {index}, k) && NonNegative(requests[index])
      ensures k in after ==> after[k] >= 0
    {
      SumIsExact(before, requests[index], k);
      SelectedSumOneMore(requests, done, index, k);
      assert Amount(before, k) == SelectedSum(requests, done, k);
    }
  }

  lemma NotCombinable(before: Resources, requests: seq<Resources>, done: set<int>, index: int, indices: set<int>)
    requires forall i :: i in indices ==> 0 <= i < |requests|
    requires done <= indices && index in indices - done
    requires SumsTo(before, requests, done) && NonNegative(before) && Sum(before, requests[index]).None?
    ensures !Combinable(requests, indices)
  {
    SumFailsExactly(before, requests[index]);
    var k :| k in requests[index] && (requests[index][k] < 0 || Amount(before, k) + requests[index][k] > MAX_INT64);
    if forall i :: i in indices ==> NonNegative(requests[i]) {
      assert NonNegative(requests[index]);
      SelectedSumOneMore(requests, done, index, k);
      assert forall i :: i in indices ==> Amount(requests[i], k) >= 0;
      SelectedSumGrows(requests, done + {index}, indices, k);
      assert Amount(before, k) == SelectedSum(requests, done, k);
    }
  }

  lemma CombinedIs(sum: Resources, combined: Resources, requests: seq<Resources>, indices: set<int>)
    requires forall i :: i in indices ==> 0 <= i < |requests|
    requires SumsTo(sum, requests, indices) && combined == sum[PluginName(sum) := 1]
    requires forall i :: i in indices ==> NonNegative(requests[i])
    requires sum.Keys == KeysOf(requests, indices)
    ensures CombinedWell(combined, requests, indices) && Combinable(requests, indices)
    ensures combined == CombinedRequest(requests, indices)
  {
    TotalIs(sum, requests, indices);
    assert PluginName(combined) == PluginName(sum);
    forall k ensures SelectedSum(requests, indices, k) <= MAX_INT64 {
      assert Amount(sum, k) == SelectedSum(requests, indices, k);
    }
  }

  lemma TotalIs(sum: Resources, requests: seq<Resources>, indices: set<int>)
    requires SumsTo(sum, requests, indices) && sum.Keys == KeysOf(requests, indices)
    ensures sum == TotalRequest(requests, indices)
  {
    var total := TotalRequest(requests, indices);
    forall k | k in sum ensures sum[k] == total[k] {
      assert Amount(sum, k) == SelectedSum(requests, indices, k);
    }
  }

  /** The card has room for n plugin units, one of which is booked along with the rest of the request. */
  predicate SamegpuFound(node: NodeInfo, before: NodeResources, after: NodeResources, combined: Resources,
                         plugin: string, n: nat, gpuMap: set<string>, card: string)
  {
    && Listed(node, before, gpuMap, card)
    && Fits(combined, PerGpuCapacity(node), before[card])
    && AdjustCard(before, combined, card, true) == Some(after)
    && n <= MAX_INT64
    && AmountAt(before, card, plugin) + n <= CapOf(PerGpuCapacity(node), plugin)
    && AdjustCard(after, map[plugin := n - 1], card, true).Some?
  }

  lemma SameGpuTotals(node: NodeInfo, start: NodeResources, mid: NodeResources, end: NodeResources,
                      requests: seq<Resources>, indices: set<int>, sum: Resources, card: string)
    requires indices != {} && forall i :: i in indices ==> 0 <= i < |requests|
    requires forall i :: i in indices ==> SameGpuRequest(requests[i]) && NonNegative(requests[i])
    requires SumsTo(sum, requests, indices)
    requires card in start && Fits(sum[PluginName(sum) := 1], PerGpuCapacity(node), start[card])
    requires |indices| <= MAX_INT64
    requires AmountAt(start, card, PluginName(sum)) + |indices| <= CapOf(PerGpuCapacity(node), PluginName(sum))
    requires AdjustCard(start, sum[PluginName(sum) := 1], card, true) == Some(mid)
    requires AdjustCard(mid, map[PluginName(sum) := |indices| - 1], card, true) == Some(end)
    ensures Grown(start, end, PerGpuCapacity(node)) && SameGpuAdded(start, end, requests, indices, card)
  {
    var plugin := PluginName(sum);
    SameGpuAmount(node, start, mid, end, requests, indices, sum, card, card, plugin);
    forall c, k
      ensures AmountAt(end, c, k) == AmountAt(start, c, k) || AmountAt(end, c, k) <= CapOf(PerGpuCapacity(node), k)
      ensures AmountAt(start, c, k) <= AmountAt(end, c, k)
      ensures AmountAt(end, c, k) >= AmountAt(start, c, k) + SameGpuUse(requests, indices, card, c, k)
      ensures OnePluginType(requests, indices) ==>
                AmountAt(end, c, k) == AmountAt(start, c, k) + SameGpuUse(requests, indices, card, c, k)
      ensures end.Keys == start.Keys
    {
      SameGpuAmount(node, start, mid, end, requests, indices, sum, card, c, k);
    }
  }

  lemma SameGpuPlaced(node: NodeInfo, balanced: string, start: NodeResources, mid: NodeResources, combined: Resources,
                      plugin: string, n: nat, gpuMap: set<string>, pruned: set<string>, cards: seq<Card>)
    requires n >= 1 && plugin == PluginName(combined) && plugin in combined && combined[plugin] == 1
    requires pruned <= gpuMap
    requires forall c :: c in pruned && c in start ==> PluginRoom(PerGpuCapacity(node), start[c], plugin) >= n
    requires |cards| == NumGpu(combined)
    requires PickedWell(node, balanced, PerGpuCapacity(node), start, PerGpuRequest(combined), pruned, Names(cards))
    requires AdjustCards(start, PerGpuRequest(combined), Names(cards), true) == Some(mid)
    ensures |cards| == 1 && SamegpuFound(node, start, mid, combined, plugin, n, gpuMap, cards[0].gpuName)
  {
    assert NumGpu(combined) == 1 && PerGpuRequest(combined) == combined;
    var card := cards[0].gpuName;
    assert Names(cards)[0] in Eligible(node, PerGpuCapacity(node), start, combined, pruned);
    assert Names(cards) == [card] && [card][..0] == [];
    assert AdjustCard(start, combined, card, true) == Some(mid);
    FitsExactly(combined, PerGpuCapacity(node), start[card]);
    AddCardIsExact(start, combined, card);
    assert AmountAt(mid, card, plugin) == AmountAt(start, card, plugin) + 1;
    BookKeepingFits(node, start, mid, card, plugin, n);
  }

  lemma BookKeepingFits(node: NodeInfo, start: NodeResources, mid: NodeResources, card: string, plugin: string, n: nat)
    requires n >= 1 && card in start && card in mid
    requires AmountAt(mid, card, plugin) == AmountAt(start, card, plugin) + 1
    requires AmountAt(start, card, plugin) >= 0 && CapOf(PerGpuCapacity(node), plugin) > 0
    requires PluginRoom(PerGpuCapacity(node), start[card], plugin) >= n
    ensures AmountAt(start, card, plugin) + n <= CapOf(PerGpuCapacity(node), plugin)
    ensures AdjustCard(mid, map[plugin := n - 1], card, true).Some?
  {
    assert !AddFault(mid[card], plugin, n - 1);
  }

  /** The totals of one card and resource after the search and the bookkeeping. */
  lemma SameGpuAmount(node: NodeInfo, start: NodeResources, mid: NodeResources, end: NodeResources,
                      requests: seq<Resources>, indices: set<int>, sum: Resources, card: string, c: string, k: string)
    requires indices != {} && forall i :: i in indices ==> 0 <= i < |requests|
    requires forall i :: i in indices ==> SameGpuRequest(requests[i]) && NonNegative(requests[i])
    requires SumsTo(sum, requests, indices)
    requires card in start && Fits(sum[PluginName(sum) := 1], PerGpuCapacity(node), start[card])
    requires |indices| <= MAX_INT64
    requires AmountAt(start, card, PluginName(sum)) + |indices| <= CapOf(PerGpuCapacity(node), PluginName(sum))
    requires AdjustCard(start, sum[PluginName(sum) := 1], card, true) == Some(mid)
    requires AdjustCard(mid, map[PluginName(sum) := |indices| - 1], card, true) == Some(end)
    ensures AmountAt(end, c, k) == AmountAt(start, c, k) || AmountAt(end, c, k) <= CapOf(PerGpuCapacity(node), k)
    ensures AmountAt(start, c, k) <= AmountAt(end, c, k)
    ensures AmountAt(end, c, k) >= AmountAt(start, c, k) + SameGpuUse(requests, indices, card, c, k)
    ensures OnePluginType(requests, indices) ==>
              AmountAt(end, c, k) == AmountAt(start, c, k) + SameGpuUse(requests, indices, card, c, k)
    ensures c == card && k == PluginName(sum) ==>
              (AmountAt(end, c, k) == AmountAt(start, c, k) + SameGpuUse(requests, indices, card, c, k)
               <==> OnePluginType(requests, indices))
    ensures end.Keys == start.Keys
  {
    var combined := sum[PluginName(sum) := 1];
    AddCardIsExact(start, combined, card);
    AddCardIsExact(mid, map[PluginName(sum) := |indices| - 1], card);
    FittingCardAdd(start, combined, card, PerGpuCapacity(node));
    PluginUnits(requests, indices, sum);
    assert Amount(sum, k) == SelectedSum(requests, indices, k);
    assert AmountAt(mid, c, k) == AmountAt(start, c, k) || AmountAt(mid, c, k) <= CapOf(PerGpuCapacity(node), k);
  }

  /** What containers that share a card need of a resource: as many plugin units as there are containers, and the sum of
      what they ask for of anything else. */
  function SharedNeed(requests: seq<Resources>, indices: set<int>, key: string): int {
    var plugin := if SelectedSum(requests, indices, "gpu.intel.com/xe") > 0 then "gpu.intel.com/xe" else "gpu.intel.com/i915";
    if key == plugin then |indices| else SelectedSum(requests, indices, key)
  }

  /** The cards that can be shared: those that are there, listed and usable and have room for all the containers need,
      no more than that. */
  lemma ShareableMeans(node: NodeInfo, used: NodeResources, requests: seq<Resources>, indices: set<int>,
                       gpuMap: set<string>, c: string)
    requires indices != {} && forall i :: i in indices ==> 0 <= i < |requests|
    requires MayShare(requests, indices)
    ensures c in Shareable(node, used, requests, indices, gpuMap) <==>
      && c in used && c in gpuMap && c in node.usable
      && forall k :: k in CombinedRequest(requests, indices) ==>
           && AmountAt(used, c, k) >= 0 && CapOf(PerGpuCapacity(node), k) > 0
           && AmountAt(used, c, k) + SharedNeed(requests, indices, k) <= CapOf(PerGpuCapacity(node), k)
    ensures CombinedRequest(requests, indices).Keys == KeysOf(requests, indices)
  {
    var combined, capacity := CombinedRequest(requests, indices), PerGpuCapacity(node);
    CombinedAmounts(requests, indices);
    if c in used {
      SharedRoom(combined, PluginName(combined), |indices|, capacity, used[c]);
      assert forall k :: k in combined ==>
        SharedNeed(requests, indices, k) == if k == PluginName(combined) then |indices| else combined[k];
    }
  }

  /** Room for one plugin unit, on a card with n units left, is room for n. */
  lemma SharedRoom(combined: Resources, plugin: string, n: nat, capacity: Resources, usedRes: Resources)
    requires n >= 1 && plugin in combined && combined[plugin] == 1
    requires forall k :: k in combined ==> combined[k] >= 0
    ensures Fits(combined, capacity, usedRes) && PluginRoom(capacity, usedRes, plugin) >= n <==>
      forall k :: k in combined ==>
        && Amount(usedRes, k) >= 0 && CapOf(capacity, k) > 0
        && Amount(usedRes, k) + (if k == plugin then n else combined[k]) <= CapOf(capacity, k)
  {
    FitsExactly(combined, capacity, usedRes);
  }

  lemma CombinedAmounts(requests: seq<Resources>, indices: set<int>)
    requires indices != {} && forall i :: i in indices ==> 0 <= i < |requests|
    requires MayShare(requests, indices)
    ensures var combined := CombinedRequest(requests, indices);
      && combined.Keys == KeysOf(requests, indices)
      && combined[PluginName(combined)] == 1 && SharedNeed(requests, indices, PluginName(combined)) == |indices|
      && forall k :: k in combined && k != PluginName(combined) ==>
           combined[k] == SharedNeed(requests, indices, k) == SelectedSum(requests, indices, k) >= 0
  {
    var total := TotalRequest(requests, indices);
    var i := SomeOf(indices);
    forall k ensures 0 <= SelectedSum(requests, indices, k) <= MAX_INT64 {
      assert forall j :: j in indices ==> NonNegative(requests[j]);
      SelectedSumTerm(requests, indices, i, k);
    }
    forall k ensures Amount(total, k) == SelectedSum(requests, indices, k) {
      if k !in total {
        assert forall i :: i in indices ==> k !in requests[i];
        SumOfZeros(requests, indices, k);
      }
    }
    PluginIsAsked(requests, indices, total);
  }

  lemma SomeOf<T>(s: set<T>) returns (x: T)
    requires s != {}
    ensures x in s
  {
    x :| x in s;
  }

  lemma PluginIsAsked(requests: seq<Resources>, indices: set<int>, total: Resources)
    requires indices != {} && forall i :: i in indices ==> 0 <= i < |requests|
    requires MayShare(requests, indices) && SumsTo(total, requests, indices)
    requires total.Keys == KeysOf(requests, indices)
    ensures PluginName(total) in total
  {
    var i := SomeOf(indices);
    assert NumGpu(requests[i]) == 1 && NonNegative(requests[i]);
    assert Amount(total, XE_PLUGIN) == SelectedSum(requests, indices, XE_PLUGIN);
    if PluginName(total) != XE_PLUGIN && XE_PLUGIN in requests[i] {
      assert forall j :: j in indices ==> NonNegative(requests[j]);
      SelectedSumTerm(requests, indices, i, XE_PLUGIN);
    }
  }
}
