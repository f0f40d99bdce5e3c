/** What failed groups of cards leave in the planner's copy: when first fit grows the copy by exactly the planned
    use, and when it refuses a pod. */
module Leftovers {
  import opened Text
  import opened ResourceArithmetic
  import opened Allocations
  import opened Annotations
  import opened Ordering
  import opened Placement
  import opened TilePlacement
  import opened FirstFit
  import opened SharedGpu

  // ---- one attempt ----

  ghost predicate GrowsBy(before: NodeResources, after: NodeResources, share: Resources, cards: seq<string>) {
    forall c, k :: AmountAt(after, c, k) == AmountAt(before, c, k) + CardsUse(share, cards, c, k)
  }

  ghost predicate GrowsAtLeast(before: NodeResources, after: NodeResources, share: Resources, cards: seq<string>) {
    forall c, k :: AmountAt(after, c, k) >= AmountAt(before, c, k) + CardsUse(share, cards, c, k)
  }

  lemma {:induction false} CardsUseJoined(share: Resources, a: seq<string>, b: seq<string>, card: string, key: string)
    ensures CardsUse(share, a + b, card, key) == CardsUse(share, a, card, key) + CardsUse(share, b, card, key)
  {
    if b == [] {
      assert a + b == a;
    } else {
      var n := |b| - 1;
      CardsUseJoined(share, a, b[..n], card, key);
      assert (a + b)[..|a + b| - 1] == a + b[..n];
    }
  }

  /** An attempt, failed or not, adds exactly the shares of the cards it placed, and touches only listed cards. */
  lemma {:induction false} PlaceCardsAdds(node: NodeInfo, balanced: string, used: NodeResources, share: Resources,
                                          gpuMap: set<string>, n: int, taken: set<string>)
    ensures var p := PlaceCards(node, balanced, used, share, gpuMap, n, taken);
      && GrowsBy(used, p.used, share, p.cards)
      && (p.cards != [] ==> NonNegative(share))
      && p.used.Keys == used.Keys && forall c :: c in used && c !in gpuMap ==> p.used[c] == used[c]
    decreases n
  {
    var candidates := Eligible(node, PerGpuCapacity(node), used, share, gpuMap) - taken;
    if n <= 0 || candidates == {} {
      PlaceCardsEnds(node, balanced, used, share, gpuMap, n, taken);
    } else {
      var card := FirstOf(node, balanced, used, candidates);
      var mid := AfterAdd(used, share, card);
      var rest := PlaceCards(node, balanced, mid, share, gpuMap, n - 1, taken + {card});
      PlaceCardsStep(node, balanced, used, share, gpuMap, n, taken);
      PlaceCardsAdds(node, balanced, mid, share, gpuMap, n - 1, taken + {card});
      FittingCardAdd(used, share, card, PerGpuCapacity(node));
      OneCardAdds(used, mid, rest.used, share, card, rest.cards);
    }
  }

  lemma OneCardAdds(used: NodeResources, mid: NodeResources, after: NodeResources, share: Resources, card: string,
                    rest: seq<string>)
    requires AdjustCard(used, share, card, true) == Some(mid) && GrowsBy(mid, after, share, rest)
    ensures GrowsBy(used, after, share, [card] + rest) && NonNegative(share)
  {
    AddCardIsExact(used, share, card);
    forall c, k
      ensures AmountAt(after, c, k) == AmountAt(used, c, k) + CardsUse(share, [card] + rest, c, k)
    {
      CardsUseJoined(share, [card], rest, c, k);
      assert [card][..0] == [];
      assert CardsUse(share, [card], c, k) == if c == card then Amount(share, k) else 0;
    }
  }

  /** It places nothing exactly when it needs nothing or finds no candidate. */
  lemma PlacesNothing(node: NodeInfo, balanced: string, used: NodeResources, share: Resources, gpuMap: set<string>, n: int)
    ensures var p := PlaceCards(node, balanced, used, share, gpuMap, n, {});
      && (p.cards == [] <==> n <= 0 || Eligible(node, PerGpuCapacity(node), used, share, gpuMap) == {})
      && (p.cards == [] ==> p.used == used)
  {
    var eligible := Eligible(node, PerGpuCapacity(node), used, share, gpuMap);
    assert eligible - {} == eligible;
    if n <= 0 || eligible == {} {
      PlaceCardsEnds(node, balanced, used, share, gpuMap, n, {});
    } else {
      PlaceCardsStep(node, balanced, used, share, gpuMap, n, {});
    }
  }

  // ---- the groups of one container ----

  /** The group has as many eligible cards as GPUs are requested. */
  ghost predicate Enough(node: NodeInfo, used: NodeResources, request: Resources, gpuMap: set<string>) {
    NumGpu(request) <= |Eligible(node, PerGpuCapacity(node), used, PerGpuRequest(request), gpuMap)|
  }

  /** Every group before the first with enough eligible cards has none at all. */
  ghost predicate NoLeftover(node: NodeInfo, used: NodeResources, request: Resources, gpuMaps: seq<set<string>>)
    decreases |gpuMaps|
  {
    gpuMaps == [] || Enough(node, used, request, gpuMaps[0])
    || (Eligible(node, PerGpuCapacity(node), used, PerGpuRequest(request), gpuMaps[0]) == {}
        && NoLeftover(node, used, request, gpuMaps[1..]))
  }

  /** A container that needs a GPU takes at least one plugin unit of each card. */
  lemma SharesOnePlugin(request: Resources)
    requires NumGpu(request) > 0
    ensures Amount(PerGpuRequest(request), PluginName(request)) >= 1
  {
    if NumGpu(request) > 1 {
      assert PluginName(request) in request && request[PluginName(request)] == NumGpu(request);
      assert PerGpuRequest(request)[PluginName(request)] == Quotient(NumGpu(request), NumGpu(request));
      assert Quotient(NumGpu(request), NumGpu(request)) == 1;
    }
  }

  lemma EnoughIsOk(node: NodeInfo, balanced: string, used: NodeResources, request: Resources, gpuMap: set<string>)
    ensures PlaceCards(node, balanced, used, PerGpuRequest(request), gpuMap, NumGpu(request), {}).ok
       <==> Enough(node, used, request, gpuMap)
  {
    PlaceCardsSucceeds(node, balanced, used, PerGpuRequest(request), gpuMap, NumGpu(request), {});
    var eligible := Eligible(node, PerGpuCapacity(node), used, PerGpuRequest(request), gpuMap);
    assert eligible - {} == eligible;
  }

  /** The groups together never add less than the shares of the cards placed, and exactly that if and only if no
      failed group has left anything. */
  lemma {:induction false} GroupsAdd(node: NodeInfo, balanced: string, used: NodeResources, request: Resources,
                                     gpuMaps: seq<set<string>>)
    ensures var p := PlaceInGroups(node, balanced, used, request, gpuMaps);
      && GrowsAtLeast(used, p.used, PerGpuRequest(request), p.cards)
      && (GrowsBy(used, p.used, PerGpuRequest(request), p.cards) <==> NoLeftover(node, used, request, gpuMaps))
    decreases |gpuMaps|
  {
    if gpuMaps != [] {
      var share, n := PerGpuRequest(request), NumGpu(request);
      var first := PlaceCards(node, balanced, used, share, gpuMaps[0], n, {});
      PlaceCardsAdds(node, balanced, used, share, gpuMaps[0], n, {});
      EnoughIsOk(node, balanced, used, request, gpuMaps[0]);
      if !first.ok {
        PlacesNothing(node, balanced, used, share, gpuMaps[0], n);
        GroupsAdd(node, balanced, first.used, request, gpuMaps[1..]);
        var p := PlaceInGroups(node, balanced, first.used, request, gpuMaps[1..]);
        if first.cards != [] {
          SomethingLeft(used, first.used, p.used, request, first.cards, p.cards);
        }
      }
    }
  }

  lemma SomethingLeft(used: NodeResources, mid: NodeResources, after: NodeResources, request: Resources,
                      left: seq<string>, cards: seq<string>)
    requires left != [] && NumGpu(request) > 0 && NonNegative(PerGpuRequest(request))
    requires GrowsBy(used, mid, PerGpuRequest(request), left)
    requires GrowsAtLeast(mid, after, PerGpuRequest(request), cards)
    ensures GrowsAtLeast(used, after, PerGpuRequest(request), cards) && !GrowsBy(used, after, PerGpuRequest(request), cards)
  {
    var share, k, card := PerGpuRequest(request), PluginName(request), left[0];
    forall c, k ensures CardsUse(share, left, c, k) >= 0 {
      CardsUseNonNegative(share, left, c, k);
    }
    SharesOnePlugin(request);
    CardsUseNonNegative(share, left, card, k);
    assert CardsUse(share, left, card, k) >= 1;
    assert AmountAt(mid, card, k) > AmountAt(used, card, k);
    assert AmountAt(after, card, k) >= AmountAt(mid, card, k) + CardsUse(share, cards, card, k);
  }

  /** A container that is placed gets as many cards as GPUs it requests. */
  lemma {:induction false} PlacedAll(node: NodeInfo, balanced: string, used: NodeResources, share: Resources,
                                     gpuMap: set<string>, n: nat, taken: set<string>)
    requires PlaceCards(node, balanced, used, share, gpuMap, n, taken).ok
    ensures |PlaceCards(node, balanced, used, share, gpuMap, n, taken).cards| == n
    decreases n
  {
    if n > 0 {
      var card := FirstOf(node, balanced, used, Eligible(node, PerGpuCapacity(node), used, share, gpuMap) - taken);
      PlaceCardsStep(node, balanced, used, share, gpuMap, n, taken);
      PlacedAll(node, balanced, AfterAdd(used, share, card), share, gpuMap, n - 1, taken + {card});
    }
  }

  lemma {:induction false} GroupsPlaceAll(node: NodeInfo, balanced: string, used: NodeResources, request: Resources,
                                          gpuMaps: seq<set<string>>)
    requires PlaceInGroups(node, balanced, used, request, gpuMaps).ok
    ensures |PlaceInGroups(node, balanced, used, request, gpuMaps).cards| == NumGpu(request)
    decreases |gpuMaps|
  {
    var first := PlaceCards(node, balanced, used, PerGpuRequest(request), gpuMaps[0], NumGpu(request), {});
    if first.ok {
      PlacedAll(node, balanced, used, PerGpuRequest(request), gpuMaps[0], NumGpu(request), {});
    } else {
      GroupsPlaceAll(node, balanced, first.used, request, gpuMaps[1..]);
    }
  }

  /** The copy that group i finds: the earlier groups have failed. */
  ghost function BeforeGroup(node: NodeInfo, balanced: string, used: NodeResources, request: Resources,
                             gpuMaps: seq<set<string>>, i: nat): NodeResources
    requires i <= |gpuMaps|
  {
    if i == 0 then used
    else
      var before := BeforeGroup(node, balanced, used, request, gpuMaps, i - 1);
      PlaceCards(node, balanced, before, PerGpuRequest(request), gpuMaps[i - 1], NumGpu(request), {}).used
  }

  /** Some group has enough eligible cards when its turn comes. */
  ghost predicate SomeGroup(node: NodeInfo, balanced: string, used: NodeResources, request: Resources,
                            gpuMaps: seq<set<string>>, from: nat) {
    exists j :: from <= j < |gpuMaps| && Enough(node, BeforeGroup(node, balanced, used, request, gpuMaps, j), request, gpuMaps[j])
  }

  lemma {:induction false} GroupsSucceed(node: NodeInfo, balanced: string, used: NodeResources, request: Resources,
                                         gpuMaps: seq<set<string>>, i: nat)
    requires i <= |gpuMaps|
    ensures PlaceInGroups(node, balanced, BeforeGroup(node, balanced, used, request, gpuMaps, i), request, gpuMaps[i..]).ok
       <==> SomeGroup(node, balanced, used, request, gpuMaps, i)
    decreases |gpuMaps| - i
  {
    if i < |gpuMaps| {
      var before := BeforeGroup(node, balanced, used, request, gpuMaps, i);
      var next := i + 1;
      NextGroup(node, balanced, before, request, gpuMaps, i);
      EnoughIsOk(node, balanced, before, request, gpuMaps[i]);
      GroupsSucceed(node, balanced, used, request, gpuMaps, next);
      assert BeforeGroup(node, balanced, used, request, gpuMaps, next)
          == PlaceCards(node, balanced, before, PerGpuRequest(request), gpuMaps[i], NumGpu(request), {}).used;
    } else {
      assert gpuMaps[i..] == [];
    }
  }

  // ---- all containers of a pod ----

  /** The copy that container i finds. */
  ghost function CopyBefore(node: NodeInfo, balanced: string, used: NodeResources, requests: seq<Resources>,
                            sameGpu: set<int>, shared: seq<string>, gpuMaps: seq<set<string>>, i: nat): NodeResources
    requires i <= |requests|
  {
    if i == 0 then used
    else
      var before := CopyBefore(node, balanced, used, requests, sameGpu, shared, gpuMaps, i - 1);
      PlaceContainerAt(node, balanced, before, requests, sameGpu, shared, gpuMaps, i - 1).used
  }

  ghost predicate PlacedAt(node: NodeInfo, balanced: string, used: NodeResources, requests: seq<Resources>,
                           sameGpu: set<int>, shared: seq<string>, gpuMaps: seq<set<string>>, i: nat)
    requires i < |requests|
  {
    i in sameGpu
    || SomeGroup(node, balanced, CopyBefore(node, balanced, used, requests, sameGpu, shared, gpuMaps, i), requests[i], gpuMaps, 0)
  }

  ghost predicate CleanAt(node: NodeInfo, balanced: string, used: NodeResources, requests: seq<Resources>,
                          sameGpu: set<int>, shared: seq<string>, gpuMaps: seq<set<string>>, i: nat)
    requires i < |requests|
  {
    i in sameGpu
    || NoLeftover(node, CopyBefore(node, balanced, used, requests, sameGpu, shared, gpuMaps, i), requests[i], gpuMaps)
  }

  lemma {:induction false} RestSucceeds(node: NodeInfo, balanced: string, used: NodeResources, requests: seq<Resources>,
                                        sameGpu: set<int>, shared: seq<string>, gpuMaps: seq<set<string>>, i: nat)
    requires i <= |requests|
    ensures var copy := CopyBefore(node, balanced, used, requests, sameGpu, shared, gpuMaps, i);
      PlaceRest(node, balanced, copy, requests, sameGpu, shared, gpuMaps, i).ok <==>
        forall j :: i <= j < |requests| ==> PlacedAt(node, balanced, used, requests, sameGpu, shared, gpuMaps, j)
    decreases |requests| - i
  {
    if i < |requests| {
      var copy := CopyBefore(node, balanced, used, requests, sameGpu, shared, gpuMaps, i);
      RestSucceeds(node, balanced, used, requests, sameGpu, shared, gpuMaps, i + 1);
      GroupsSucceed(node, balanced, copy, requests[i], gpuMaps, 0);
      assert gpuMaps[0..] == gpuMaps;
      assert PlaceContainerAt(node, balanced, copy, requests, sameGpu, shared, gpuMaps, i).ok
        <==> PlacedAt(node, balanced, used, requests, sameGpu, shared, gpuMaps, i);
    }
  }

  /** Some card can take all the containers that share one. */
  ghost predicate CanShare(node: NodeInfo, used: NodeResources, requests: seq<Resources>, sameGpu: set<int>,
                           gpuMap: set<string>)
    requires forall i :: i in sameGpu ==> 0 <= i < |requests|
  {
    sameGpu == {} || (MayShare(requests, sameGpu) && Shareable(node, used, requests, sameGpu, gpuMap) != {})
  }

  /** First fit places a pod if and only if some card can be shared, and then every other container finds, on the copy
      that the ones before it have left, a group with enough eligible cards after what the failed groups took. */
  lemma PlacedExactly(node: NodeInfo, balanced: string, used: NodeResources, requests: seq<Resources>,
                      sameGpu: set<int>, gpuMaps: seq<set<string>>)
    requires gpuMaps != [] && forall i :: i in sameGpu ==> 0 <= i < |requests|
    ensures var shared := PlaceSameGpu(node, balanced, used, requests, sameGpu, gpuMaps[0]);
      PlacePod(node, balanced, used, requests, sameGpu, gpuMaps).ok <==>
        CanShare(node, used, requests, sameGpu, gpuMaps[0])
        && forall i :: 0 <= i < |requests| ==>
             PlacedAt(node, balanced, shared.used, requests, sameGpu, shared.cards, gpuMaps, i)
  {
    var shared := PlaceSameGpu(node, balanced, used, requests, sameGpu, gpuMaps[0]);
    RestSucceeds(node, balanced, shared.used, requests, sameGpu, shared.cards, gpuMaps, 0);
  }

  // ---- the growth of the copy ----

  /** What the containers from the i-th on take, those that share a card left aside. */
  function RestUse(requests: seq<Resources>, names: seq<seq<string>>, sameGpu: set<int>, i: nat, card: string,
                   key: string): int
    requires i + |names| == |requests|
    decreases |names|
  {
    if names == [] then 0
    else
      (if i in sameGpu then 0 else CardsUse(AllocFor(requests[i], names[0]).share, names[0], card, key))
      + RestUse(requests, names[1..], sameGpu, i + 1, card, key)
  }

  ghost predicate RestBy(before: NodeResources, after: NodeResources, requests: seq<Resources>, names: seq<seq<string>>,
                         sameGpu: set<int>, i: nat)
    requires i + |names| == |requests|
  {
    forall c, k :: AmountAt(after, c, k) == AmountAt(before, c, k) + RestUse(requests, names, sameGpu, i, c, k)
  }

  ghost predicate RestAtLeast(before: NodeResources, after: NodeResources, requests: seq<Resources>,
                              names: seq<seq<string>>, sameGpu: set<int>, i: nat)
    requires i + |names| == |requests|
  {
    forall c, k :: AmountAt(after, c, k) >= AmountAt(before, c, k) + RestUse(requests, names, sameGpu, i, c, k)
  }

  /** The first container and the others each add at least their use, so both are exact exactly when the sum is. */
  lemma RestOneMore(before: NodeResources, mid: NodeResources, after: NodeResources, requests: seq<Resources>,
                    names: seq<seq<string>>, sameGpu: set<int>, i: nat)
    requires names != [] && i + |names| == |requests|
    requires i in sameGpu ==> mid == before
    requires i !in sameGpu ==> GrowsAtLeast(before, mid, AllocFor(requests[i], names[0]).share, names[0])
    requires RestAtLeast(mid, after, requests, names[1..], sameGpu, i + 1)
    ensures RestAtLeast(before, after, requests, names, sameGpu, i)
    ensures RestBy(before, after, requests, names, sameGpu, i) <==>
      (i in sameGpu || GrowsBy(before, mid, AllocFor(requests[i], names[0]).share, names[0]))
      && RestBy(mid, after, requests, names[1..], sameGpu, i + 1)
  {
    var share := AllocFor(requests[i], names[0]).share;
    forall c, k
      ensures RestUse(requests, names, sameGpu, i, c, k)
           == (if i in sameGpu then 0 else CardsUse(share, names[0], c, k))
              + RestUse(requests, names[1..], sameGpu, i + 1, c, k)
      ensures AmountAt(mid, c, k) >= AmountAt(before, c, k) + (if i in sameGpu then 0 else CardsUse(share, names[0], c, k))
      ensures AmountAt(after, c, k) >= AmountAt(mid, c, k) + RestUse(requests, names[1..], sameGpu, i + 1, c, k)
    {
    }
  }

  /** The container's share is the one its annotation gives back. */
  lemma SameShare(request: Resources, cards: seq<string>, before: NodeResources, after: NodeResources)
    requires |cards| == NumGpu(request)
    ensures GrowsBy(before, after, AllocFor(request, cards).share, cards) <==> GrowsBy(before, after, PerGpuRequest(request), cards)
    ensures GrowsAtLeast(before, after, AllocFor(request, cards).share, cards)
       <==> GrowsAtLeast(before, after, PerGpuRequest(request), cards)
  {
    if cards != [] {
      ShareOfRequest(request, |cards|);
    }
  }

  /** One container of its own adds at least its use, and exactly that when its failed groups left nothing. */
  lemma OwnContainerAdds(node: NodeInfo, balanced: string, used: NodeResources, request: Resources,
                         gpuMaps: seq<set<string>>)
    requires PlaceInGroups(node, balanced, used, request, gpuMaps).ok
    ensures var p := PlaceInGroups(node, balanced, used, request, gpuMaps);
      && GrowsAtLeast(used, p.used, AllocFor(request, p.cards).share, p.cards)
      && (GrowsBy(used, p.used, AllocFor(request, p.cards).share, p.cards) <==> NoLeftover(node, used, request, gpuMaps))
  {
    var p := PlaceInGroups(node, balanced, used, request, gpuMaps);
    GroupsPlaceAll(node, balanced, used, request, gpuMaps);
    GroupsAdd(node, balanced, used, request, gpuMaps);
    SameShare(request, p.cards, used, p.used);
  }

  /** The outcome of the containers from the i-th on, and when it is exact. */
  ghost predicate RestSums(before: NodeResources, p: PodPlaced, requests: seq<Resources>, sameGpu: set<int>,
                           shared: seq<string>, i: nat, clean: bool) {
    && i + |p.cards| == |requests|
    && (forall j :: 0 <= j < |p.cards| && i + j in sameGpu ==> p.cards[j] == shared)
    && RestAtLeast(before, p.used, requests, p.cards, sameGpu, i)
    && (RestBy(before, p.used, requests, p.cards, sameGpu, i) <==> clean)
  }

  lemma RestSumsMore(before: NodeResources, first: Placed, rest: PodPlaced, requests: seq<Resources>, sameGpu: set<int>,
                     shared: seq<string>, i: nat, cleanFirst: bool, clean: bool)
    requires i < |requests| && RestSums(first.used, rest, requests, sameGpu, shared, i + 1, clean)
    requires i in sameGpu ==> first == Placed(shared, before, true) && cleanFirst
    requires i !in sameGpu ==>
      && GrowsAtLeast(before, first.used, AllocFor(requests[i], first.cards).share, first.cards)
      && (GrowsBy(before, first.used, AllocFor(requests[i], first.cards).share, first.cards) <==> cleanFirst)
    ensures RestSums(before, AfterAll([first.cards], rest), requests, sameGpu, shared, i, cleanFirst && clean)
  {
    var names := [first.cards] + rest.cards;
    assert names[1..] == rest.cards && names[0] == first.cards;
    RestOneMore(before, first.used, rest.used, requests, names, sameGpu, i);
    forall j | 0 <= j < |names| && i + j in sameGpu ensures names[j] == shared {
      if j > 0 {
        assert (i + 1) + (j - 1) in sameGpu;
      }
    }
  }

  ghost predicate CleanFrom(node: NodeInfo, balanced: string, used: NodeResources, requests: seq<Resources>,
                            sameGpu: set<int>, shared: seq<string>, gpuMaps: seq<set<string>>, i: nat) {
    forall j :: i <= j < |requests| ==> CleanAt(node, balanced, used, requests, sameGpu, shared, gpuMaps, j)
  }

  lemma {:induction false} RestAdds(node: NodeInfo, balanced: string, used: NodeResources, requests: seq<Resources>,
                                    sameGpu: set<int>, shared: seq<string>, gpuMaps: seq<set<string>>, i: nat)
    requires i <= |requests|
    requires PlaceRest(node, balanced, CopyBefore(node, balanced, used, requests, sameGpu, shared, gpuMaps, i), requests,
                       sameGpu, shared, gpuMaps, i).ok
    ensures var copy := CopyBefore(node, balanced, used, requests, sameGpu, shared, gpuMaps, i);
      RestSums(copy, PlaceRest(node, balanced, copy, requests, sameGpu, shared, gpuMaps, i), requests, sameGpu, shared, i,
               CleanFrom(node, balanced, used, requests, sameGpu, shared, gpuMaps, i))
    decreases |requests| - i
  {
    var copy := CopyBefore(node, balanced, used, requests, sameGpu, shared, gpuMaps, i);
    if i == |requests| {
      NothingMore(copy, requests, sameGpu, shared);
    } else {
      var first := PlaceContainerAt(node, balanced, copy, requests, sameGpu, shared, gpuMaps, i);
      RestAdds(node, balanced, used, requests, sameGpu, shared, gpuMaps, i + 1);
      ContainerAtAdds(node, balanced, used, requests, sameGpu, shared, gpuMaps, i);
      RestSumsMore(copy, first, PlaceRest(node, balanced, first.used, requests, sameGpu, shared, gpuMaps, i + 1), requests,
                   sameGpu, shared, i, CleanAt(node, balanced, used, requests, sameGpu, shared, gpuMaps, i),
                   CleanFrom(node, balanced, used, requests, sameGpu, shared, gpuMaps, i + 1));
      CleanOneMore(node, balanced, used, requests, sameGpu, shared, gpuMaps, i);
    }
  }

  lemma NothingMore(copy: NodeResources, requests: seq<Resources>, sameGpu: set<int>, shared: seq<string>)
    ensures RestSums(copy, PodPlaced([], copy, true), requests, sameGpu, shared, |requests|, true)
  {
  }

  lemma CleanOneMore(node: NodeInfo, balanced: string, used: NodeResources, requests: seq<Resources>,
                     sameGpu: set<int>, shared: seq<string>, gpuMaps: seq<set<string>>, i: nat)
    requires i < |requests|
    ensures CleanFrom(node, balanced, used, requests, sameGpu, shared, gpuMaps, i)
      <==> CleanAt(node, balanced, used, requests, sameGpu, shared, gpuMaps, i)
           && CleanFrom(node, balanced, used, requests, sameGpu, shared, gpuMaps, i + 1)
  {
  }

  lemma ContainerAtAdds(node: NodeInfo, balanced: string, used: NodeResources, requests: seq<Resources>,
                        sameGpu: set<int>, shared: seq<string>, gpuMaps: seq<set<string>>, i: nat)
    requires i < |requests|
    requires PlaceContainerAt(node, balanced, CopyBefore(node, balanced, used, requests, sameGpu, shared, gpuMaps, i),
                              requests, sameGpu, shared, gpuMaps, i).ok
    ensures var copy := CopyBefore(node, balanced, used, requests, sameGpu, shared, gpuMaps, i);
      var first := PlaceContainerAt(node, balanced, copy, requests, sameGpu, shared, gpuMaps, i);
      var clean := CleanAt(node, balanced, used, requests, sameGpu, shared, gpuMaps, i);
      && (i in sameGpu ==> first == Placed(shared, copy, true) && clean)
      && (i !in sameGpu ==>
            && GrowsAtLeast(copy, first.used, AllocFor(requests[i], first.cards).share, first.cards)
            && (GrowsBy(copy, first.used, AllocFor(requests[i], first.cards).share, first.cards) <==> clean))
  {
    if i !in sameGpu {
      var copy := CopyBefore(node, balanced, used, requests, sameGpu, shared, gpuMaps, i);
      OwnContainerAdds(node, balanced, copy, requests[i], gpuMaps);
    }
  }

  // ---- the containers that share a card ----

  lemma TotalSums(requests: seq<Resources>, sameGpu: set<int>)
    requires forall i :: i in sameGpu ==> 0 <= i < |requests|
    requires Combinable(requests, sameGpu)
    ensures SumsTo(TotalRequest(requests, sameGpu), requests, sameGpu)
  {
    var total := TotalRequest(requests, sameGpu);
    forall k ensures Amount(total, k) == SelectedSum(requests, sameGpu, k) {
      if k in KeysOf(requests, sameGpu) {
        var i :| i in sameGpu && 0 <= i < |requests| && k in requests[i];
        SelectedSumTerm(requests, sameGpu, i, k);
      } else {
        forall i | i in sameGpu ensures Amount(requests[i], k) == 0 {
          assert k in requests[i] ==> k in KeysOf(requests, sameGpu);
        }
        SumOfZeros(requests, sameGpu, k);
      }
    }
  }

  function OnOf(cards: seq<string>): string { if cards == [] then "" else cards[0] }

  /** The shared card rises by at least the sum of the requests, and by exactly that with one plugin type only. */
  lemma SharedAdds(node: NodeInfo, balanced: string, used: NodeResources, requests: seq<Resources>, sameGpu: set<int>,
                   gpuMap: set<string>)
    requires forall i :: i in sameGpu ==> 0 <= i < |requests|
    requires PlaceSameGpu(node, balanced, used, requests, sameGpu, gpuMap).ok
    ensures var p := PlaceSameGpu(node, balanced, used, requests, sameGpu, gpuMap);
      && SameGpuAdded(used, p.used, requests, sameGpu, OnOf(p.cards))
      && (sameGpu != {} ==>
            |p.cards| == 1
            && forall i :: i in sameGpu ==> AllocFor(requests[i], p.cards) == Alloc(requests[i], p.cards))
  {
    var p := PlaceSameGpu(node, balanced, used, requests, sameGpu, gpuMap);
    if sameGpu == {} {
      forall k ensures SelectedSum(requests, {}, k) == 0 {
        SelectedSumNone(requests, k);
      }
    } else {
      var card := FirstOf(node, balanced, used, Shareable(node, used, requests, sameGpu, gpuMap));
      SharedCardAdds(node, used, p.used, requests, sameGpu, gpuMap, card);
      forall i | i in sameGpu ensures AllocFor(requests[i], p.cards) == Alloc(requests[i], p.cards) {
        ShareByOne(requests[i]);
      }
    }
  }

  lemma SharedCardAdds(node: NodeInfo, used: NodeResources, end: NodeResources, requests: seq<Resources>, sameGpu: set<int>,
                       gpuMap: set<string>, card: string)
    requires sameGpu != {} && forall i :: i in sameGpu ==> 0 <= i < |requests|
    requires MayShare(requests, sameGpu) && card in Shareable(node, used, requests, sameGpu, gpuMap)
    requires var combined := CombinedRequest(requests, sameGpu);
      end == AfterAdd(AfterAdd(used, combined, card), map[PluginName(combined) := Clamp(|sameGpu| - 1)], card)
    ensures SameGpuAdded(used, end, requests, sameGpu, card)
  {
    var total, combined, n := TotalRequest(requests, sameGpu), CombinedRequest(requests, sameGpu), |sameGpu|;
    var plugin, mid := PluginName(total), AfterAdd(used, combined, card);
    assert PluginName(combined) == plugin && n >= 1;
    TotalSums(requests, sameGpu);
    FittingCardAdd(used, combined, card, PerGpuCapacity(node));
    FitsExactly(combined, PerGpuCapacity(node), used[card]);
    AddCardIsExact(used, combined, card);
    assert PluginRoom(PerGpuCapacity(node), used[card], plugin) >= n;
    assert AmountAt(mid, card, plugin) == AmountAt(used, card, plugin) + 1;
    BookKeepingFits(node, used, mid, card, plugin, n);
    SameGpuTotals(node, used, mid, end, requests, sameGpu, total, card);
  }

  // ---- the whole pod ----

  /** The allocations the pod's annotation stands for. */
  function NamedAllocs(requests: seq<Resources>, names: seq<seq<string>>): (allocs: seq<Alloc>)
    requires |requests| == |names|
    ensures |allocs| == |requests|
  {
    seq(|requests|, i requires 0 <= i < |requests| => AllocFor(requests[i], names[i]))
  }

  ghost predicate Grows(before: NodeResources, after: NodeResources, allocs: seq<Alloc>) {
    forall c, k :: AmountAt(after, c, k) == AmountAt(before, c, k) + Use(allocs, c, k)
  }

  lemma {:induction false} RestIsPart(requests: seq<Resources>, names: seq<seq<string>>, sameGpu: set<int>, i: nat,
                                      card: string, key: string)
    requires |requests| == |names| && i <= |names|
    ensures var allocs := NamedAllocs(requests, names);
      PartUse(allocs, sameGpu, false, card, key)
      == PartUse(allocs[..i], sameGpu, false, card, key) + RestUse(requests, names[i..], sameGpu, i, card, key)
    decreases |names| - i
  {
    var allocs := NamedAllocs(requests, names);
    if i < |names| {
      RestIsPart(requests, names, sameGpu, i + 1, card, key);
      assert allocs[..i + 1][..i] == allocs[..i] && allocs[..i + 1][i] == allocs[i];
      assert names[i..][0] == names[i] && names[i..][1..] == names[i + 1..];
    } else {
      assert allocs[..i] == allocs;
    }
  }

  lemma PodUse(requests: seq<Resources>, names: seq<seq<string>>, sameGpu: set<int>, shared: seq<string>, card: string,
               key: string)
    requires |requests| == |names| && forall i :: i in sameGpu ==> 0 <= i < |requests|
    requires forall i :: i in sameGpu ==>
      |shared| == 1 && names[i] == shared && AllocFor(requests[i], shared) == Alloc(requests[i], shared)
    ensures Use(NamedAllocs(requests, names), card, key)
         == SameGpuUse(requests, sameGpu, OnOf(shared), card, key) + RestUse(requests, names, sameGpu, 0, card, key)
  {
    var allocs := NamedAllocs(requests, names);
    UseIsBothParts(allocs, sameGpu, card, key);
    RestIsPart(requests, names, sameGpu, 0, card, key);
    assert allocs[..0] == [] && names[0..] == names;
    forall i | 0 <= i < |allocs| && i in sameGpu ensures allocs[i] == Alloc(requests[i], [OnOf(shared)]) {
      assert shared == [OnOf(shared)];
    }
    SelectedUse(requests, allocs, sameGpu, OnOf(shared), card, key);
  }

  /** The containers that share a card use one plugin type, and every other container finds, on the copy that the ones
      before it have left, no group with too few eligible cards but some, before the first group with enough. */
  ghost predicate Clean(node: NodeInfo, balanced: string, used: NodeResources, requests: seq<Resources>,
                        sameGpu: set<int>, gpuMaps: seq<set<string>>)
    requires gpuMaps != [] && forall i :: i in sameGpu ==> 0 <= i < |requests|
  {
    var shared := PlaceSameGpu(node, balanced, used, requests, sameGpu, gpuMaps[0]);
    && OnePluginType(requests, sameGpu)
    && CleanFrom(node, balanced, shared.used, requests, sameGpu, shared.cards, gpuMaps, 0)
  }

  lemma PlannedIsNamed(requests: seq<Resources>, plan: seq<seq<Card>>)
    requires |requests| == |plan|
    ensures PlannedAllocs(requests, plan) == NamedAllocs(requests, CardNames(plan))
  {
  }

  /** First fit grows the copy by exactly the planned use if and only if no failed group leaves anything and the
      containers that share a card use one plugin type. */
  lemma GrowsExactly(node: NodeInfo, balanced: string, used: NodeResources, requests: seq<Resources>,
                     sameGpu: set<int>, gpuMaps: seq<set<string>>)
    requires gpuMaps != [] && forall i :: i in sameGpu ==> 0 <= i < |requests|
    requires PlacePod(node, balanced, used, requests, sameGpu, gpuMaps).ok
    ensures var p := PlacePod(node, balanced, used, requests, sameGpu, gpuMaps);
      && |p.cards| == |requests|
      && (Grows(used, p.used, NamedAllocs(requests, p.cards)) <==> Clean(node, balanced, used, requests, sameGpu, gpuMaps))
  {
    var shared := PlaceSameGpu(node, balanced, used, requests, sameGpu, gpuMaps[0]);
    var p := PlacePod(node, balanced, used, requests, sameGpu, gpuMaps);
    var clean := CleanFrom(node, balanced, shared.used, requests, sameGpu, shared.cards, gpuMaps, 0);
    SharedAdds(node, balanced, used, requests, sameGpu, gpuMaps[0]);
    RestAdds(node, balanced, shared.used, requests, sameGpu, shared.cards, gpuMaps, 0);
    BothParts(used, shared, p, requests, sameGpu, clean);
  }

  lemma BothParts(used: NodeResources, shared: Placed, p: PodPlaced, requests: seq<Resources>, sameGpu: set<int>,
                  clean: bool)
    requires forall i :: i in sameGpu ==> 0 <= i < |requests|
    requires SameGpuAdded(used, shared.used, requests, sameGpu, OnOf(shared.cards))
    requires sameGpu != {} ==> |shared.cards| == 1
    requires forall i :: i in sameGpu ==> AllocFor(requests[i], shared.cards) == Alloc(requests[i], shared.cards)
    requires RestSums(shared.used, p, requests, sameGpu, shared.cards, 0, clean)
    ensures |p.cards| == |requests|
    ensures Grows(used, p.used, NamedAllocs(requests, p.cards)) <==> OnePluginType(requests, sameGpu) && clean
  {
    var on, allocs := OnOf(shared.cards), NamedAllocs(requests, p.cards);
    forall i | i in sameGpu ensures p.cards[i] == shared.cards {
      assert 0 + i in sameGpu;
    }
    forall c, k
      ensures Use(allocs, c, k) == SameGpuUse(requests, sameGpu, on, c, k) + RestUse(requests, p.cards, sameGpu, 0, c, k)
      ensures AmountAt(shared.used, c, k) >= AmountAt(used, c, k) + SameGpuUse(requests, sameGpu, on, c, k)
      ensures AmountAt(p.used, c, k) >= AmountAt(shared.used, c, k) + RestUse(requests, p.cards, sameGpu, 0, c, k)
    {
      PodUse(requests, p.cards, sameGpu, shared.cards, c, k);
    }
  }

  /** With one group of cards a pod that is placed leaves nothing behind. */
  lemma OneGroupIsClean(node: NodeInfo, balanced: string, used: NodeResources, requests: seq<Resources>,
                        sameGpu: set<int>, gpuMap: set<string>)
    requires forall i :: i in sameGpu ==> 0 <= i < |requests|
    requires PlacePod(node, balanced, used, requests, sameGpu, [gpuMap]).ok
    ensures Clean(node, balanced, used, requests, sameGpu, [gpuMap]) <==> OnePluginType(requests, sameGpu)
  {
    var shared := PlaceSameGpu(node, balanced, used, requests, sameGpu, gpuMap);
    PlacedExactly(node, balanced, used, requests, sameGpu, [gpuMap]);
    forall i | 0 <= i < |requests|
      ensures CleanAt(node, balanced, shared.used, requests, sameGpu, shared.cards, [gpuMap], i)
    {
      assert PlacedAt(node, balanced, shared.used, requests, sameGpu, shared.cards, [gpuMap], i);
    }
  }

  // ---- a group that leaves something ----

  /** Three empty cards with room for one plugin unit each. */
  const THREE_CARDS := ["card0", "card1", "card2"]
  const THREE := NodeInfo("n", THREE_CARDS, map[I915_PLUGIN := 3], {"card0", "card1", "card2"}, "", [], [], map[], map[])
  const EMPTY_CARDS: NodeResources := map["card0" := map[], "card1" := map[], "card2" := map[]]
  const TWO_GPUS: Resources := map[I915_PLUGIN := 2]

  lemma RoomForOne(used: NodeResources, card: string)
    requires card in used && card in {"card0", "card1", "card2"} && used[card] == map[]
    ensures forall gpuMap: set<string> :: card in gpuMap ==>
      card in Eligible(THREE, PerGpuCapacity(THREE), used, PerGpuRequest(TWO_GPUS), gpuMap)
  {
    assert HasPrefix(I915_PLUGIN, GPU_PREFIX) by {
      assert I915_PLUGIN[..|GPU_PREFIX|] == GPU_PREFIX;
    }
    assert GpuResources(THREE.allocatable) == map[I915_PLUGIN := 3];
    assert Quotient(3, 3) == 1 && Quotient(2, 2) == 1;
    assert PerGpuCapacity(THREE) == map[I915_PLUGIN := 1];
    assert NumGpu(TWO_GPUS) == 2 && PerGpuRequest(TWO_GPUS) == map[I915_PLUGIN := 1];
    assert Fits(map[I915_PLUGIN := 1], map[I915_PLUGIN := 1], map[]);
  }

  /** A first group with some eligible cards but too few, and a second one apart from it with enough: the container is
      placed and the copy grows by more than its use. */
  lemma SecondGroupTaken(node: NodeInfo, balanced: string, used: NodeResources, request: Resources, a: set<string>,
                         b: set<string>)
    requires a !! b && !Enough(node, used, request, a) && Enough(node, used, request, b)
    requires Eligible(node, PerGpuCapacity(node), used, PerGpuRequest(request), a) != {}
    ensures var p := PlaceInGroups(node, balanced, used, request, [a, b]);
      p.ok && !GrowsBy(used, p.used, PerGpuRequest(request), p.cards)
  {
    var share, cap := PerGpuRequest(request), PerGpuCapacity(node);
    var first := PlaceCards(node, balanced, used, share, a, NumGpu(request), {});
    PlaceCardsAdds(node, balanced, used, share, a, NumGpu(request), {});
    EnoughIsOk(node, balanced, used, request, a);
    assert Eligible(node, cap, first.used, share, b) == Eligible(node, cap, used, share, b);
    EnoughIsOk(node, balanced, first.used, request, b);
    assert [a, b][1..] == [b];
    GroupsAdd(node, balanced, used, request, [a, b]);
  }

  /** A request for two GPUs over the groups {card0} and {card1, card2} is placed on the second group, and card0
      keeps the share of the failed attempt. */
  lemma FirstGroupKeepsAShare(balanced: string)
    ensures var p := PlaceInGroups(THREE, balanced, EMPTY_CARDS, TWO_GPUS, [{"card0"}, {"card1", "card2"}]);
      p.ok && !GrowsBy(EMPTY_CARDS, p.used, PerGpuRequest(TWO_GPUS), p.cards)
  {
    var share, cap := PerGpuRequest(TWO_GPUS), PerGpuCapacity(THREE);
    RoomForOne(EMPTY_CARDS, "card0");
    RoomForOne(EMPTY_CARDS, "card1");
    RoomForOne(EMPTY_CARDS, "card2");
    assert NumGpu(TWO_GPUS) == 2;
    assert Eligible(THREE, cap, EMPTY_CARDS, share, {"card0"}) == {"card0"};
    assert Eligible(THREE, cap, EMPTY_CARDS, share, {"card1", "card2"}) == {"card1", "card2"};
    SecondGroupTaken(THREE, balanced, EMPTY_CARDS, TWO_GPUS, {"card0"}, {"card1", "card2"});
  }
}
