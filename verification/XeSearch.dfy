/** What planning a pod with Xe links may do: the search takes tiles in any order, so its outcomes are a relation, from
    one pair over the groups of a container to all containers of a pod. */
module XeSearch {
  import opened Text
  import opened ResourceArithmetic
  import opened Allocations
  import opened Annotations
  import opened Ordering
  import opened Placement
  import opened TilePlacement
  import opened XeLinks

  // ---- what the search for linked cards may do ----

  /** The planner's copy of the node's use, and the tiles it has promised so far. */
  datatype XeState = XeState(used: NodeResources, allocating: NodeTiles)

  /** The tiles on offer for pairs: linked, and neither in use, disabled nor promised. */
  ghost function OfferOf(node: NodeInfo, s: XeState, status: NodeTiles): NodeTiles {
    map c | c in s.used ::
      XeTiles(node, c) - (TilesAt(status, c) + DisabledTiles(node, c) + TilesAt(s.allocating, c))
  }

  ghost function NameSet(cards: seq<Card>): set<string> { set c | c in Names(cards) }

  /** One pair: it fits on tiles that are on offer, takes its shares, and its tiles are promised. */
  ghost predicate PairPicked(node: NodeInfo, s: XeState, share: Resources, gpuMap: set<string>, taken: set<string>,
                             status: NodeTiles, a: Card, b: Card, after: XeState) {
    && |a.xeLinkedTileIds| == |b.xeLinkedTileIds| == 1
    && PairFits(node, s.used, share, gpuMap, taken, OfferOf(node, s, status), a.gpuName, a.xeLinkedTileIds[0])
    && (b.gpuName, b.xeLinkedTileIds[0]) == LinkedGpu(node, a.gpuName, a.xeLinkedTileIds[0])
    && AdjustCards(s.used, share, [a.gpuName, b.gpuName], true) == Some(after.used)
    && after.allocating == MarkedPair(s.allocating, a, b)
  }

  /** Pair after pair, each on a status that was read. */
  ghost predicate PairsPicked(node: NodeInfo, s: XeState, share: Resources, gpuMap: set<string>, picked: seq<Card>,
                              seen: set<NodeTiles>, after: XeState)
    decreases |picked|
  {
    if |picked| < 2 then picked == [] && after == s
    else exists mid, status :: status in seen && LastPair(node, s, share, gpuMap, picked, seen, mid, status, after)
  }

  ghost predicate LastPair(node: NodeInfo, s: XeState, share: Resources, gpuMap: set<string>, picked: seq<Card>,
                           seen: set<NodeTiles>, mid: XeState, status: NodeTiles, after: XeState)
    requires |picked| >= 2
    decreases |picked|, 0
  {
    var n := |picked| - 2;
    && PairsPicked(node, s, share, gpuMap, picked[..n], seen, mid)
    && PairPicked(node, mid, share, gpuMap, NameSet(picked[..n]), status, picked[n], picked[n + 1], after)
  }

  /** The search found no further pair. */
  ghost predicate RanOut(node: NodeInfo, s: XeState, share: Resources, gpuMap: set<string>, n: int, picked: seq<Card>,
                         seen: set<NodeTiles>, status: NodeTiles, after: XeState) {
    && |picked| < n && status in seen && PairsPicked(node, s, share, gpuMap, picked, seen, after)
    && !PairExists(node, after.used, share, gpuMap, NameSet(picked), OfferOf(node, after, status))
  }

  /** An attempt on one group of cards. */
  ghost predicate XeAttempt(node: NodeInfo, s: XeState, request: Resources, gpuMap: set<string>, seen: set<NodeTiles>,
                            cards: Option<seq<Card>>, after: XeState) {
    if NumGpu(request) % 2 != 0 then cards.None? && after == s
    else
      match cards
      case Some(picked) =>
        |picked| == NumGpu(request) && PairsPicked(node, s, PerGpuRequest(request), gpuMap, picked, seen, after)
      case None =>
        exists picked, status :: RanOut(node, s, PerGpuRequest(request), gpuMap, NumGpu(request), picked, seen, status, after)
  }

  /** The first i groups have failed, each on what the ones before it left. */
  ghost predicate XeFailed(node: NodeInfo, s: XeState, request: Resources, gpuMaps: seq<set<string>>, i: nat,
                           seen: set<NodeTiles>, after: XeState)
    requires i <= |gpuMaps|
    decreases i
  {
    if i == 0 then after == s
    else exists mid :: LastFailed(node, s, request, gpuMaps, i, seen, mid, after)
  }

  ghost predicate LastFailed(node: NodeInfo, s: XeState, request: Resources, gpuMaps: seq<set<string>>, i: nat,
                             seen: set<NodeTiles>, mid: XeState, after: XeState)
    requires 0 < i <= |gpuMaps|
    decreases i, 0
  {
    && XeFailed(node, s, request, gpuMaps, i - 1, seen, mid)
    && XeAttempt(node, mid, request, gpuMaps[i - 1], seen, None, after)
  }

  ghost predicate XeFound(node: NodeInfo, s: XeState, request: Resources, gpuMaps: seq<set<string>>, i: nat,
                          seen: set<NodeTiles>, mid: XeState, cards: seq<Card>, after: XeState) {
    && i < |gpuMaps| && XeFailed(node, s, request, gpuMaps, i, seen, mid)
    && XeAttempt(node, mid, request, gpuMaps[i], seen, Some(cards), after)
  }

  /** One container: the first group that does not fail, or none. */
  ghost predicate XeContainer(node: NodeInfo, s: XeState, request: Resources, gpuMaps: seq<set<string>>,
                              seen: set<NodeTiles>, cards: Option<seq<Card>>, after: XeState) {
    match cards
    case Some(picked) => exists i: nat, mid :: XeFound(node, s, request, gpuMaps, i, seen, mid, picked, after)
    case None => XeFailed(node, s, request, gpuMaps, |gpuMaps|, seen, after)
  }

  /** The containers planned so far, one after the other. */
  ghost predicate XePlanned(node: NodeInfo, s: XeState, requests: seq<Resources>, gpuMaps: seq<set<string>>,
                            plan: seq<seq<Card>>, seen: set<NodeTiles>, after: XeState)
    requires |plan| <= |requests|
    decreases |plan|
  {
    if plan == [] then after == s
    else
      var n := |plan| - 1;
      exists mid :: XePlanned(node, s, requests, gpuMaps, plan[..n], seen, mid)
                    && XeContainer(node, mid, requests[n], gpuMaps, seen, Some(plan[n]), after)
  }

  ghost predicate XeRefused(node: NodeInfo, s: XeState, requests: seq<Resources>, gpuMaps: seq<set<string>>,
                            plan: seq<seq<Card>>, seen: set<NodeTiles>, mid: XeState, after: XeState) {
    && |plan| < |requests| && XePlanned(node, s, requests, gpuMaps, plan, seen, mid)
    && XeContainer(node, mid, requests[|plan|], gpuMaps, seen, None, after)
  }

  /** A pod with Xe links: all its containers are planned, or one finds no pair after the ones before it. */
  ghost predicate XePod(node: NodeInfo, s: XeState, requests: seq<Resources>, gpuMaps: seq<set<string>>,
                        seen: set<NodeTiles>, plan: Option<seq<seq<Card>>>, after: XeState) {
    match plan
    case Some(p) => |p| == |requests| && XePlanned(node, s, requests, gpuMaps, p, seen, after)
    case None => exists p, mid :: XeRefused(node, s, requests, gpuMaps, p, seen, mid, after)
  }

  // ---- having read more rules nothing out ----

  lemma {:induction false} PairsSeeMore(node: NodeInfo, s: XeState, share: Resources, gpuMap: set<string>,
                                        picked: seq<Card>, seen: set<NodeTiles>, more: set<NodeTiles>, after: XeState)
    requires seen <= more && PairsPicked(node, s, share, gpuMap, picked, seen, after)
    ensures PairsPicked(node, s, share, gpuMap, picked, more, after)
    decreases |picked|
  {
    if |picked| >= 2 {
      var mid, status :| status in seen && LastPair(node, s, share, gpuMap, picked, seen, mid, status, after);
      PairsSeeMore(node, s, share, gpuMap, picked[..|picked| - 2], seen, more, mid);
      assert LastPair(node, s, share, gpuMap, picked, more, mid, status, after);
    }
  }

  lemma AttemptSeesMore(node: NodeInfo, s: XeState, request: Resources, gpuMap: set<string>, seen: set<NodeTiles>,
                        more: set<NodeTiles>, cards: Option<seq<Card>>, after: XeState)
    requires seen <= more && XeAttempt(node, s, request, gpuMap, seen, cards, after)
    ensures XeAttempt(node, s, request, gpuMap, more, cards, after)
  {
    var share, n := PerGpuRequest(request), NumGpu(request);
    if n % 2 == 0 {
      match cards
      case Some(picked) => PairsSeeMore(node, s, share, gpuMap, picked, seen, more, after);
      case None =>
        var picked, status :| RanOut(node, s, share, gpuMap, n, picked, seen, status, after);
        PairsSeeMore(node, s, share, gpuMap, picked, seen, more, after);
        assert RanOut(node, s, share, gpuMap, n, picked, more, status, after);
    }
  }

  lemma {:induction false} FailedSeesMore(node: NodeInfo, s: XeState, request: Resources, gpuMaps: seq<set<string>>, i: nat,
                                          seen: set<NodeTiles>, more: set<NodeTiles>, after: XeState)
    requires i <= |gpuMaps| && seen <= more && XeFailed(node, s, request, gpuMaps, i, seen, after)
    ensures XeFailed(node, s, request, gpuMaps, i, more, after)
  {
    if i > 0 {
      var mid :| LastFailed(node, s, request, gpuMaps, i, seen, mid, after);
      FailedSeesMore(node, s, request, gpuMaps, i - 1, seen, more, mid);
      AttemptSeesMore(node, mid, request, gpuMaps[i - 1], seen, more, None, after);
      assert LastFailed(node, s, request, gpuMaps, i, more, mid, after);
    }
  }

  lemma ContainerSeesMore(node: NodeInfo, s: XeState, request: Resources, gpuMaps: seq<set<string>>, seen: set<NodeTiles>,
                          more: set<NodeTiles>, cards: Option<seq<Card>>, after: XeState)
    requires seen <= more && XeContainer(node, s, request, gpuMaps, seen, cards, after)
    ensures XeContainer(node, s, request, gpuMaps, more, cards, after)
  {
    match cards
    case Some(picked) =>
      var i: nat, mid :| XeFound(node, s, request, gpuMaps, i, seen, mid, picked, after);
      FailedSeesMore(node, s, request, gpuMaps, i, seen, more, mid);
      AttemptSeesMore(node, mid, request, gpuMaps[i], seen, more, cards, after);
      assert XeFound(node, s, request, gpuMaps, i, more, mid, picked, after);
    case None => FailedSeesMore(node, s, request, gpuMaps, |gpuMaps|, seen, more, after);
  }

  lemma {:induction false} PlannedSeesMore(node: NodeInfo, s: XeState, requests: seq<Resources>, gpuMaps: seq<set<string>>,
                                           plan: seq<seq<Card>>, seen: set<NodeTiles>, more: set<NodeTiles>, after: XeState)
    requires |plan| <= |requests| && seen <= more && XePlanned(node, s, requests, gpuMaps, plan, seen, after)
    ensures XePlanned(node, s, requests, gpuMaps, plan, more, after)
    decreases |plan|
  {
    if plan != [] {
      var n := |plan| - 1;
      var mid :| XePlanned(node, s, requests, gpuMaps, plan[..n], seen, mid)
                 && XeContainer(node, mid, requests[n], gpuMaps, seen, Some(plan[n]), after);
      PlannedSeesMore(node, s, requests, gpuMaps, plan[..n], seen, more, mid);
      ContainerSeesMore(node, mid, requests[n], gpuMaps, seen, more, Some(plan[n]), after);
    }
  }

  lemma PodSeesMore(node: NodeInfo, s: XeState, requests: seq<Resources>, gpuMaps: seq<set<string>>, seen: set<NodeTiles>,
                    more: set<NodeTiles>, plan: Option<seq<seq<Card>>>, after: XeState)
    requires seen <= more && XePod(node, s, requests, gpuMaps, seen, plan, after)
    ensures XePod(node, s, requests, gpuMaps, more, plan, after)
  {
    match plan
    case Some(p) => PlannedSeesMore(node, s, requests, gpuMaps, p, seen, more, after);
    case None =>
      var p, mid :| XeRefused(node, s, requests, gpuMaps, p, seen, mid, after);
      PlannedSeesMore(node, s, requests, gpuMaps, p, seen, more, mid);
      ContainerSeesMore(node, mid, requests[|p|], gpuMaps, seen, more, None, after);
      assert XeRefused(node, s, requests, gpuMaps, p, more, mid, after);
  }

  // ---- one step more ----

  lemma OnePairMore(node: NodeInfo, s: XeState, share: Resources, gpuMap: set<string>, picked: seq<Card>,
                    seen: set<NodeTiles>, mid: XeState, status: NodeTiles, a: Card, b: Card, after: XeState)
    requires PairsPicked(node, s, share, gpuMap, picked, seen, mid)
    requires PairPicked(node, mid, share, gpuMap, NameSet(picked), status, a, b, after)
    ensures PairsPicked(node, s, share, gpuMap, picked + [a, b], seen + {status}, after)
  {
    var all, more := picked + [a, b], seen + {status};
    PairsSeeMore(node, s, share, gpuMap, picked, seen, more, mid);
    assert all[..|all| - 2] == picked;
    assert LastPair(node, s, share, gpuMap, all, more, mid, status, after);
  }

  /** One round of the search: another pair, or there is none. */
  lemma RoundOfSearch(node: NodeInfo, s: XeState, share: Resources, gpuMap: set<string>, n: int, picked: seq<Card>,
                      seen: set<NodeTiles>, more: set<NodeTiles>, status: NodeTiles, mid: XeState, taken: set<string>,
                      pair: Option<(Card, Card)>, after: XeState)
    requires PairsPicked(node, s, share, gpuMap, picked, seen, mid) && |picked| < n
    requires more == seen + {status} && Holds(Names(picked), taken)
    requires pair.None? ==> after == mid && !PairExists(node, mid.used, share, gpuMap, taken, OfferOf(node, mid, status))
    requires pair.Some? ==> PairPicked(node, mid, share, gpuMap, taken, status, pair.value.0, pair.value.1, after)
    ensures pair.None? ==> exists read :: RanOut(node, s, share, gpuMap, n, picked, more, read, after)
    ensures pair.Some? ==> PairsPicked(node, s, share, gpuMap, picked + [pair.value.0, pair.value.1], more, after)
  {
    assert taken == NameSet(picked);
    if pair.None? {
      PairsSeeMore(node, s, share, gpuMap, picked, seen, more, mid);
      assert RanOut(node, s, share, gpuMap, n, picked, more, status, after);
    } else {
      OnePairMore(node, s, share, gpuMap, picked, seen, mid, status, pair.value.0, pair.value.1, after);
    }
  }

  lemma OneGroupMore(node: NodeInfo, s: XeState, request: Resources, gpuMaps: seq<set<string>>, i: nat,
                     seen: set<NodeTiles>, more: set<NodeTiles>, mid: XeState, cards: Option<seq<Card>>, after: XeState)
    requires i < |gpuMaps| && seen <= more && XeFailed(node, s, request, gpuMaps, i, seen, mid)
    requires XeAttempt(node, mid, request, gpuMaps[i], more, cards, after)
    ensures cards.None? ==> XeFailed(node, s, request, gpuMaps, i + 1, more, after)
    ensures cards.Some? ==> XeContainer(node, s, request, gpuMaps, more, cards, after)
  {
    FailedSeesMore(node, s, request, gpuMaps, i, seen, more, mid);
    if cards.None? {
      assert LastFailed(node, s, request, gpuMaps, i + 1, more, mid, after);
    } else {
      assert XeFound(node, s, request, gpuMaps, i, more, mid, cards.value, after);
    }
  }

  lemma OneContainerMore(node: NodeInfo, s: XeState, requests: seq<Resources>, gpuMaps: seq<set<string>>,
                         plan: seq<seq<Card>>, seen: set<NodeTiles>, more: set<NodeTiles>, mid: XeState,
                         cards: Option<seq<Card>>, after: XeState)
    requires |plan| < |requests| && seen <= more && XePlanned(node, s, requests, gpuMaps, plan, seen, mid)
    requires XeContainer(node, mid, requests[|plan|], gpuMaps, more, cards, after)
    ensures cards.Some? ==> XePlanned(node, s, requests, gpuMaps, plan + [cards.value], more, after)
    ensures cards.None? ==> XePod(node, s, requests, gpuMaps, more, None, after)
  {
    PlannedSeesMore(node, s, requests, gpuMaps, plan, seen, more, mid);
    if cards.Some? {
      var all, n := plan + [cards.value], |plan|;
      assert |all| - 1 == n && all[..n] == plan && Some(all[n]) == cards;
      assert XePlanned(node, s, requests, gpuMaps, all[..n], more, mid)
             && XeContainer(node, mid, requests[n], gpuMaps, more, Some(all[n]), after);
      assert XePlanned(node, s, requests, gpuMaps, all, more, after);
    } else {
      assert XeRefused(node, s, requests, gpuMaps, plan, more, mid, after);
    }
  }

  // ---- what a pair is, in terms of the label and the lists ----

  /** Nobody uses the tile, it is neither disabled nor descheduled, and it is not promised to the pod yet. */
  predicate Clear(node: NodeInfo, s: XeState, status: NodeTiles, card: string, tile: int) {
    && !(card in status && tile in status[card])
    && !(card in s.allocating && tile in s.allocating[card])
    && !(card in node.disabled && tile in node.disabled[card] && tile < Amount(PerGpuCapacity(node), TILES))
  }

  /** A card that is there, listed, usable, not taken yet, and has room. */
  predicate Takes(node: NodeInfo, s: XeState, share: Resources, gpuMap: set<string>, taken: set<string>, card: string) {
    && card in s.used && card in gpuMap && card in node.usable && card !in taken
    && Fits(share, PerGpuCapacity(node), s.used[card])
  }

  /** The k-th link of the label joins two cards that can be had, at tiles that are clear. It must be the first link at
      its starting tile, and the card at its other end must be one whose device the label links there. */
  predicate LinkServes(node: NodeInfo, s: XeState, share: Resources, gpuMap: set<string>, taken: set<string>,
                       status: NodeTiles, k: int, card: string) {
    && 0 <= k < |node.links| && FirstLinkAt(node.links, node.links[k].device, node.links[k].subdevice, k)
    && var l := node.links[k];
       && l.linkedDevice < |node.gpuNums| && node.gpuNums[l.linkedDevice] != ""
       && var other := "card" + node.gpuNums[l.linkedDevice];
       && DeviceId(node, card) == l.device
       && Takes(node, s, share, gpuMap, taken, card) && Clear(node, s, status, card, l.subdevice)
       && Takes(node, s, share, gpuMap, taken, other) && Clear(node, s, status, other, l.linkedSubdevice)
       && Linked(node.links, DeviceId(node, other), l.linkedSubdevice)
  }

  ghost predicate SomeLinkServes(node: NodeInfo, s: XeState, share: Resources, gpuMap: set<string>, taken: set<string>,
                                 status: NodeTiles) {
    exists k, card :: LinkServes(node, s, share, gpuMap, taken, status, k, card)
  }

  /** The tiles of a card that are on offer are those which the label links and which are clear. */
  lemma OfferedMeans(node: NodeInfo, s: XeState, status: NodeTiles, card: string, tile: int)
    ensures tile in XeTiles(node, card) - (TilesAt(status, card) + DisabledTiles(node, card) + TilesAt(s.allocating, card))
       <==> Linked(node.links, DeviceId(node, card), tile) && Clear(node, s, status, card, tile)
  {
    XeTilesMean(node, card, tile);
    if card in node.disabled {
      SanitizedSize(node.disabled[card], Amount(PerGpuCapacity(node), TILES));
    }
  }

  lemma OfferMeans(node: NodeInfo, s: XeState, status: NodeTiles, card: string, tile: int)
    ensures tile in TilesAt(OfferOf(node, s, status), card) <==>
      card in s.used && Linked(node.links, DeviceId(node, card), tile) && Clear(node, s, status, card, tile)
  {
    OfferedMeans(node, s, status, card, tile);
  }

  /** A pair exists exactly when some link of the label serves. */
  lemma PairMeans(node: NodeInfo, s: XeState, share: Resources, gpuMap: set<string>, taken: set<string>, status: NodeTiles)
    requires "" !in gpuMap
    ensures PairExists(node, s.used, share, gpuMap, taken, OfferOf(node, s, status)) <==>
      SomeLinkServes(node, s, share, gpuMap, taken, status)
  {
    PairIsLink(node, s.used, share, gpuMap, taken, OfferOf(node, s, status));
    forall k, card
      ensures LinkServes(node, s, share, gpuMap, taken, status, k, card)
         <==> LinkOffers(node, s.used, share, gpuMap, taken, OfferOf(node, s, status), k, card)
    {
      ServesOffered(node, s, share, gpuMap, taken, status, k, card);
    }
  }

  lemma ServesOffered(node: NodeInfo, s: XeState, share: Resources, gpuMap: set<string>, taken: set<string>,
                      status: NodeTiles, k: int, card: string)
    ensures LinkServes(node, s, share, gpuMap, taken, status, k, card)
       <==> LinkOffers(node, s.used, share, gpuMap, taken, OfferOf(node, s, status), k, card)
  {
    if 0 <= k < |node.links| {
      var l := node.links[k];
      assert l in node.links;
      OfferMeans(node, s, status, card, l.subdevice);
      if l.linkedDevice < |node.gpuNums| {
        OfferMeans(node, s, status, "card" + node.gpuNums[l.linkedDevice], l.linkedSubdevice);
      }
    }
  }

  /** With distinct GPU numbers, a link between two devices of the node names both its ends. */
  lemma BothEndsLinked(node: NodeInfo, l: Link)
    requires NoDuplicates(node.gpuNums) && l in node.links && l.device != l.linkedDevice
    requires l.linkedDevice < |node.gpuNums|
    ensures Linked(node.links, DeviceId(node, "card" + node.gpuNums[l.linkedDevice]), l.linkedSubdevice)
  {
    DeviceIdMeans(node.gpuNums, "card" + node.gpuNums[l.linkedDevice], 0, l.linkedDevice);
    forall j | 0 <= j < l.linkedDevice ensures "card" + node.gpuNums[j] != "card" + node.gpuNums[l.linkedDevice] {
      SameCard(node.gpuNums[j], node.gpuNums[l.linkedDevice]);
    }
  }

  lemma SameCard(a: string, b: string)
    ensures "card" + a == "card" + b <==> a == b
  {
    assert ("card" + a)[4..] == a && ("card" + b)[4..] == b;
  }

  /** With one status read, two linked GPUs are found in a group if and only if some link of the label serves. */
  lemma TwoGpusExactly(node: NodeInfo, s: XeState, request: Resources, gpuMap: set<string>, status: NodeTiles,
                       cards: Option<seq<Card>>, after: XeState)
    requires NumGpu(request) == 2 && XeAttempt(node, s, request, gpuMap, {status}, cards, after)
    ensures cards.Some? <==> PairExists(node, s.used, PerGpuRequest(request), gpuMap, {}, OfferOf(node, s, status))
    ensures "" !in gpuMap ==> (cards.Some? <==> SomeLinkServes(node, s, PerGpuRequest(request), gpuMap, {}, status))
    ensures cards.None? ==> after == s
  {
    if "" !in gpuMap {
      PairMeans(node, s, PerGpuRequest(request), gpuMap, {}, status);
    }
    match cards
    case Some(picked) => FirstPair(node, s, PerGpuRequest(request), gpuMap, picked, status, after);
    case None =>
      var picked, read :| RanOut(node, s, PerGpuRequest(request), gpuMap, 2, picked, {status}, read, after);
      assert picked == [] && NameSet([]) == {};
  }

  lemma FirstPair(node: NodeInfo, s: XeState, share: Resources, gpuMap: set<string>, picked: seq<Card>, status: NodeTiles,
                  after: XeState)
    requires |picked| == 2 && PairsPicked(node, s, share, gpuMap, picked, {status}, after)
    ensures PairExists(node, s.used, share, gpuMap, {}, OfferOf(node, s, status))
  {
    var seen := {status};
    var mid, read :| read in seen && LastPair(node, s, share, gpuMap, picked, seen, mid, read, after);
    assert picked[..0] == [] && NameSet([]) == {} && read == status;
    assert PairsPicked(node, s, share, gpuMap, [], seen, mid);
    assert PairFits(node, s.used, share, gpuMap, {}, OfferOf(node, s, status), picked[0].gpuName, picked[0].xeLinkedTileIds[0]);
  }
}
