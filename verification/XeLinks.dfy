/** Pairs of cards joined by an Xe link: what the pair search looks for and what it keeps. */
module XeLinks {
  import opened Text
  import opened ResourceArithmetic
  import opened Allocations
  import opened Annotations
  import opened Ordering
  import opened Placement
  import opened TilePlacement

  function Marked(allocating: NodeTiles, card: Card): NodeTiles {
    allocating[card.gpuName := TilesAt(allocating, card.gpuName) + TileSet(card.xeLinkedTileIds)]
  }

  function MarkedPair(allocating: NodeTiles, a: Card, b: Card): NodeTiles {
    Marked(Marked(allocating, a), b)
  }

  ghost predicate Kept(before: NodeTiles, after: NodeTiles) {
    forall c :: TilesAt(before, c) <= TilesAt(after, c)
  }

  /** Consecutive cards are the two ends of a link. */
  ghost predicate PairsJoined(node: NodeInfo, cards: seq<Card>, pairs: nat) {
    |cards| == 2 * pairs && forall p :: 0 <= p < pairs ==> PairJoined(node, cards, p)
  }

  ghost predicate PairJoined(node: NodeInfo, cards: seq<Card>, p: nat) {
    && 2 * p + 1 < |cards|
    && |cards[2 * p].xeLinkedTileIds| == 1 && |cards[2 * p + 1].xeLinkedTileIds| == 1
    && Joined(node, cards[2 * p].gpuName, cards[2 * p].xeLinkedTileIds[0],
              cards[2 * p + 1].gpuName, cards[2 * p + 1].xeLinkedTileIds[0])
  }

  /** A card, a free linked tile on it, and the card and free tile at the other end, all with room. */
  predicate PairFits(node: NodeInfo, before: NodeResources, share: Resources, gpuMap: set<string>, taken: set<string>,
                     available: NodeTiles, card: string, tile: int) {
    && card in before && tile in TilesAt(available, card)
    && Available(node, gpuMap, taken, card) && Fits(share, PerGpuCapacity(node), before[card])
    && var (other, otherTile) := LinkedGpu(node, card, tile);
       && other in before && otherTile in TilesAt(available, other)
       && Available(node, gpuMap, taken, other) && Fits(share, PerGpuCapacity(node), before[other])
  }

  ghost predicate PairExists(node: NodeInfo, before: NodeResources, share: Resources, gpuMap: set<string>,
                             taken: set<string>, available: NodeTiles) {
    exists card, tile :: PairFits(node, before, share, gpuMap, taken, available, card, tile)
  }

  /** The k-th link is the first one at its start, its tiles are on offer, and both cards can be had. */
  predicate LinkOffers(node: NodeInfo, before: NodeResources, share: Resources, gpuMap: set<string>, taken: set<string>,
                       available: NodeTiles, k: int, card: string) {
    && 0 <= k < |node.links| && FirstLinkAt(node.links, node.links[k].device, node.links[k].subdevice, k)
    && var l := node.links[k];
       && l.linkedDevice < |node.gpuNums| && node.gpuNums[l.linkedDevice] != ""
       && var other := "card" + node.gpuNums[l.linkedDevice];
       && DeviceId(node, card) == l.device
       && card in before && card in gpuMap && card in node.usable && card !in taken
       && Fits(share, PerGpuCapacity(node), before[card])
       && other in before && other in gpuMap && other in node.usable && other !in taken
       && Fits(share, PerGpuCapacity(node), before[other])
       && card in available && l.subdevice in available[card]
       && other in available && l.linkedSubdevice in available[other]
  }

  ghost predicate SomeLinkOffers(node: NodeInfo, before: NodeResources, share: Resources, gpuMap: set<string>,
                                 taken: set<string>, available: NodeTiles) {
    exists k, card :: LinkOffers(node, before, share, gpuMap, taken, available, k, card)
  }

  /** The pairs are the links that can be used. */
  lemma PairIsLink(node: NodeInfo, before: NodeResources, share: Resources, gpuMap: set<string>, taken: set<string>,
                   available: NodeTiles)
    requires "" !in gpuMap
    ensures PairExists(node, before, share, gpuMap, taken, available) <==>
      SomeLinkOffers(node, before, share, gpuMap, taken, available)
  {
    if card, tile :| PairFits(node, before, share, gpuMap, taken, available, card, tile) {
      LinkOfPair(node, before, share, gpuMap, taken, available, card, tile);
    }
    if k, card :| LinkOffers(node, before, share, gpuMap, taken, available, k, card) {
      LinkedGpuMeans(node, card, node.links[k].subdevice);
      assert PairFits(node, before, share, gpuMap, taken, available, card, node.links[k].subdevice);
    }
  }

  lemma LinkOfPair(node: NodeInfo, before: NodeResources, share: Resources, gpuMap: set<string>, taken: set<string>,
                   available: NodeTiles, card: string, tile: int)
    requires PairFits(node, before, share, gpuMap, taken, available, card, tile)
    requires "" !in gpuMap
    ensures exists k :: LinkOffers(node, before, share, gpuMap, taken, available, k, card)
  {
    FindLinkMeans(node.links, DeviceId(node, card), tile);
    LinkedGpuMeans(node, card, tile);
    var k :| FirstLinkAt(node.links, DeviceId(node, card), tile, k);
    assert LinkOffers(node, before, share, gpuMap, taken, available, k, card);
  }

  lemma PairAdds(node: NodeInfo, before: NodeResources, share: Resources, gpuMap: set<string>, taken: set<string>,
                 available: NodeTiles, card: string, tile: int)
    requires NoSelfLinks(node) && PairFits(node, before, share, gpuMap, taken, available, card, tile)
    requires "" !in gpuMap
    ensures var (other, otherTile) := LinkedGpu(node, card, tile);
            && other != card && Joined(node, card, tile, other, otherTile)
            && AdjustCard(before, share, card, true).Some?
            && var mid := AdjustCard(before, share, card, true).value;
               && AdjustCard(mid, share, other, true).Some?
               && AdjustCards(before, share, [card, other], true) == AdjustCard(mid, share, other, true)
               && Grown(before, AdjustCard(mid, share, other, true).value, PerGpuCapacity(node))
  {
    var (other, otherTile) := LinkedGpu(node, card, tile);
    LinkedGpuIsJoined(node, card, tile);
    FittingCardAdd(before, share, card, PerGpuCapacity(node));
    var mid := AdjustCard(before, share, card, true).value;
    FittingCardAdd(mid, share, other, PerGpuCapacity(node));
    BoundedTwice(before, mid, AdjustCard(mid, share, other, true).value, PerGpuCapacity(node));
    CardsAppend(before, share, [], card, true);
    CardsAppend(before, share, [card], other, true);
    assert [] + [card] == [card] && [card] + [other] == [card, other];
  }

  /** What the pair search keeps of the resources: distinct listed cards. */
  ghost predicate PairsPlaced(node: NodeInfo, start: NodeResources, now: NodeResources, share: Resources,
                              gpuMap: set<string>, cards: seq<Card>, taken: set<string>) {
    && Holds(Names(cards), taken)
    && AdjustCards(start, share, Names(cards), true) == Some(now) && Grown(start, now, PerGpuCapacity(node))
    && forall j :: 0 <= j < |cards| ==> Listed(node, start, gpuMap, cards[j].gpuName)
  }

  ghost predicate PlacedDistinct(node: NodeInfo, start: NodeResources, now: NodeResources, share: Resources,
                                 gpuMap: set<string>, cards: seq<Card>) {
    && NoDuplicates(Names(cards))
    && AdjustCards(start, share, Names(cards), true) == Some(now)
    && forall j :: 0 <= j < |cards| ==> Listed(node, start, gpuMap, cards[j].gpuName)
  }

  /** And of the tiles: consecutive cards joined by a link, each with one tile that was clear. */
  ghost predicate PairTiles(node: NodeInfo, lower: NodeTiles, before: NodeTiles, marked: NodeTiles, cards: seq<Card>,
                            pairs: nat) {
    && XeClear(node, lower, before, cards)
    && PairsJoined(node, cards, pairs)
    && forall c :: TilesAt(before, c) + XeUse(cards, c) <= TilesAt(marked, c)
  }

  lemma PairsPlacedMore(node: NodeInfo, start: NodeResources, now: NodeResources, after: NodeResources,
                        share: Resources, gpuMap: set<string>, cards: seq<Card>, taken: set<string>,
                        available: NodeTiles, a: Card, b: Card)
    requires NoSelfLinks(node) && "" !in gpuMap
    requires PairsPlaced(node, start, now, share, gpuMap, cards, taken)
    requires |a.xeLinkedTileIds| == |b.xeLinkedTileIds| == 1
    requires PairFits(node, now, share, gpuMap, taken, available, a.gpuName, a.xeLinkedTileIds[0])
    requires (b.gpuName, b.xeLinkedTileIds[0]) == LinkedGpu(node, a.gpuName, a.xeLinkedTileIds[0])
    requires AdjustCards(now, share, [a.gpuName, b.gpuName], true) == Some(after)
    ensures PairsPlaced(node, start, after, share, gpuMap, cards + [a, b], taken + {a.gpuName, b.gpuName})
  {
    PairAdds(node, now, share, gpuMap, taken, available, a.gpuName, a.xeLinkedTileIds[0]);
    BoundedTwice(start, now, after, PerGpuCapacity(node));
    NamesTwoMore(cards, a, b);
    TwoMoreCards(start, now, after, share, Names(cards), a.gpuName, b.gpuName);
    HoldsTwoMore(Names(cards), taken, a.gpuName, b.gpuName);
  }

  /** The tiles offered to the search: linked, and not used, disabled or allocated. */
  ghost predicate Offered(node: NodeInfo, lower: NodeTiles, status: NodeTiles, marked: NodeTiles, available: NodeTiles) {
    && (forall c :: TilesAt(lower, c) <= TilesAt(status, c))
    && forall c, t :: t in TilesAt(available, c) ==>
         t in XeTiles(node, c) && t !in TilesAt(status, c) && t !in DisabledTiles(node, c) && t !in TilesAt(marked, c)
  }

  lemma PairTilesMore(node: NodeInfo, lower: NodeTiles, before: NodeTiles, marked: NodeTiles, cards: seq<Card>,
                      pairs: nat, status: NodeTiles, available: NodeTiles, a: Card, b: Card)
    requires PairTiles(node, lower, before, marked, cards, pairs) && Offered(node, lower, status, marked, available)
    requires |a.xeLinkedTileIds| == |b.xeLinkedTileIds| == 1
    requires a.xeLinkedTileIds[0] in TilesAt(available, a.gpuName) && b.xeLinkedTileIds[0] in TilesAt(available, b.gpuName)
    requires Joined(node, a.gpuName, a.xeLinkedTileIds[0], b.gpuName, b.xeLinkedTileIds[0])
    ensures PairTiles(node, lower, before, MarkedPair(marked, a, b), cards + [a, b], pairs + 1)
  {
    forall c, t | t in TilesAt(available, c) ensures t !in TilesAt(before, c) {
      assert TilesAt(before, c) + XeUse(cards, c) <= TilesAt(marked, c);
    }
    ClearOneMore(node, lower, before, marked, cards, a, status, available);
    ClearOneMore(node, lower, before, Marked(marked, a), cards + [a], b, status, available);
    assert cards + [a] + [b] == cards + [a, b];
    PairsJoinedMore(node, cards, pairs, a, b);
  }

  lemma PairsJoinedMore(node: NodeInfo, cards: seq<Card>, pairs: nat, a: Card, b: Card)
    requires PairsJoined(node, cards, pairs)
    requires |a.xeLinkedTileIds| == |b.xeLinkedTileIds| == 1
    requires Joined(node, a.gpuName, a.xeLinkedTileIds[0], b.gpuName, b.xeLinkedTileIds[0])
    ensures PairsJoined(node, cards + [a, b], pairs + 1)
  {
    var all := cards + [a, b];
    assert all[2 * pairs] == a && all[2 * pairs + 1] == b;
    forall p | 0 <= p < pairs + 1 ensures PairJoined(node, all, p) {
      if p < pairs {
        assert PairJoined(node, cards, p);
        assert all[2 * p] == cards[2 * p] && all[2 * p + 1] == cards[2 * p + 1];
      }
    }
  }

  lemma ClearOneMore(node: NodeInfo, lower: NodeTiles, before: NodeTiles, marked: NodeTiles, cards: seq<Card>, a: Card,
                     status: NodeTiles, available: NodeTiles)
    requires XeClear(node, lower, before, cards)
    requires forall c :: TilesAt(before, c) + XeUse(cards, c) <= TilesAt(marked, c)
    requires |a.xeLinkedTileIds| == 1 && a.xeLinkedTileIds[0] in TilesAt(available, a.gpuName)
    requires forall c :: TilesAt(lower, c) <= TilesAt(status, c)
    requires forall c, t :: t in TilesAt(available, c) ==>
               t in XeTiles(node, c) && t !in TilesAt(status, c) && t !in DisabledTiles(node, c) && t !in TilesAt(before, c)
    ensures XeClear(node, lower, before, cards + [a])
    ensures forall c :: TilesAt(before, c) + XeUse(cards + [a], c) <= TilesAt(Marked(marked, a), c)
  {
    LinkedTilesInRange(node.links, DeviceId(node, a.gpuName));
    assert XeCardClear(node, lower, before, a);
    forall c ensures TilesAt(before, c) + XeUse(cards + [a], c) <= TilesAt(Marked(marked, a), c) {
      assert (cards + [a])[..|cards + [a]| - 1] == cards;
      assert TilesAt(before, c) + XeUse(cards, c) <= TilesAt(marked, c);
    }
  }

  lemma NamesTwoMore(cards: seq<Card>, a: Card, b: Card)
    ensures Names(cards + [a, b]) == Names(cards) + [a.gpuName] + [b.gpuName]
  {
  }

  lemma TwoMoreCards(start: NodeResources, now: NodeResources, after: NodeResources, share: Resources,
                            names: seq<string>, a: string, b: string)
    requires AdjustCards(start, share, names, true) == Some(now)
    requires AdjustCards(now, share, [a, b], true) == Some(after)
    ensures AdjustCards(start, share, names + [a] + [b], true) == Some(after)
  {
    CardsAppend(now, share, [], a, true);
    CardsAppend(now, share, [a], b, true);
    assert [] + [a] == [a] && [a] + [b] == [a, b];
    CardsAppend(start, share, names, a, true);
    CardsAppend(start, share, names + [a], b, true);
  }

  lemma HoldsTwoMore(names: seq<string>, taken: set<string>, a: string, b: string)
    requires Holds(names, taken) && a !in taken && b !in taken && a != b
    ensures Holds(names + [a] + [b], taken + {a, b})
  {
    var all := names + [a] + [b];
    assert forall c :: c in all <==> c in names || c == a || c == b;
  }

  lemma KeptByPairs(node: NodeInfo, lower: NodeTiles, before: NodeTiles, marked: NodeTiles, cards: seq<Card>, pairs: nat)
    requires PairTiles(node, lower, before, marked, cards, pairs)
    ensures Kept(before, marked)
  {
    forall c ensures TilesAt(before, c) <= TilesAt(marked, c) {
      assert TilesAt(before, c) + XeUse(cards, c) <= TilesAt(marked, c);
    }
  }

  lemma NoPairsYet(node: NodeInfo, lower: NodeTiles, start: NodeResources, before: NodeTiles, share: Resources,
                   gpuMap: set<string>)
    ensures PairsPlaced(node, start, start, share, gpuMap, [], {}) && PairTiles(node, lower, before, before, [], 0)
  {
  }

  lemma PairPlaced(node: NodeInfo, lower: NodeTiles, start: NodeResources, now: NodeResources, after: NodeResources,
                   share: Resources, gpuMap: set<string>, before: NodeTiles, marked: NodeTiles, picked: seq<Card>,
                   pairs: nat, taken: set<string>, status: NodeTiles, available: NodeTiles, a: Card, b: Card)
    requires NoSelfLinks(node) && "" !in gpuMap
    requires PairsPlaced(node, start, now, share, gpuMap, picked, taken) && PairTiles(node, lower, before, marked, picked, pairs)
    requires Offered(node, lower, status, marked, available)
    requires |a.xeLinkedTileIds| == |b.xeLinkedTileIds| == 1
    requires PairFits(node, now, share, gpuMap, taken, available, a.gpuName, a.xeLinkedTileIds[0])
    requires (b.gpuName, b.xeLinkedTileIds[0]) == LinkedGpu(node, a.gpuName, a.xeLinkedTileIds[0])
    requires AdjustCards(now, share, [a.gpuName, b.gpuName], true) == Some(after)
    ensures PairsPlaced(node, start, after, share, gpuMap, picked + [a, b], taken + {a.gpuName, b.gpuName})
    ensures PairTiles(node, lower, before, MarkedPair(marked, a, b), picked + [a, b], pairs + 1)
  {
    PairAdds(node, now, share, gpuMap, taken, available, a.gpuName, a.xeLinkedTileIds[0]);
    PairsPlacedMore(node, start, now, after, share, gpuMap, picked, taken, available, a, b);
    PairTilesMore(node, lower, before, marked, picked, pairs, status, available, a, b);
  }

  lemma KeptTwice(a: NodeTiles, b: NodeTiles, c: NodeTiles)
    requires Kept(a, b) && Kept(b, c)
    ensures Kept(a, c)
  {
    forall x ensures TilesAt(a, x) <= TilesAt(c, x) {
      assert TilesAt(a, x) <= TilesAt(b, x);
    }
  }

  lemma ClearOfEarlier(node: NodeInfo, lower: NodeTiles, before: NodeTiles, marked: NodeTiles, cards: seq<Card>)
    requires Kept(before, marked) && XeClear(node, lower, marked, cards)
    ensures XeClear(node, lower, before, cards)
  {
    forall j | 0 <= j < |cards| ensures XeCardClear(node, lower, before, cards[j]) {
      assert XeCardClear(node, lower, marked, cards[j]);
      assert TilesAt(before, cards[j].gpuName) <= TilesAt(marked, cards[j].gpuName);
    }
  }
}
