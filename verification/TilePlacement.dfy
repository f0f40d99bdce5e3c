/** Tiles: which ones are free, how the chosen ones are printed, and that the printed annotations
    are read back as they were meant. */
module TilePlacement {
  import opened Text
  import opened ResourceArithmetic
  import opened Allocations
  import opened Annotations
  import opened Ordering
  import opened Placement

  /** The tile indices 0 to n-1. */
  function Range(n: int): (r: set<int>)
    ensures forall t :: t in r <==> 0 <= t < n
  {
    if n <= 0 then {} else Range(n - 1) + {n - 1}
  }

  lemma {:induction false} RangeSize(n: nat)
    ensures |Range(n)| == n
  {
    if n > 0 {
      RangeSize(n - 1);
      assert Range(n) == Range(n - 1) + {n - 1};
    }
  }

  /** Taking a set away from the first n tiles leaves at least n minus its size. */
  lemma FreeCount(n: nat, taken: set<int>)
    ensures |Range(n) - taken| >= n - |taken|
  {
    RangeSize(n);
    assert Range(n) == (Range(n) - taken) + (Range(n) * taken);
    SubsetSize(Range(n) * taken, taken);
  }

  lemma SubsetSize<T>(a: set<T>, b: set<T>)
    requires a <= b
    ensures |a| <= |b|
  {
    assert b == a + (b - a);
    assert |a + (b - a)| == |a| + |b - a| - |a * (b - a)|;
    assert a * (b - a) == {};
  }

  lemma UnionSize(a: set<int>, b: set<int>)
    ensures |a + b| <= |a| + |b|
    ensures a !! b ==> |a + b| == |a| + |b|
  {
    assert |a + b| == |a| + |b| - |a * b|;
    if a !! b {
      assert a * b == {};
    }
  }

  lemma {:induction false} TileSetSize(tiles: seq<int>)
    requires NoDuplicates(tiles)
    ensures |TileSet(tiles)| == |tiles|
  {
    if tiles != [] {
      var front, last := tiles[..|tiles| - 1], tiles[|tiles| - 1];
      TileSetSize(front);
      assert TileSet(tiles) == TileSet(front) + {last};
    }
  }

  // ---- disabled tiles ----

  /** sanitizeTiles: indices that the GPUs do not have are dropped. */
  function Sanitized(tiles: seq<int>, tilesPerGpu: int): seq<int> {
    if tiles == [] then []
    else
      var last := tiles[|tiles| - 1];
      Sanitized(tiles[..|tiles| - 1], tilesPerGpu) + (if last < tilesPerGpu then [last] else [])
  }

  function TileSets(lists: map<string, seq<int>>): NodeTiles { map c | c in lists :: TileSet(lists[c]) }

  function ListAt(lists: map<string, seq<int>>, card: string): seq<int> { if card in lists then lists[card] else [] }

  lemma JoinedLists(lists: map<string, seq<int>>, a: seq<int>, b: seq<int>, card: string)
    requires ListAt(lists, card) == a + b
    ensures TilesAt(TileSets(lists), card) == TileSet(a) + TileSet(b)
  {
    assert TilesAt(TileSets(lists), card) == TileSet(ListAt(lists, card));
  }

  function DisabledTiles(node: NodeInfo, card: string): set<int> {
    if card in node.disabled then TileSet(Sanitized(node.disabled[card], Amount(PerGpuCapacity(node), TILES))) else {}
  }

  /** How many list entries are not in use; an index listed twice counts twice. */
  function UnusedCount(tiles: seq<int>, used: set<int>): (n: nat)
    ensures n <= |tiles|
  {
    if tiles == [] then 0
    else UnusedCount(tiles[..|tiles| - 1], used) + (if tiles[|tiles| - 1] in used then 0 else 1)
  }

  lemma {:induction false} UnusedCountIsEnough(tiles: seq<int>, used: set<int>)
    ensures |TileSet(tiles) - used| <= UnusedCount(tiles, used)
  {
    if tiles == [] {
      assert TileSet(tiles) - used == {};
    } else {
      var front, last := tiles[..|tiles| - 1], tiles[|tiles| - 1];
      UnusedCountIsEnough(front, used);
      assert TileSet(tiles) == TileSet(front) + {last};
      if last in used {
        assert TileSet(tiles) - used == TileSet(front) - used;
      } else {
        assert TileSet(tiles) - used == (TileSet(front) - used) + {last};
        UnionSize(TileSet(front) - used, {last});
      }
    }
  }

  lemma {:induction false} SanitizedSize(tiles: seq<int>, tilesPerGpu: int)
    ensures |Sanitized(tiles, tilesPerGpu)| <= |tiles|
    ensures TileSet(Sanitized(tiles, tilesPerGpu)) == set t | t in tiles && t < tilesPerGpu
  {
    if tiles != [] {
      var front, last := tiles[..|tiles| - 1], tiles[|tiles| - 1];
      SanitizedSize(front, tilesPerGpu);
      assert forall t :: t in tiles <==> t in front || t == last;
      var s := Sanitized(front, tilesPerGpu);
      assert TileSet(s + [last]) == TileSet(s) + {last};
      assert s + [] == s;
    }
  }

  function UnavailableTiles(node: NodeInfo, used: NodeTiles, card: string): (n: nat)
    ensures card in node.disabled ==> n <= |node.disabled[card]|
  {
    if card in node.disabled then
      SanitizedSize(node.disabled[card], Amount(PerGpuCapacity(node), TILES));
      UnusedCount(Sanitized(node.disabled[card], Amount(PerGpuCapacity(node), TILES)), TilesAt(used, card))
    else 0
  }

  /** The count of unavailable tiles is that of the entries of the card's disabled list which name one of the GPU's tiles
      and are not in use. */
  lemma UnavailableMeans(node: NodeInfo, used: NodeTiles, card: string)
    ensures UnavailableTiles(node, used, card)
         == if card !in node.disabled then 0
            else |UnusedEntries(node.disabled[card], Amount(PerGpuCapacity(node), TILES), TilesAt(used, card))|
  {
    if card in node.disabled {
      UnusedIs(node.disabled[card], Amount(PerGpuCapacity(node), TILES), TilesAt(used, card));
    }
  }

  function UnusedEntries(tiles: seq<int>, tilesPerGpu: int, used: set<int>): set<int> {
    set i | 0 <= i < |tiles| && tiles[i] < tilesPerGpu && tiles[i] !in used
  }

  lemma {:induction false} UnusedIs(tiles: seq<int>, tilesPerGpu: int, used: set<int>)
    ensures UnusedCount(Sanitized(tiles, tilesPerGpu), used) == |UnusedEntries(tiles, tilesPerGpu, used)|
  {
    if tiles != [] {
      var n := |tiles| - 1;
      UnusedIs(tiles[..n], tilesPerGpu, used);
      var less, more := UnusedEntries(tiles[..n], tilesPerGpu, used), UnusedEntries(tiles, tilesPerGpu, used);
      var kept := Sanitized(tiles[..n], tilesPerGpu);
      if tiles[n] < tilesPerGpu {
        assert (kept + [tiles[n]])[..|kept|] == kept;
        assert more == if tiles[n] in used then less else less + {n};
      } else {
        assert kept + [] == kept && more == less;
      }
    }
  }

  /** Without repeats in the list and with nothing released in between, used plus unavailable tiles are exactly the used
      or disabled ones. */
  lemma UnavailableIsExact(node: NodeInfo, used: NodeTiles, card: string)
    requires card in node.disabled ==> NoDuplicates(node.disabled[card])
    ensures |TilesAt(used, card) + DisabledTiles(node, card)| == |TilesAt(used, card)| + UnavailableTiles(node, used, card)
  {
    var was, d := TilesAt(used, card), DisabledTiles(node, card);
    UnionSize(was, d - was);
    assert was + (d - was) == was + d;
    if card in node.disabled {
      UnusedDistinct(node.disabled[card], Amount(PerGpuCapacity(node), TILES), was);
    }
  }

  lemma {:induction false} UnusedDistinct(tiles: seq<int>, tilesPerGpu: int, used: set<int>)
    requires NoDuplicates(tiles)
    ensures |TileSet(Sanitized(tiles, tilesPerGpu)) - used| == UnusedCount(Sanitized(tiles, tilesPerGpu), used)
  {
    if tiles == [] {
      assert TileSet(Sanitized(tiles, tilesPerGpu)) - used == {};
    } else {
      var front, last := tiles[..|tiles| - 1], tiles[|tiles| - 1];
      UnusedDistinct(front, tilesPerGpu, used);
      SanitizedSize(front, tilesPerGpu);
      var kept := Sanitized(front, tilesPerGpu);
      if last < tilesPerGpu {
        assert (kept + [last])[..|kept|] == kept;
        assert TileSet(kept + [last]) == TileSet(kept) + {last};
        assert last !in TileSet(kept);
        assert TileSet(kept + [last]) - used == if last in used then TileSet(kept) - used else (TileSet(kept) - used) + {last};
      } else {
        assert kept + [] == kept;
      }
    }
  }

  /** Used plus unavailable tiles are at least the used or disabled ones, even if some used tiles have
      been released since the amounts were read. */
  lemma UnavailableCoversDisabled(node: NodeInfo, readNow: NodeTiles, readBefore: set<int>, card: string)
    requires TilesAt(readNow, card) <= readBefore
    ensures |readBefore + DisabledTiles(node, card)| <= |readBefore| + UnavailableTiles(node, readNow, card)
  {
    var d := DisabledTiles(node, card);
    assert readBefore + d == readBefore + (d - readBefore);
    UnionSize(readBefore, d - readBefore);
    SubsetSize(d - readBefore, d - TilesAt(readNow, card));
    if card in node.disabled {
      UnusedCountIsEnough(Sanitized(node.disabled[card], Amount(PerGpuCapacity(node), TILES)), TilesAt(readNow, card));
    }
  }

  // ---- Xe-linked tiles ----

  /** The tiles that the Xe-link search has chosen on one card. */
  function XeUse(cards: seq<Card>, card: string): set<int> {
    if cards == [] then {}
    else
      var last := cards[|cards| - 1];
      XeUse(cards[..|cards| - 1], card) + (if last.gpuName == card then TileSet(last.xeLinkedTileIds) else {})
  }

  function PlanXeUse(plan: seq<seq<Card>>, card: string): set<int> {
    if plan == [] then {}
    else PlanXeUse(plan[..|plan| - 1], card) + XeUse(plan[|plan| - 1], card)
  }

  /** Each card has one linked tile, outside the blocked ones. */
  ghost predicate XeClear(node: NodeInfo, lower: NodeTiles, before: NodeTiles, cards: seq<Card>) {
    forall j :: 0 <= j < |cards| ==> XeCardClear(node, lower, before, cards[j])
  }

  predicate XeCardClear(node: NodeInfo, lower: NodeTiles, before: NodeTiles, card: Card) {
    && |card.xeLinkedTileIds| == 1
    && var t := card.xeLinkedTileIds[0];
       && 0 <= t <= MAX_INT
       && t !in TilesAt(before, card.gpuName)
       && t !in TilesAt(lower, card.gpuName)
       && t !in DisabledTiles(node, card.gpuName)
  }

  lemma {:induction false} XeUseOutside(cards: seq<Card>, card: string)
    requires card !in Names(cards)
    ensures XeUse(cards, card) == {}
  {
    if cards != [] {
      var n := |cards| - 1;
      assert forall c :: c in Names(cards[..n]) ==> c in Names(cards) by {
        assert Names(cards)[..n] == Names(cards[..n]);
      }
      assert Names(cards)[n] == cards[n].gpuName;
      XeUseOutside(cards[..n], card);
    }
  }

  // ---- preferred tiles ----

  /** The preferred indices that are among the given tiles, in preferred order. */
  function PreferredAmong(preferred: seq<int>, tiles: set<int>): seq<int> {
    if preferred == [] then []
    else
      var last := preferred[|preferred| - 1];
      PreferredAmong(preferred[..|preferred| - 1], tiles) + (if last in tiles then [last] else [])
  }

  lemma {:induction false} PreferredAmongMembers(preferred: seq<int>, tiles: set<int>)
    ensures forall t :: t in PreferredAmong(preferred, tiles) <==> t in preferred && t in tiles
  {
    if preferred != [] {
      PreferredAmongMembers(preferred[..|preferred| - 1], tiles);
      assert forall t :: t in preferred <==> t in preferred[..|preferred| - 1] || t == preferred[|preferred| - 1];
    }
  }

  ghost predicate Before(tiles: seq<int>, x: int, y: int) { exists i, j :: 0 <= i < j < |tiles| && tiles[i] == x && tiles[j] == y }

  lemma BeforeAppend(a: seq<int>, b: seq<int>, x: int, y: int)
    ensures Before(a, x, y) ==> Before(a + b, x, y)
    ensures x in a && y in b ==> Before(a + b, x, y)
  {
    if i, j :| 0 <= i < j < |a| && a[i] == x && a[j] == y {
      assert (a + b)[i] == x && (a + b)[j] == y;
    }
    if x in a && y in b {
      var i :| 0 <= i < |a| && a[i] == x;
      var j :| 0 <= j < |b| && b[j] == y;
      assert (a + b)[i] == x && (a + b)[|a| + j] == y;
    }
  }

  /** They come in the preferred order. */
  lemma {:induction false} PreferredInOrder(preferred: seq<int>, tiles: set<int>, p: nat, q: nat)
    requires p < q < |preferred| && preferred[p] in tiles && preferred[q] in tiles
    ensures Before(PreferredAmong(preferred, tiles), preferred[p], preferred[q])
  {
    var front, last := preferred[..|preferred| - 1], preferred[|preferred| - 1];
    if q < |front| {
      PreferredInOrder(front, tiles, p, q);
    } else {
      PreferredAmongMembers(front, tiles);
      assert front[p] in front;
    }
    BeforeAppend(PreferredAmong(front, tiles), if last in tiles then [last] else [], preferred[p], preferred[q]);
  }

  // ---- printing ----

  function TileName(tile: int): string { TILE_STRING + Itoa(tile) }

  function TileNames(tiles: seq<int>): (names: seq<string>)
    ensures |names| == |tiles|
  {
    seq(|tiles|, i requires 0 <= i < |tiles| => TileName(tiles[i]))
  }

  function EntryText(card: string, tiles: seq<int>): string {
    if tiles == [] then "" else card + ":" + Join(TileNames(tiles), '+')
  }

  function EntryTexts(cards: seq<Card>, choice: seq<seq<int>>): (texts: seq<string>)
    requires |cards| == |choice|
    ensures |texts| == |cards|
  {
    seq(|cards|, j requires 0 <= j < |cards| => EntryText(cards[j].gpuName, choice[j]))
  }

  function HasTiles(request: Resources): bool { Amount(request, TILES) > 0 }

  function ContainerText(request: Resources, cards: seq<Card>, choice: seq<seq<int>>): string
    requires |cards| == |choice|
  {
    if HasTiles(request) then Join(EntryTexts(cards, choice), ',') else ""
  }

  function CardTexts(plan: seq<seq<Card>>): (texts: seq<string>)
    ensures |texts| == |plan|
  {
    seq(|plan|, i requires 0 <= i < |plan| => Join(Names(plan[i]), ','))
  }

  ghost predicate ChoiceShape(plan: seq<seq<Card>>, choice: seq<seq<seq<int>>>) {
    |choice| == |plan| && forall i :: 0 <= i < |plan| ==> |choice[i]| == |plan[i]|
  }

  ghost function TileTexts(requests: seq<Resources>, plan: seq<seq<Card>>, choice: seq<seq<seq<int>>>): (texts: seq<string>)
    requires |requests| == |plan| && ChoiceShape(plan, choice)
    ensures |texts| == |plan|
  {
    seq(|plan|, i requires 0 <= i < |plan| => ContainerText(requests[i], plan[i], choice[i]))
  }

  // ---- reading back ----

  /** Card names without any of the characters the annotations use as separators. */
  predicate CleanName(card: string) {
    card != "" && ',' !in card && '|' !in card && ':' !in card
  }

  predicate CleanCards(cards: seq<Card>) {
    forall j :: 0 <= j < |cards| ==> CleanName(cards[j].gpuName)
  }

  predicate CleanPlan(plan: seq<seq<Card>>) {
    forall i :: 0 <= i < |plan| ==> CleanCards(plan[i])
  }

  predicate TileRange(tiles: seq<int>) {
    forall i :: 0 <= i < |tiles| ==> 0 <= tiles[i] <= MAX_INT
  }

  /** The card annotation splits back into the same list of cards for every container. */
  lemma CardsReadBack(plan: seq<seq<Card>>)
    requires plan != [] && CleanPlan(plan)
    ensures var texts := Split(Join(CardTexts(plan), '|'), '|');
            |texts| == |plan| && forall i :: 0 <= i < |plan| ==> CardList(texts[i]) == Names(plan[i])
  {
    var texts := CardTexts(plan);
    forall i | 0 <= i < |plan|
      ensures '|' !in texts[i] && CardList(texts[i]) == Names(plan[i])
    {
      var names := Names(plan[i]);
      assert CleanCards(plan[i]);
      JoinLacks(names, ',', '|');
      JoinEmpty(names, ',');
      if names != [] {
        SplitJoin(names, ',');
      }
    }
    SplitJoin(texts, '|');
  }

  /** Booking reads exactly the allocations that were planned. */
  lemma BookingReadsThePlan(requests: seq<Resources>, plan: seq<seq<Card>>)
    requires plan != [] && CleanPlan(plan) && |requests| == |plan|
    ensures var texts := Split(Join(CardTexts(plan), '|'), '|');
            |texts| == |requests| && Allocs(requests, texts) == PlannedAllocs(requests, plan)
  {
    CardsReadBack(plan);
    var texts := Split(Join(CardTexts(plan), '|'), '|');
    forall i | 0 <= i < |requests| ensures Allocs(requests, texts)[i] == PlannedAllocs(requests, plan)[i] {
    }
  }

  lemma TileIndexReadBack(tile: int)
    requires 0 <= tile <= MAX_INT
    ensures TileIndex(TileName(tile)) == [tile]
  {
    var name := TileName(tile);
    assert name[..2] == TILE_STRING && name[2..] == Itoa(tile);
    AtoiItoa(tile);
  }

  lemma {:induction false} FlattenSingles(parts: seq<seq<int>>, tiles: seq<int>)
    requires |parts| == |tiles| && forall i :: 0 <= i < |tiles| ==> parts[i] == [tiles[i]]
    ensures Flatten(parts) == tiles
  {
    if tiles != [] {
      var n := |tiles| - 1;
      FlattenSingles(parts[..n], tiles[..n]);
      assert tiles == tiles[..n] + [tiles[n]];
    }
  }

  lemma TileIndicesReadBack(tiles: seq<int>)
    requires TileRange(tiles)
    ensures TileIndices(TileNames(tiles)) == tiles
  {
    var names := TileNames(tiles);
    var parts := seq(|names|, i requires 0 <= i < |names| => TileIndex(names[i]));
    forall i | 0 <= i < |tiles| ensures parts[i] == [tiles[i]] {
      TileIndexReadBack(tiles[i]);
    }
    FlattenSingles(parts, tiles);
  }

  lemma TileNameLacks(tile: int, ch: char)
    requires ch in [',', '|', ':', '+']
    ensures ch !in TileName(tile)
  {
    ItoaLacks(tile, ch);
  }

  lemma EntryTextLacks(card: string, tiles: seq<int>, ch: char)
    requires CleanName(card) && ch in [',', '|']
    ensures ch !in EntryText(card, tiles)
  {
    forall i | 0 <= i < |tiles| ensures ch !in TileNames(tiles)[i] {
      TileNameLacks(tiles[i], ch);
    }
    JoinLacks(TileNames(tiles), '+', ch);
  }

  function EntryOf(card: string, tiles: seq<int>): seq<TileEntry> {
    if tiles == [] then [] else [TileEntry(card, tiles)]
  }

  lemma EntryReadBack(card: string, tiles: seq<int>)
    requires CleanName(card) && TileRange(tiles)
    ensures GpuEntry(EntryText(card, tiles)) == EntryOf(card, tiles)
  {
    if tiles == [] {
      SplitPart("", ':');
    } else {
      var text := Join(TileNames(tiles), '+');
      forall i | 0 <= i < |tiles| ensures ':' !in TileNames(tiles)[i] && '+' !in TileNames(tiles)[i] {
        TileNameLacks(tiles[i], ':');
        TileNameLacks(tiles[i], '+');
      }
      JoinLacks(TileNames(tiles), '+', ':');
      SplitHead(card, text, ':');
      SplitPart(text, ':');
      assert EntryText(card, tiles) == card + [':'] + text;
      SplitJoin(TileNames(tiles), '+');
      TileIndicesReadBack(tiles);
    }
  }

  /** The entries of the tile annotation in the order they are printed. */
  function CardEntries(cards: seq<Card>, choice: seq<seq<int>>): seq<TileEntry>
    requires |cards| == |choice|
  {
    if cards == [] then []
    else
      var n := |cards| - 1;
      CardEntries(cards[..n], choice[..n]) + EntryOf(cards[n].gpuName, choice[n])
  }

  ghost function PlanEntries(plan: seq<seq<Card>>, choice: seq<seq<seq<int>>>): seq<TileEntry>
    requires ChoiceShape(plan, choice)
    decreases |plan|
  {
    if plan == [] then []
    else
      var n := |plan| - 1;
      PlanEntries(plan[..n], choice[..n]) + CardEntries(plan[n], choice[n])
  }

  ghost predicate ChoiceRange(choice: seq<seq<int>>) {
    forall j :: 0 <= j < |choice| ==> TileRange(choice[j])
  }

  lemma {:induction false} CardEntriesReadBack(cards: seq<Card>, choice: seq<seq<int>>)
    requires |cards| == |choice| && CleanCards(cards) && ChoiceRange(choice)
    ensures GpuEntries(EntryTexts(cards, choice)) == CardEntries(cards, choice)
  {
    if cards != [] {
      var n := |cards| - 1;
      CardEntriesReadBack(cards[..n], choice[..n]);
      EntryTextsFront(cards, choice, n);
      EntryReadBack(cards[n].gpuName, choice[n]);
    }
  }

  lemma EntryTextsFront(cards: seq<Card>, choice: seq<seq<int>>, n: nat)
    requires |cards| == |choice| && n < |cards|
    ensures EntryTexts(cards, choice)[..n] == EntryTexts(cards[..n], choice[..n])
    ensures EntryTexts(cards, choice)[n] == EntryText(cards[n].gpuName, choice[n])
  {
  }

  lemma ContainerReadBack(request: Resources, cards: seq<Card>, choice: seq<seq<int>>)
    requires |cards| == |choice| && CleanCards(cards) && ChoiceRange(choice)
    requires !HasTiles(request) ==> forall j :: 0 <= j < |choice| ==> choice[j] == []
    ensures ContainerEntries(ContainerText(request, cards, choice)) == CardEntries(cards, choice)
    ensures '|' !in ContainerText(request, cards, choice)
  {
    if HasTiles(request) {
      var texts := EntryTexts(cards, choice);
      forall j | 0 <= j < |texts| ensures ',' !in texts[j] && '|' !in texts[j] {
        EntryTextLacks(cards[j].gpuName, choice[j], ',');
        EntryTextLacks(cards[j].gpuName, choice[j], '|');
      }
      JoinLacks(texts, ',', '|');
      CardEntriesReadBack(cards, choice);
      if texts != [] {
        SplitJoin(texts, ',');
        if Join(texts, ',') == "" {
          SplitPart("", ',');
          assert texts == [""];
          assert texts[..0] == [];
          SplitPart("", ':');
          assert GpuEntries(texts) == [];
        }
      }
    } else {
      NoEntries(cards, choice);
    }
  }

  lemma {:induction false} NoEntries(cards: seq<Card>, choice: seq<seq<int>>)
    requires |cards| == |choice|
    requires forall j :: 0 <= j < |choice| ==> choice[j] == []
    ensures CardEntries(cards, choice) == []
  {
    if cards != [] {
      NoEntries(cards[..|cards| - 1], choice[..|cards| - 1]);
    }
  }

  ghost predicate ChosenWhereAsked(requests: seq<Resources>, choice: seq<seq<seq<int>>>) {
    && |requests| == |choice|
    && forall i :: 0 <= i < |choice| ==>
         ChoiceRange(choice[i])
         && (!HasTiles(requests[i]) ==> forall j :: 0 <= j < |choice[i]| ==> choice[i][j] == [])
  }

  lemma TileTextsFront(requests: seq<Resources>, plan: seq<seq<Card>>, choice: seq<seq<seq<int>>>, n: nat)
    requires |requests| == |plan| && ChoiceShape(plan, choice) && n <= |plan|
    ensures ChoiceShape(plan[..n], choice[..n])
    ensures TileTexts(requests, plan, choice)[..n] == TileTexts(requests[..n], plan[..n], choice[..n])
  {
  }

  lemma PartReadBack(requests: seq<Resources>, plan: seq<seq<Card>>, choice: seq<seq<seq<int>>>, i: nat)
    requires CleanPlan(plan) && ChoiceShape(plan, choice) && ChosenWhereAsked(requests, choice) && i < |plan|
    ensures ContainerEntries(TileTexts(requests, plan, choice)[i]) == CardEntries(plan[i], choice[i])
    ensures '|' !in TileTexts(requests, plan, choice)[i]
  {
    assert ChoiceRange(choice[i]) && CleanCards(plan[i]);
    ContainerReadBack(requests[i], plan[i], choice[i]);
  }

  lemma {:induction false} TextsReadBack(requests: seq<Resources>, plan: seq<seq<Card>>, choice: seq<seq<seq<int>>>)
    requires CleanPlan(plan) && ChoiceShape(plan, choice) && ChosenWhereAsked(requests, choice)
    ensures AllEntries(TileTexts(requests, plan, choice)) == PlanEntries(plan, choice)
    decreases |plan|
  {
    if plan != [] {
      var n := |plan| - 1;
      TileTextsFront(requests, plan, choice, n);
      TextsReadBack(requests[..n], plan[..n], choice[..n]);
      PartReadBack(requests, plan, choice, n);
    }
  }

  /** Booking and releasing read exactly the (card, tiles) pairs that were chosen. */
  lemma TilesReadBack(requests: seq<Resources>, plan: seq<seq<Card>>, choice: seq<seq<seq<int>>>)
    requires plan != [] && CleanPlan(plan) && ChoiceShape(plan, choice) && ChosenWhereAsked(requests, choice)
    ensures TileEntries(Join(TileTexts(requests, plan, choice), '|')) == PlanEntries(plan, choice)
  {
    TextsReadBack(requests, plan, choice);
    forall i | 0 <= i < |plan| ensures '|' !in TileTexts(requests, plan, choice)[i] {
      PartReadBack(requests, plan, choice, i);
    }
    SplitJoin(TileTexts(requests, plan, choice), '|');
  }

  lemma TileUseAppend(entries: seq<TileEntry>, card: string, tiles: seq<int>, x: string)
    ensures TileUse(entries + EntryOf(card, tiles), x) == TileUse(entries, x) + if x == card then TileSet(tiles) else {}
  {
    if tiles == [] {
      assert entries + [] == entries;
      assert TileSet([]) == {};
    } else {
      var all := entries + [TileEntry(card, tiles)];
      assert all[..|all| - 1] == entries;
    }
  }

  // ---- which tiles a pod may and does get ----

  /** The tiles asked of each card. */
  function TilesPerCard(request: Resources, numCards: int): int
    requires numCards >= 1
  {
    if TILES in request then Quotient(request[TILES], numCards) else 0
  }

  /** There is room for all of a pod's tiles on every card: the ones in use when bind began, the disabled
      ones and the pod's own fit. */
  ghost predicate TileRoom(node: NodeInfo, upper: NodeTiles, allocs: seq<Alloc>) {
    forall c :: Use(allocs, c, TILES) > 0 ==>
      |TilesAt(upper, c) + DisabledTiles(node, c)| + Use(allocs, c, TILES) <= Amount(PerGpuCapacity(node), TILES)
  }

  /** The use of the containers before the i-th and of the first j cards of the i-th. */
  function UseSoFar(allocs: seq<Alloc>, i: nat, j: nat, card: string): int
    requires i <= |allocs| && (i < |allocs| ==> j <= |allocs[i].cards|)
  {
    Use(allocs[..i], card, TILES)
    + if i < |allocs| then CardsUse(allocs[i].share, allocs[i].cards[..j], card, TILES) else 0
  }

  lemma {:induction false} UseOfPrefix(allocs: seq<Alloc>, i: nat, card: string, key: string)
    requires SharesNonNegative(allocs) && i <= |allocs|
    ensures Use(allocs[..i], card, key) <= Use(allocs, card, key)
    decreases |allocs|
  {
    if i < |allocs| {
      var front, last := allocs[..|allocs| - 1], allocs[|allocs| - 1];
      assert last in allocs && forall a :: a in front ==> a in allocs;
      UseOfPrefix(front, i, card, key);
      assert front[..i] == allocs[..i];
      if last.cards != [] {
        CardsUseNonNegative(last.share, last.cards, card, key);
      }
    } else {
      assert allocs[..i] == allocs;
    }
  }

  lemma {:induction false} CardsUseOfPrefix(share: Resources, cards: seq<string>, j: nat, card: string, key: string)
    requires NonNegative(share) && j <= |cards|
    ensures CardsUse(share, cards[..j], card, key) <= CardsUse(share, cards, card, key)
    decreases |cards|
  {
    if j < |cards| {
      var front := cards[..|cards| - 1];
      CardsUseOfPrefix(share, front, j, card, key);
      assert front[..j] == cards[..j];
    } else {
      assert cards[..j] == cards;
    }
  }

  /** One more card adds its share; the total never exceeds the pod's use. */
  lemma UseSoFarGrows(allocs: seq<Alloc>, i: nat, j: nat, card: string)
    requires SharesNonNegative(allocs) && i < |allocs| && j < |allocs[i].cards|
    ensures UseSoFar(allocs, i, j + 1, card)
         == UseSoFar(allocs, i, j, card) + if allocs[i].cards[j] == card then Amount(allocs[i].share, TILES) else 0
    ensures UseSoFar(allocs, i, j + 1, card) <= Use(allocs, card, TILES)
  {
    var a := allocs[i];
    assert a in allocs;
    assert a.cards[..j + 1][..j] == a.cards[..j];
    CardsUseOfPrefix(a.share, a.cards, j + 1, card, TILES);
    assert allocs[..i + 1][..i] == allocs[..i];
    UseOfPrefix(allocs, i + 1, card, TILES);
  }

  /** Enough tiles are free for the next card, so the "not enough free tiles" branch is not reached. */
  lemma EnoughFree(node: NodeInfo, upper: NodeTiles, status: NodeTiles, unusable: set<int>, chosen: set<int>,
                   allocs: seq<Alloc>, i: nat, j: nat)
    requires SharesNonNegative(allocs) && TileRoom(node, upper, allocs)
    requires i < |allocs| && j < |allocs[i].cards|
    requires Amount(allocs[i].share, TILES) > 0
    requires var c := allocs[i].cards[j];
             && TilesAt(status, c) <= TilesAt(upper, c)
             && unusable == DisabledTiles(node, c) + chosen
             && 0 <= |chosen| <= UseSoFar(allocs, i, j, c)
    ensures Amount(allocs[i].share, TILES) <= Amount(PerGpuCapacity(node), TILES)
    ensures |Range(Amount(PerGpuCapacity(node), TILES)) - TilesAt(status, allocs[i].cards[j]) - unusable|
            >= Amount(allocs[i].share, TILES)
  {
    var c, cap := allocs[i].cards[j], Amount(PerGpuCapacity(node), TILES);
    UseSoFarGrows(allocs, i, j, c);
    assert |TilesAt(upper, c) + DisabledTiles(node, c)| + Use(allocs, c, TILES) <= cap;
    FreeLeft(cap, TilesAt(upper, c), DisabledTiles(node, c), TilesAt(status, c), chosen);
  }

  lemma FreeLeft(cap: nat, upper: set<int>, disabled: set<int>, status: set<int>, chosen: set<int>)
    requires status <= upper
    ensures |Range(cap) - status - (disabled + chosen)| >= cap - |upper + disabled| - |chosen|
  {
    var taken := status + (disabled + chosen);
    SubsetSize(taken, upper + disabled + chosen);
    UnionSize(upper + disabled, chosen);
    FreeCount(cap, taken);
    assert Range(cap) - status - (disabled + chosen) == Range(cap) - taken;
  }

  /** What holds of the entries chosen so far: as many tiles on every card as were planned, none of them
      disabled or still in use. */
  ghost predicate ChosenSoFar(node: NodeInfo, lower: NodeTiles, entries: seq<TileEntry>, allocs: seq<Alloc>, i: nat, j: nat)
    requires i <= |allocs| && (i < |allocs| ==> j <= |allocs[i].cards|)
  {
    forall c ::
      && |TileUse(entries, c)| == UseSoFar(allocs, i, j, c)
      && TileUse(entries, c) !! TilesAt(lower, c) + DisabledTiles(node, c)
  }

  lemma ChosenOneMore(node: NodeInfo, lower: NodeTiles, entries: seq<TileEntry>, allocs: seq<Alloc>, i: nat, j: nat,
                      tiles: seq<int>)
    requires SharesNonNegative(allocs) && i < |allocs| && j < |allocs[i].cards|
    requires ChosenSoFar(node, lower, entries, allocs, i, j)
    requires NoDuplicates(tiles) && |tiles| == Amount(allocs[i].share, TILES)
    requires var c := allocs[i].cards[j];
             TileSet(tiles) !! TilesAt(lower, c) + DisabledTiles(node, c) && TileSet(tiles) !! TileUse(entries, c)
    ensures ChosenSoFar(node, lower, entries + EntryOf(allocs[i].cards[j], tiles), allocs, i, j + 1)
  {
    var card := allocs[i].cards[j];
    var more := entries + EntryOf(card, tiles);
    TileSetSize(tiles);
    forall c
      ensures |TileUse(more, c)| == UseSoFar(allocs, i, j + 1, c)
      ensures TileUse(more, c) !! TilesAt(lower, c) + DisabledTiles(node, c)
    {
      TileUseAppend(entries, card, tiles, c);
      UseSoFarGrows(allocs, i, j, c);
      UnionSize(TileUse(entries, c), if c == card then TileSet(tiles) else {});
    }
  }

  /** A swap keeps the elements and their distinctness. */
  lemma SwapKeeps(s: seq<int>, i: nat, j: nat)
    requires i < |s| && j < |s|
    ensures var s' := s[i := s[j]][j := s[i]];
            && multiset(s') == multiset(s) && TileSet(s') == TileSet(s)
            && (NoDuplicates(s) ==> NoDuplicates(s'))
  {
    var s' := s[i := s[j]][j := s[i]];
    forall t ensures t in s' <==> t in s {
      assert s'[i] == s[j] && s'[j] == s[i];
      if t in s {
        var k :| 0 <= k < |s| && s[k] == t;
        assert s'[if k == i then j else if k == j then i else k] == t;
      }
    }
  }

  /** reorderPreferredTilesFirst: always a permutation; without repetitions the free preferred tiles
      come first, in preferred order. */
  method ReorderPreferredTilesFirst(tiles: array<int>, preferred: seq<int>)
    modifies tiles
    ensures multiset(tiles[..]) == multiset(old(tiles[..])) && TileSet(tiles[..]) == TileSet(old(tiles[..]))
    ensures NoDuplicates(old(tiles[..])) ==> NoDuplicates(tiles[..])
    ensures NoDuplicates(old(tiles[..])) && NoDuplicates(preferred) ==>
              PreferredAmong(preferred, TileSet(old(tiles[..]))) <= tiles[..]
  {
    ghost var free := TileSet(tiles[..]);
    ghost var clean := NoDuplicates(tiles[..]) && NoDuplicates(preferred);
    var indexNow := 0;
    var p := 0;
    while p < |preferred|
      invariant 0 <= p <= |preferred| && indexNow >= 0
      invariant multiset(tiles[..]) == multiset(old(tiles[..])) && TileSet(tiles[..]) == free
      invariant NoDuplicates(old(tiles[..])) ==> NoDuplicates(tiles[..])
      invariant clean ==> indexNow <= tiles.Length && tiles[..indexNow] == PreferredAmong(preferred[..p], free)
    {
      assert preferred[..p + 1][..p] == preferred[..p];
      PreferredAmongMembers(preferred[..p], free);
      var index := IndexOf(tiles, preferred[p]);
      if index >= 0 {
        assert preferred[p] in tiles[..];
        assert clean ==> preferred[p] !in tiles[..indexNow];
        if index > indexNow {
          SwapTiles(tiles, indexNow, index);
        }
        indexNow := indexNow + 1;
      }
      p := p + 1;
    }
    assert preferred[..p] == preferred;
  }

  method SwapTiles(tiles: array<int>, i: nat, j: nat)
    requires i < j < tiles.Length
    modifies tiles
    ensures tiles[i] == old(tiles[j]) && tiles[..i] == old(tiles[..i])
    ensures multiset(tiles[..]) == multiset(old(tiles[..])) && TileSet(tiles[..]) == TileSet(old(tiles[..]))
    ensures NoDuplicates(old(tiles[..])) ==> NoDuplicates(tiles[..])
  {
    SwapKeeps(tiles[..], i, j);
    ghost var before := tiles[..];
    tiles[i], tiles[j] := tiles[j], tiles[i];
    assert tiles[..] == before[i := before[j]][j := before[i]];
    assert tiles[..i] == before[..i];
  }

  /** containsInt. */
  method IndexOf(tiles: array<int>, value: int) returns (index: int)
    ensures -1 <= index < tiles.Length
    ensures index >= 0 ==> tiles[index] == value && forall i :: 0 <= i < index ==> tiles[i] != value
    ensures index < 0 <==> value !in TileSet(tiles[..])
  {
    index := 0;
    while index < tiles.Length
      invariant 0 <= index <= tiles.Length
      invariant forall i :: 0 <= i < index ==> tiles[i] != value
    {
      if tiles[index] == value {
        assert tiles[..][index] == value;
        return;
      }
      index := index + 1;
    }
    index := -1;
  }

  ghost predicate PlanReady(node: NodeInfo, upper: NodeTiles, requests: seq<Resources>, plan: seq<seq<Card>>) {
    && |plan| == |requests| && SharesNonNegative(PlannedAllocs(requests, plan))
    && TileRoom(node, upper, PlannedAllocs(requests, plan))
  }

  lemma ShareTiles(request: Resources, cards: seq<Card>)
    requires cards != []
    ensures Amount(PlannedAlloc(request, cards).share, TILES) == TilesPerCard(request, |cards|)
    ensures PlannedAlloc(request, cards).cards == Names(cards)
  {
    assert Names(cards) != [];
  }

  lemma NextContainer(node: NodeInfo, lower: NodeTiles, entries: seq<TileEntry>, allocs: seq<Alloc>, i: nat)
    requires i < |allocs|
    requires ChosenSoFar(node, lower, entries, allocs, i, |allocs[i].cards|)
    ensures ChosenSoFar(node, lower, entries, allocs, i + 1, 0)
  {
    assert allocs[..i + 1][..i] == allocs[..i];
    var a := allocs[i];
    assert a.cards[..|a.cards|] == a.cards;
    forall c ensures UseSoFar(allocs, i + 1, 0, c) == UseSoFar(allocs, i, |a.cards|, c) {
      if i + 1 < |allocs| {
        assert allocs[i + 1].cards[..0] == [];
      }
    }
  }

  lemma NoneChosen(node: NodeInfo, lower: NodeTiles, allocs: seq<Alloc>)
    ensures ChosenSoFar(node, lower, [], allocs, 0, 0)
  {
    assert allocs[..0] == [];
    if 0 < |allocs| {
      assert allocs[0].cards[..0] == [];
    }
  }
}
