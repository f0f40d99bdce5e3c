/** How the two pod annotations are read when a pod is booked or released
    (node_resource_cache.go): "card0,card1|card2" lists the cards of every container,
    "card0:gt0+gt1,card1:gt3|card2:gt0" the tiles on those cards. */
module Annotations {
  import opened Text
  import opened ResourceArithmetic
  import opened Allocations

  const GPU_PREFIX := "gpu.intel.com/"
  const TILES := "gpu.intel.com/tiles"
  const TILE_STRING := "gt"

  datatype Container = Container(name: string, requests: Resources)

  datatype Pod = Pod(ns: string, name: string, nodeName: string, containers: seq<Container>,
                     annotations: map<string, string>, completed: bool)

  function Key(pod: Pod): string { pod.ns + "&" + pod.name }

  /** No namespace contains '&', so pods have the same key exactly when they have the same namespace and name. */
  lemma KeysDiffer(a: Pod, b: Pod)
    requires '&' !in a.ns && '&' !in b.ns
    ensures Key(a) == Key(b) <==> a.ns == b.ns && a.name == b.name
  {
    SplitHead(a.ns, a.name, '&');
    SplitHead(b.ns, b.name, '&');
    assert Key(a)[|a.ns| + 1..] == a.name && Key(b)[|b.ns| + 1..] == b.name;
    assert Key(a) == a.ns + ['&'] + a.name && Key(b) == b.ns + ['&'] + b.name;
  }

  function GpuRequests(c: Container): Resources {
    map k | k in c.requests && HasPrefix(k, GPU_PREFIX) :: c.requests[k]
  }

  function Requests(pod: Pod): seq<Resources> {
    seq(|pod.containers|, i requires 0 <= i < |pod.containers| => GpuRequests(pod.containers[i]))
  }

  // ---- cards ----

  function CardList(csv: string): seq<string> {
    if csv == "" then [] else Split(csv, ',')
  }

  function AllocFor(request: Resources, cards: seq<string>): Alloc {
    Alloc(if cards == [] then request else Share(request, |cards|), cards)
  }

  function ContainerAlloc(request: Resources, csv: string): Alloc {
    AllocFor(request, CardList(csv))
  }

  /** What a container takes from a card: of each GPU resource the part that its number of cards leaves per card, for
      every time that the card is listed, and of other resources nothing. */
  lemma ContainerTakes(c: Container, cards: seq<string>, card: string, key: string)
    ensures var a := AllocFor(GpuRequests(c), cards);
      CardsUse(a.share, a.cards, card, key)
      == if cards != [] && "gpu.intel.com/" <= key && key in c.requests
         then multiset(cards)[card] * Quotient(c.requests[key], |cards|) else 0
  {
    var a := AllocFor(GpuRequests(c), cards);
    CardsUseCounts(a.share, cards, card, key);
    assert HasPrefix(key, GPU_PREFIX) <==> "gpu.intel.com/" <= key;
    if cards == [] {
      assert multiset(cards)[card] == 0;
    }
  }

  lemma {:induction false} CardsUseCounts(share: Resources, cards: seq<string>, card: string, key: string)
    ensures CardsUse(share, cards, card, key) == multiset(cards)[card] * Amount(share, key)
  {
    if cards != [] {
      var front, last := cards[..|cards| - 1], cards[|cards| - 1];
      CardsUseCounts(share, front, card, key);
      assert cards == front + [last];
      OneMoreListed(multiset(front)[card], Amount(share, key));
    }
  }

  lemma OneMoreListed(n: nat, amount: int)
    ensures (n + 1) * amount == n * amount + amount
  {
  }

  function Allocs(requests: seq<Resources>, containerCards: seq<string>): (allocs: seq<Alloc>)
    requires |requests| == |containerCards|
    ensures |allocs| == |requests|
  {
    seq(|requests|, i requires 0 <= i < |requests| => ContainerAlloc(requests[i], containerCards[i]))
  }

  // ---- tiles ----

  /** Card name -> indices of used tiles. */
  type NodeTiles = map<string, set<int>>

  datatype TileEntry = TileEntry(card: string, tiles: seq<int>)

  function TilesAt(node: NodeTiles, card: string): set<int> {
    if card in node then node[card] else {}
  }

  function TileSet(tiles: seq<int>): set<int> { set t | t in tiles }

  function TileIndex(name: string): seq<int> {
    if !HasPrefix(name, TILE_STRING) then []
    else
      match Atoi(name[|TILE_STRING|..])
      case Some(v) => if v >= 0 then [v] else []
      case None => []
  }

  function Flatten(parts: seq<seq<int>>): seq<int> {
    if parts == [] then [] else Flatten(parts[..|parts| - 1]) + parts[|parts| - 1]
  }

  /** getTileIndices: the indices of the names that have one, in order. */
  function TileIndices(names: seq<string>): seq<int> {
    Flatten(seq(|names|, i requires 0 <= i < |names| => TileIndex(names[i])))
  }

  /** The entry of one "card:tiles" part, if it has exactly two sides. */
  function GpuEntry(part: string): seq<TileEntry> {
    var sides := Split(part, ':');
    if |sides| != 2 then [] else [TileEntry(sides[0], TileIndices(Split(sides[1], '+')))]
  }

  /** A part with exactly one colon names the tiles behind it on the card before it; any other part names none. */
  lemma GpuEntryMeans(card: string, tiles: string)
    requires ':' !in card
    ensures GpuEntry(card) == []
    ensures GpuEntry(card + ":" + tiles) == if ':' in tiles then [] else [TileEntry(card, TileIndices(Split(tiles, '+')))]
  {
    SplitPart(card, ':');
    SplitHead(card, tiles, ':');
    assert card + ":" + tiles == card + [':'] + tiles;
    OnePart(tiles, ':');
    if ':' !in tiles {
      SplitPart(tiles, ':');
    }
  }

  /** A tile name is "gt" and a number that is not negative; other names are skipped. */
  lemma TileIndexMeans(name: string)
    ensures TileIndex(name) != [] <==>
      "gt" <= name && Atoi(name[2..]).Some? && Atoi(name[2..]).value >= 0
    ensures TileIndex(name) != [] ==> TileIndex(name) == [Atoi(name[2..]).value]
  {
    assert HasPrefix(name, TILE_STRING) <==> "gt" <= name;
  }

  function GpuEntries(parts: seq<string>): seq<TileEntry> {
    if parts == [] then [] else GpuEntries(parts[..|parts| - 1]) + GpuEntry(parts[|parts| - 1])
  }

  function ContainerEntries(text: string): seq<TileEntry> {
    if text == "" then [] else GpuEntries(Split(text, ','))
  }

  function AllEntries(texts: seq<string>): seq<TileEntry> {
    if texts == [] then [] else AllEntries(texts[..|texts| - 1]) + ContainerEntries(texts[|texts| - 1])
  }

  function TileEntries(tileAnnotation: string): seq<TileEntry> {
    AllEntries(Split(tileAnnotation, '|'))
  }

  function AdjustEntry(node: NodeTiles, e: TileEntry, adj: bool): NodeTiles {
    node[e.card := if adj then TilesAt(node, e.card) + TileSet(e.tiles)
                   else TilesAt(node, e.card) - TileSet(e.tiles)]
  }

  function AdjustEntries(node: NodeTiles, entries: seq<TileEntry>, adj: bool): NodeTiles {
    if entries == [] then node
    else AdjustEntry(AdjustEntries(node, entries[..|entries| - 1], adj), entries[|entries| - 1], adj)
  }

  lemma AdjustEntriesOne(node: NodeTiles, e: TileEntry, adj: bool)
    ensures AdjustEntries(node, [e], adj) == AdjustEntry(node, e, adj)
  {
    assert [e][..0] == [];
  }

  /** The tiles that the entries name on one card. */
  function TileUse(entries: seq<TileEntry>, card: string): set<int> {
    if entries == [] then {}
    else TileUse(entries[..|entries| - 1], card)
         + (if entries[|entries| - 1].card == card then TileSet(entries[|entries| - 1].tiles) else {})
  }

  /** Booking adds the named tiles to each card's used tiles; releasing removes them. */
  lemma {:induction false} AdjustEntriesByCard(node: NodeTiles, entries: seq<TileEntry>, adj: bool, card: string)
    ensures TilesAt(AdjustEntries(node, entries, adj), card)
         == if adj then TilesAt(node, card) + TileUse(entries, card) else TilesAt(node, card) - TileUse(entries, card)
  {
    if entries != [] {
      AdjustEntriesByCard(node, entries[..|entries| - 1], adj, card);
    }
  }

  lemma {:induction false} AdjustEntriesAppend(node: NodeTiles, a: seq<TileEntry>, b: seq<TileEntry>, adj: bool)
    ensures AdjustEntries(node, a + b, adj) == AdjustEntries(AdjustEntries(node, a, adj), b, adj)
  {
    if b == [] {
      assert a + b == a;
    } else {
      AdjustEntriesAppend(node, a, b[..|b| - 1], adj);
      assert (a + b)[..|a + b| - 1] == a + b[..|b| - 1];
    }
  }

  lemma GpuEntriesOneMore(parts: seq<string>, j: nat)
    requires j < |parts|
    ensures GpuEntries(parts[..j + 1]) == GpuEntries(parts[..j]) + GpuEntry(parts[j])
  {
    assert parts[..j + 1][..j] == parts[..j];
  }

  lemma AllEntriesOneMore(texts: seq<string>, i: nat)
    requires i < |texts|
    ensures AllEntries(texts[..i + 1]) == AllEntries(texts[..i]) + ContainerEntries(texts[i])
  {
    assert texts[..i + 1][..i] == texts[..i];
  }
}
