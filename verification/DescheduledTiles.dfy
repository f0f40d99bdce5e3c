/** The second reader of the tile annotation (convertPodTileAnnotationToCardTileMap), used when the tiles of
    descheduled cards are looked for in pods; it extracts the same tiles as the booking reader. */
module DescheduledTiles {
  import opened Text
  import opened Annotations
  import opened ResourceArithmetic
  import opened Placement
  import opened TilePlacement

  /** strconv.ParseInt(s, 10, 16). */
  predicate Parses(s: string) {
    match Atoi(s)
    case Some(v) => -0x8000 <= v <= 0x7fff
    case None => false
  }

  function TrimPrefix(s: string, prefix: string): string { if HasPrefix(s, prefix) then s[|prefix|..] else s }

  /** A card name before a colon that is too short to hold the prefix makes the source slice out of range. */
  predicate TooShort(part: string) {
    var sides := Split(part, ':');
    |sides| == 2 && |sides[0]| < |CARD_PREFIX|
  }

  /** The "card.tile" names of one part of the annotation. */
  ghost function PartIndices(part: string): set<string> {
    var sides := Split(part, ':');
    if |sides| != 2 || |sides[0]| < |CARD_PREFIX| || !Parses(sides[0][|CARD_PREFIX|..]) then {}
    else NumberedTiles(sides[0][|CARD_PREFIX|..], Split(sides[1], '+'))
  }

  /** The names of the tiles that are numbers. */
  ghost function NumberedTiles(index: string, tiles: seq<string>): set<string> {
    set tile | tile in tiles && Parses(TrimPrefix(tile, TILE_STRING)) :: index + "." + TrimPrefix(tile, TILE_STRING)
  }

  lemma NumberedTilesMore(index: string, tiles: seq<string>, i: nat)
    requires i < |tiles|
    ensures var number := TrimPrefix(tiles[i], TILE_STRING);
      NumberedTiles(index, tiles[..i + 1])
      == NumberedTiles(index, tiles[..i]) + if Parses(number) then {index + "." + number} else {}
  {
    assert tiles[..i + 1] == tiles[..i] + [tiles[i]];
  }

  /** A part without a colon, or with several, names no tile. */
  lemma PartNamesNone(card: string, tiles: string)
    requires ':' !in card
    ensures PartIndices(card) == {} && !TooShort(card)
    ensures ':' in tiles ==> PartIndices(card + ":" + tiles) == {} && !TooShort(card + ":" + tiles)
  {
    SplitPart(card, ':');
    SplitHead(card, tiles, ':');
    assert card + ":" + tiles == card + [':'] + tiles;
    OnePart(tiles, ':');
  }

  /** With one, what stands before it must be four characters and a 16-bit number, and is too short with less than four;
      then every 16-bit number behind it, with or without "gt" in front, is a tile. */
  lemma PartMeans(card: string, tiles: string, name: string)
    requires ':' !in card && ':' !in tiles
    ensures TooShort(card + ":" + tiles) <==> |card| < 4
    ensures name in PartIndices(card + ":" + tiles) <==>
      |card| >= 4 && Parses(card[4..]) && exists t :: t in Split(tiles, '+') && TileNamed(card[4..], t, name)
  {
    SplitHead(card, tiles, ':');
    assert card + ":" + tiles == card + [':'] + tiles;
    SplitPart(tiles, ':');
    var parts := Split(card + ":" + tiles, ':');
    assert parts == [card, tiles];
    if |card| >= 4 {
      forall t ensures TileNamed(card[4..], t, name)
        <==> Parses(TrimPrefix(t, TILE_STRING)) && name == card[4..] + "." + TrimPrefix(t, TILE_STRING)
      {
        NamedMeans(card[4..], t, name);
      }
    }
  }

  lemma NamedMeans(card: string, t: string, name: string)
    ensures TileNamed(card, t, name)
      <==> Parses(TrimPrefix(t, TILE_STRING)) && name == card + "." + TrimPrefix(t, TILE_STRING)
  {
    assert HasPrefix(t, TILE_STRING) <==> "gt" <= t;
  }

  predicate TileNamed(card: string, tile: string, name: string) {
    var number := if "gt" <= tile then tile[2..] else tile;
    name == card + "." + number && Atoi(number).Some? && -0x8000 <= Atoi(number).value <= 0x7fff
  }

  ghost function PartsIndices(parts: seq<string>): set<string> {
    set part, name | part in parts && name in PartIndices(part) :: name
  }

  ghost function ContainerIndices(text: string): set<string> { PartsIndices(Split(text, ',')) }

  ghost function TextsIndices(texts: seq<string>): set<string> {
    set text, name | text in texts && name in ContainerIndices(text) :: name
  }

  ghost function CardTileIndices(annotation: string): set<string> { TextsIndices(Split(annotation, '|')) }

  ghost predicate PartsTooShort(text: string) { exists part :: part in Split(text, ',') && TooShort(part) }

  ghost predicate SomeTooShort(texts: seq<string>) {
    texts != [] && (SomeTooShort(texts[..|texts| - 1]) || PartsTooShort(texts[|texts| - 1]))
  }

  ghost predicate AnyTooShort(annotation: string) { SomeTooShort(Split(annotation, '|')) }

  lemma {:induction false} ShortWithin(texts: seq<string>, n: nat)
    requires n <= |texts| && SomeTooShort(texts[..n])
    ensures SomeTooShort(texts)
  {
    if n < |texts| {
      assert texts[..|texts| - 1][..n] == texts[..n];
      ShortWithin(texts[..|texts| - 1], n);
    } else {
      assert texts[..n] == texts;
    }
  }

  lemma ShortStep(texts: seq<string>, i: nat)
    requires i < |texts|
    ensures SomeTooShort(texts[..i + 1]) <==> SomeTooShort(texts[..i]) || PartsTooShort(texts[i])
  {
    assert texts[..i + 1][..i] == texts[..i];
  }

  method ReadPart(part: string) returns (indices: set<string>)
    requires !TooShort(part)
    ensures indices == PartIndices(part)
  {
    indices := {};
    var cardTileSplit := Split(part, ':');
    if |cardTileSplit| != 2 {
      return;
    }
    var cardIndexStr := cardTileSplit[0][|CARD_PREFIX|..];
    if !Parses(cardIndexStr) {
      return;
    }
    var tiles := Split(cardTileSplit[1], '+');
    for i := 0 to |tiles|
      invariant indices == NumberedTiles(cardIndexStr, tiles[..i])
    {
      NumberedTilesMore(cardIndexStr, tiles, i);
      var tileNoStr := TrimPrefix(tiles[i], TILE_STRING);
      if Parses(tileNoStr) {
        indices := indices + {cardIndexStr + "." + tileNoStr};
      }
    }
    assert tiles[..|tiles|] == tiles;
  }

  method ReadContainer(text: string) returns (indices: Option<set<string>>)
    ensures indices == if PartsTooShort(text) then None else Some(ContainerIndices(text))
  {
    var parts := Split(text, ',');
    var found: set<string> := {};
    for i := 0 to |parts|
      invariant found == PartsIndices(parts[..i])
      invariant forall j :: 0 <= j < i ==> !TooShort(parts[j])
    {
      if TooShort(parts[i]) {
        return None;
      }
      PartsIndicesMore(parts, i);
      var more := ReadPart(parts[i]);
      found := found + more;
    }
    assert parts[..|parts|] == parts;
    indices := Some(found);
  }

  lemma PartsIndicesMore(parts: seq<string>, i: nat)
    requires i < |parts|
    ensures PartsIndices(parts[..i + 1]) == PartsIndices(parts[..i]) + PartIndices(parts[i])
  {
    assert parts[..i + 1] == parts[..i] + [parts[i]];
  }

  /** The tiles an annotation names; None stands for the slice out of range. */
  method ConvertPodTileAnnotationToCardTileMap(annotation: string) returns (indices: Option<set<string>>)
    ensures indices == if AnyTooShort(annotation) then None else Some(CardTileIndices(annotation))
  {
    var texts := Split(annotation, '|');
    var found: set<string> := {};
    for i := 0 to |texts|
      invariant found == TextsIndices(texts[..i])
      invariant !SomeTooShort(texts[..i])
    {
      var more := ReadContainer(texts[i]);
      ShortStep(texts, i);
      if more.None? {
        ShortWithin(texts, i + 1);
        return None;
      }
      TextsIndicesMore(texts, i);
      found := found + more.value;
    }
    assert texts[..|texts|] == texts;
    indices := Some(found);
  }

  lemma TextsIndicesMore(texts: seq<string>, i: nat)
    requires i < |texts|
    ensures TextsIndices(texts[..i + 1]) == TextsIndices(texts[..i]) + ContainerIndices(texts[i])
  {
    assert texts[..i + 1] == texts[..i] + [texts[i]];
  }

  // ---- agreement with the booking reader ----

  /** The names of the tiles in what the booking reader extracts. */
  ghost function EntryIndices(entries: seq<TileEntry>): set<string> {
    set e, t | e in entries && t in e.tiles && |e.card| >= |CARD_PREFIX| :: e.card[|CARD_PREFIX|..] + "." + Itoa(t)
  }

  predicate Int16(v: int) { 0 <= v <= 0x7fff }

  /** A card name of the form the planner prints: "card" and a number. */
  ghost predicate Numbered(card: string) { exists k :: Int16(k) && card == CARD_PREFIX + Itoa(k) }

  ghost predicate SmallTiles(tiles: seq<int>) { forall i :: 0 <= i < |tiles| ==> Int16(tiles[i]) }

  lemma TileNameParses(t: int)
    requires Int16(t)
    ensures TrimPrefix(TileName(t), TILE_STRING) == Itoa(t) && Parses(Itoa(t))
  {
    assert TileName(t)[..2] == TILE_STRING && TileName(t)[2..] == Itoa(t);
    AtoiItoa(t);
  }

  ghost function TileIndexNames(index: string, tiles: seq<int>): set<string> {
    set t | t in tiles :: index + "." + Itoa(t)
  }

  lemma PrintedIndices(k: int, tiles: seq<int>)
    requires Int16(k) && CleanName(CARD_PREFIX + Itoa(k)) && SmallTiles(tiles) && tiles != []
    ensures PartIndices(EntryText(CARD_PREFIX + Itoa(k), tiles)) == TileIndexNames(Itoa(k), tiles)
    ensures !TooShort(EntryText(CARD_PREFIX + Itoa(k), tiles))
  {
    AtoiItoa(k);
    assert (CARD_PREFIX + Itoa(k))[|CARD_PREFIX|..] == Itoa(k);
    EntrySides(CARD_PREFIX + Itoa(k), tiles);
    SameNames(Itoa(k), tiles);
  }

  lemma EntryIndicesOfOne(k: int, tiles: seq<int>)
    ensures EntryIndices([TileEntry(CARD_PREFIX + Itoa(k), tiles)]) == TileIndexNames(Itoa(k), tiles)
  {
    var e := TileEntry(CARD_PREFIX + Itoa(k), tiles);
    assert e.card[|CARD_PREFIX|..] == Itoa(k);
    assert e in [e] && forall x :: x in [e] ==> x == e;
  }

  /** On one printed part both readers find the same tiles. */
  lemma PartAgrees(card: string, tiles: seq<int>)
    requires Numbered(card) && CleanName(card) && SmallTiles(tiles)
    ensures Agrees(EntryText(card, tiles)) && !TooShort(EntryText(card, tiles))
  {
    EntryReadBack(card, tiles);
    if tiles == [] {
      SplitPart("", ':');
    } else {
      var k :| Int16(k) && card == CARD_PREFIX + Itoa(k);
      PrintedIndices(k, tiles);
      EntryIndicesOfOne(k, tiles);
    }
  }

  lemma EntrySides(card: string, tiles: seq<int>)
    requires CleanName(card) && tiles != [] && TileRange(tiles)
    ensures var sides := Split(EntryText(card, tiles), ':');
      |sides| == 2 && sides[0] == card && Split(sides[1], '+') == TileNames(tiles)
  {
    var text := Join(TileNames(tiles), '+');
    forall i | 0 <= i < |tiles| ensures ':' !in TileNames(tiles)[i] && '+' !in TileNames(tiles)[i] {
      TileNameLacks(tiles[i], ':');
      TileNameLacks(tiles[i], '+');
    }
    JoinLacks(TileNames(tiles), '+', ':');
    SplitHead(card, text, ':');
    SplitPart(text, ':');
    assert EntryText(card, tiles) == card + [':'] + text;
    SplitJoin(TileNames(tiles), '+');
  }

  lemma SameNames(index: string, tiles: seq<int>)
    requires SmallTiles(tiles)
    ensures NumberedTiles(index, TileNames(tiles)) == TileIndexNames(index, tiles)
  {
    forall i | 0 <= i < |tiles|
      ensures TrimPrefix(TileNames(tiles)[i], TILE_STRING) == Itoa(tiles[i]) && Parses(Itoa(tiles[i]))
      ensures TileNames(tiles)[i] in TileNames(tiles)
    {
      TileNameParses(tiles[i]);
    }
    forall t | t in tiles ensures exists i :: 0 <= i < |tiles| && tiles[i] == t && TileNames(tiles)[i] in TileNames(tiles) {
      var i :| 0 <= i < |tiles| && tiles[i] == t;
    }
  }

  ghost predicate Agrees(part: string) { PartIndices(part) == EntryIndices(GpuEntry(part)) }

  lemma EntryIndicesAppend(a: seq<TileEntry>, b: seq<TileEntry>)
    ensures EntryIndices(a + b) == EntryIndices(a) + EntryIndices(b)
  {
    assert forall e :: e in a + b <==> e in a || e in b;
  }

  lemma {:induction false} PartsAgree(parts: seq<string>)
    requires forall part :: part in parts ==> Agrees(part)
    ensures PartsIndices(parts) == EntryIndices(GpuEntries(parts))
  {
    if parts != [] {
      var n := |parts| - 1;
      PartsAgree(parts[..n]);
      EntryIndicesAppend(GpuEntries(parts[..n]), GpuEntry(parts[n]));
      assert Agrees(parts[n]);
      PartsIndicesMore(parts, n);
      assert parts[..n + 1] == parts;
    }
  }

  ghost predicate ContainerAgrees(text: string) {
    forall part :: part in Split(text, ',') ==> Agrees(part) && !TooShort(part)
  }

  lemma {:induction false} NoneTooShort(texts: seq<string>)
    requires forall i :: 0 <= i < |texts| ==> ContainerAgrees(texts[i])
    ensures !SomeTooShort(texts)
  {
    if texts != [] {
      NoneTooShort(texts[..|texts| - 1]);
      assert ContainerAgrees(texts[|texts| - 1]);
    }
  }

  lemma {:induction false} TextsAgree(texts: seq<string>)
    requires forall i :: 0 <= i < |texts| ==> ContainerAgrees(texts[i])
    ensures TextsIndices(texts) == EntryIndices(AllEntries(texts))
  {
    if texts != [] {
      var n := |texts| - 1;
      TextsAgree(texts[..n]);
      EntryIndicesAppend(AllEntries(texts[..n]), ContainerEntries(texts[n]));
      assert ContainerAgrees(texts[n]);
      PartsAgree(Split(texts[n], ','));
      EmptyContainer();
      TextsIndicesMore(texts, n);
      assert texts[..n + 1] == texts;
    }
  }

  /** Only the booking reader skips containers without tiles; the other one finds nothing in them. */
  lemma EmptyContainer()
    ensures PartsIndices(Split("", ',')) == {} == EntryIndices(ContainerEntries(""))
  {
    SplitPart("", ',');
    SplitPart("", ':');
  }

  /** For the annotation printed for a plan whose cards are numbered, both readers extract the same tiles of the
      same cards, and reading never slices out of range. */
  lemma ReadersAgree(requests: seq<Resources>, plan: seq<seq<Card>>, choice: seq<seq<seq<int>>>)
    requires plan != [] && CleanPlan(plan) && ChoiceShape(plan, choice) && ChosenWhereAsked(requests, choice)
    requires forall i, j :: 0 <= i < |plan| && 0 <= j < |plan[i]| ==>
      Numbered(plan[i][j].gpuName) && SmallTiles(choice[i][j])
    ensures var annotation := Join(TileTexts(requests, plan, choice), '|');
      CardTileIndices(annotation) == EntryIndices(TileEntries(annotation)) && !AnyTooShort(annotation)
  {
    var texts := TileTexts(requests, plan, choice);
    forall i | 0 <= i < |plan| ensures '|' !in texts[i] && ContainerAgrees(texts[i]) {
      PartReadBack(requests, plan, choice, i);
      PrintedContainer(requests, plan, choice, i);
    }
    SplitJoin(texts, '|');
    TextsAgree(texts);
    NoneTooShort(texts);
  }

  lemma PrintedContainer(requests: seq<Resources>, plan: seq<seq<Card>>, choice: seq<seq<seq<int>>>, i: nat)
    requires CleanPlan(plan) && ChoiceShape(plan, choice) && ChosenWhereAsked(requests, choice) && i < |plan|
    requires forall j :: 0 <= j < |plan[i]| ==> Numbered(plan[i][j].gpuName) && SmallTiles(choice[i][j])
    ensures ContainerAgrees(TileTexts(requests, plan, choice)[i])
  {
    assert CleanCards(plan[i]) && ChoiceRange(choice[i]);
    forall part | part in Split(TileTexts(requests, plan, choice)[i], ',') ensures Agrees(part) && !TooShort(part) {
      PrintedPart(requests[i], plan[i], choice[i], part);
    }
  }

  lemma PrintedPart(request: Resources, cards: seq<Card>, choice: seq<seq<int>>, part: string)
    requires |cards| == |choice| && CleanCards(cards) && ChoiceRange(choice)
    requires forall j :: 0 <= j < |cards| ==> Numbered(cards[j].gpuName) && SmallTiles(choice[j])
    requires part in Split(ContainerText(request, cards, choice), ',')
    ensures Agrees(part) && !TooShort(part)
  {
    var texts := EntryTexts(cards, choice);
    forall j | 0 <= j < |texts| ensures ',' !in texts[j] && Agrees(texts[j]) && !TooShort(texts[j]) {
      EntryTextLacks(cards[j].gpuName, choice[j], ',');
      PartAgrees(cards[j].gpuName, choice[j]);
    }
    SplitPart("", ',');
    SplitPart("", ':');
    if HasTiles(request) && texts != [] {
      SplitJoin(texts, ',');
    }
  }
}
