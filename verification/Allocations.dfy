/** Per-card resource use of a node, and what booking or releasing a list of allocations
    does to it. These functions specify the loops of node_resource_cache.go (the dry run
    and the real run) and of the planner in scheduler.go. */
module Allocations {
  import opened Text
  import opened ResourceArithmetic

  /** Card name -> resource map. */
  type NodeResources = map<string, Resources>

  /** What one container takes: the same share of resources from every card listed. */
  datatype Alloc = Alloc(share: Resources, cards: seq<string>)

  function AmountAt(node: NodeResources, card: string, key: string): int {
    if card in node then Amount(node[card], key) else 0
  }

  ghost predicate NodeNonNegative(node: NodeResources) {
    forall c :: c in node ==> NonNegative(node[c])
  }

  function CardResources(node: NodeResources, card: string): Resources {
    if card in node then node[card] else map[]
  }

  function AdjustCard(node: NodeResources, share: Resources, card: string, adj: bool): Option<NodeResources> {
    var rm := CardResources(node, card);
    var r := if adj then Sum(rm, share) else Difference(rm, share);
    if r.None? then None else Some(node[card := r.value])
  }

  /** The cards are taken from left to right; the first failure ends the run. */
  function AdjustCards(node: NodeResources, share: Resources, cards: seq<string>, adj: bool): Option<NodeResources> {
    if cards == [] then Some(node)
    else
      var before := AdjustCards(node, share, cards[..|cards| - 1], adj);
      if before.None? then None else AdjustCard(before.value, share, cards[|cards| - 1], adj)
  }

  function AdjustAllocs(node: NodeResources, allocs: seq<Alloc>, adj: bool): Option<NodeResources> {
    if allocs == [] then Some(node)
    else
      var before := AdjustAllocs(node, allocs[..|allocs| - 1], adj);
      var last := allocs[|allocs| - 1];
      if before.None? then None else AdjustCards(before.value, last.share, last.cards, adj)
  }

  /** How much of a resource the cards' shares put on one card. */
  function CardsUse(share: Resources, cards: seq<string>, card: string, key: string): int {
    if cards == [] then 0
    else CardsUse(share, cards[..|cards| - 1], card, key)
         + (if cards[|cards| - 1] == card then Amount(share, key) else 0)
  }

  function Use(allocs: seq<Alloc>, card: string, key: string): int {
    if allocs == [] then 0
    else
      var last := allocs[|allocs| - 1];
      Use(allocs[..|allocs| - 1], card, key) + CardsUse(last.share, last.cards, card, key)
  }

  predicate SharesNonNegative(allocs: seq<Alloc>) {
    forall a :: a in allocs && a.cards != [] ==> NonNegative(a.share)
  }

  /** Every resource the allocations name has an entry on the cards they name. */
  ghost predicate Present(node: NodeResources, share: Resources, cards: seq<string>) {
    forall c :: c in cards ==> c in node && share.Keys <= node[c].Keys
  }

  ghost predicate AllPresent(node: NodeResources, allocs: seq<Alloc>) {
    forall a :: a in allocs ==> Present(node, a.share, a.cards)
  }

  /** No card and no resource entry disappears. */
  ghost predicate EntriesKept(before: NodeResources, after: NodeResources) {
    forall c :: c in before ==> c in after && before[c].Keys <= after[c].Keys
  }

  lemma {:induction false} EarlyFailure(node: NodeResources, share: Resources, cards: seq<string>, n: nat, adj: bool)
    requires n <= |cards|
    requires AdjustCards(node, share, cards[..n], adj).None?
    ensures AdjustCards(node, share, cards, adj).None?
    decreases |cards|
  {
    if n == |cards| {
      assert cards[..n] == cards;
    } else {
      var front := cards[..|cards| - 1];
      assert front[..n] == cards[..n];
      EarlyFailure(node, share, front, n, adj);
    }
  }

  lemma {:induction false} EarlyAllocFailure(node: NodeResources, allocs: seq<Alloc>, n: nat, adj: bool)
    requires n <= |allocs|
    requires AdjustAllocs(node, allocs[..n], adj).None?
    ensures AdjustAllocs(node, allocs, adj).None?
    decreases |allocs|
  {
    if n == |allocs| {
      assert allocs[..n] == allocs;
    } else {
      var front := allocs[..|allocs| - 1];
      assert front[..n] == allocs[..n];
      EarlyAllocFailure(node, front, n, adj);
    }
  }

  lemma CardsOneMore(node: NodeResources, share: Resources, cards: seq<string>, j: nat, adj: bool)
    requires j < |cards|
    ensures AdjustCards(node, share, cards[..j + 1], adj)
         == var before := AdjustCards(node, share, cards[..j], adj);
            if before.None? then None else AdjustCard(before.value, share, cards[j], adj)
  {
    assert cards[..j + 1][..j] == cards[..j];
  }

  lemma AllocsOneMore(node: NodeResources, allocs: seq<Alloc>, i: nat, adj: bool)
    requires i < |allocs|
    ensures AdjustAllocs(node, allocs[..i + 1], adj)
         == var before := AdjustAllocs(node, allocs[..i], adj);
            if before.None? then None else AdjustCards(before.value, allocs[i].share, allocs[i].cards, adj)
  {
    assert allocs[..i + 1][..i] == allocs[..i];
  }

  // ---- booking ----

  lemma AddCardIsExact(node: NodeResources, share: Resources, card: string)
    requires AdjustCard(node, share, card, true).Some?
    ensures var after := AdjustCard(node, share, card, true).value;
            && (forall c, k :: AmountAt(after, c, k) == AmountAt(node, c, k) + if c == card then Amount(share, k) else 0)
            && EntriesKept(node, after) && after.Keys == node.Keys + {card}
            && share.Keys <= after[card].Keys && NonNegative(share)
  {
    var rm := CardResources(node, card);
    forall k
      ensures Amount(Sum(rm, share).value, k) == Amount(rm, k) + Amount(share, k)
      ensures Sum(rm, share).value.Keys == rm.Keys + share.Keys && NonNegative(share)
    {
      SumIsExact(rm, share, k);
    }
  }

  lemma {:induction false} AddCardsIsExact(node: NodeResources, share: Resources, cards: seq<string>)
    requires AdjustCards(node, share, cards, true).Some?
    ensures var after := AdjustCards(node, share, cards, true).value;
            && (forall c, k :: AmountAt(after, c, k) == AmountAt(node, c, k) + CardsUse(share, cards, c, k))
            && EntriesKept(node, after) && Present(after, share, cards)
            && after.Keys == node.Keys + (set c | c in cards)
            && (cards != [] ==> NonNegative(share))
  {
    if cards != [] {
      var front, last := cards[..|cards| - 1], cards[|cards| - 1];
      AddCardsIsExact(node, share, front);
      var mid := AdjustCards(node, share, front, true).value;
      AddCardIsExact(mid, share, last);
      assert forall c :: c in cards <==> c in front || c == last;
    }
  }

  /** A successful booking adds exactly the use of its allocations to every card and resource. */
  lemma {:induction false} BookingIsExact(node: NodeResources, allocs: seq<Alloc>)
    requires AdjustAllocs(node, allocs, true).Some?
    ensures var after := AdjustAllocs(node, allocs, true).value;
            && (forall c, k :: AmountAt(after, c, k) == AmountAt(node, c, k) + Use(allocs, c, k))
            && EntriesKept(node, after) && AllPresent(after, allocs)
            && SharesNonNegative(allocs)
  {
    if allocs != [] {
      var front, last := allocs[..|allocs| - 1], allocs[|allocs| - 1];
      BookingIsExact(node, front);
      var mid := AdjustAllocs(node, front, true).value;
      AddCardsIsExact(mid, last.share, last.cards);
      assert forall a :: a in allocs <==> a in front || a == last;
    }
  }

  lemma {:induction false} CardsUseNonNegative(share: Resources, cards: seq<string>, card: string, key: string)
    requires NonNegative(share)
    ensures CardsUse(share, cards, card, key) >= 0
    ensures card in cards ==> CardsUse(share, cards, card, key) >= Amount(share, key)
    ensures card !in cards || Amount(share, key) == 0 ==> CardsUse(share, cards, card, key) == 0
  {
    if cards != [] {
      CardsUseNonNegative(share, cards[..|cards| - 1], card, key);
    }
  }

  lemma {:induction false} UseNonNegative(allocs: seq<Alloc>, card: string, key: string)
    requires SharesNonNegative(allocs)
    ensures Use(allocs, card, key) >= 0
  {
    if allocs != [] {
      var front, last := allocs[..|allocs| - 1], allocs[|allocs| - 1];
      assert forall a :: a in front ==> a in allocs;
      UseNonNegative(front, card, key);
      assert last in allocs;
      if last.cards != [] {
        CardsUseNonNegative(last.share, last.cards, card, key);
      }
    }
  }

  lemma NonNegativeByAmounts(node: NodeResources)
    requires forall c, k :: AmountAt(node, c, k) >= 0
    ensures NodeNonNegative(node)
  {
    forall c, k | c in node && k in node[c] ensures node[c][k] >= 0 {
      assert AmountAt(node, c, k) >= 0;
    }
  }

  lemma AmountsNonNegative(node: NodeResources, card: string, key: string)
    requires NodeNonNegative(node)
    ensures AmountAt(node, card, key) >= 0
  {
  }

  lemma {:induction false} AddCardsSucceeds(node: NodeResources, share: Resources, cards: seq<string>)
    requires NodeNonNegative(node) && NonNegative(share)
    requires forall c, k :: AmountAt(node, c, k) + CardsUse(share, cards, c, k) <= MAX_INT64
    ensures AdjustCards(node, share, cards, true).Some?
  {
    if cards != [] {
      var front, last := cards[..|cards| - 1], cards[|cards| - 1];
      forall c, k ensures AmountAt(node, c, k) + CardsUse(share, front, c, k) <= MAX_INT64 {
        assert AmountAt(node, c, k) + CardsUse(share, cards, c, k) <= MAX_INT64;
      }
      AddCardsSucceeds(node, share, front);
      var mid := AdjustCards(node, share, front, true).value;
      AddCardsIsExact(node, share, front);
      forall c, k ensures AmountAt(mid, c, k) >= 0 {
        CardsUseNonNegative(share, front, c, k);
      }
      NonNegativeByAmounts(mid);
      var rm := CardResources(mid, last);
      SumFailsExactly(rm, share);
      forall k | k in share ensures Amount(rm, k) + share[k] <= MAX_INT64 {
        assert AmountAt(node, last, k) + CardsUse(share, cards, last, k) <= MAX_INT64;
        assert AmountAt(mid, last, k) == Amount(rm, k);
      }
    }
  }

  /** A booking succeeds exactly when no share on a card is negative and no final amount
      overflows, however the cards repeat across the containers. */
  lemma {:induction false} BookingSucceedsExactly(node: NodeResources, allocs: seq<Alloc>)
    requires NodeNonNegative(node)
    ensures AdjustAllocs(node, allocs, true).Some? <==>
              && SharesNonNegative(allocs)
              && forall c, k :: AmountAt(node, c, k) + Use(allocs, c, k) <= MAX_INT64
  {
    if AdjustAllocs(node, allocs, true).Some? {
      BookingIsExact(node, allocs);
      var after := AdjustAllocs(node, allocs, true).value;
      forall c, k ensures AmountAt(node, c, k) + Use(allocs, c, k) <= MAX_INT64 {
        assert AmountAt(after, c, k) <= MAX_INT64;
      }
    }
    if SharesNonNegative(allocs) && forall c, k :: AmountAt(node, c, k) + Use(allocs, c, k) <= MAX_INT64 {
      BookingSucceeds(node, allocs);
    }
  }

  lemma {:induction false} BookingSucceeds(node: NodeResources, allocs: seq<Alloc>)
    requires NodeNonNegative(node) && SharesNonNegative(allocs)
    requires forall c, k :: AmountAt(node, c, k) + Use(allocs, c, k) <= MAX_INT64
    ensures AdjustAllocs(node, allocs, true).Some?
  {
    if allocs != [] {
      var front, last := allocs[..|allocs| - 1], allocs[|allocs| - 1];
      assert last in allocs && forall a :: a in front ==> a in allocs;
      if last.cards == [] {
        forall c, k ensures AmountAt(node, c, k) + Use(front, c, k) <= MAX_INT64 {
          assert Use(allocs, c, k) == Use(front, c, k);
        }
        BookingSucceeds(node, front);
      } else {
        forall c, k ensures AmountAt(node, c, k) + Use(front, c, k) <= MAX_INT64 {
          assert AmountAt(node, c, k) + Use(allocs, c, k) <= MAX_INT64;
          CardsUseNonNegative(last.share, last.cards, c, k);
        }
        BookingSucceeds(node, front);
        var mid := AdjustAllocs(node, front, true).value;
        BookingIsExact(node, front);
        forall c, k
          ensures AmountAt(mid, c, k) >= 0
          ensures AmountAt(mid, c, k) + CardsUse(last.share, last.cards, c, k) <= MAX_INT64
        {
          UseNonNegative(front, c, k);
          AmountsNonNegative(node, c, k);
          assert AmountAt(node, c, k) + Use(allocs, c, k) <= MAX_INT64;
        }
        NonNegativeByAmounts(mid);
        AddCardsSucceeds(mid, last.share, last.cards);
      }
    }
  }

  // ---- releasing ----

  lemma {:induction false} RemoveCardsIsExact(node: NodeResources, share: Resources, cards: seq<string>)
    requires NodeNonNegative(node) && Present(node, share, cards)
    requires cards != [] ==> NonNegative(share)
    requires forall c, k :: CardsUse(share, cards, c, k) <= AmountAt(node, c, k)
    ensures AdjustCards(node, share, cards, false).Some?
    ensures var after := AdjustCards(node, share, cards, false).value;
            && (forall c, k :: AmountAt(after, c, k) == AmountAt(node, c, k) - CardsUse(share, cards, c, k))
            && NodeNonNegative(after) && EntriesKept(node, after)
  {
    if cards != [] {
      var front, last := cards[..|cards| - 1], cards[|cards| - 1];
      assert last in cards && forall c :: c in front ==> c in cards;
      forall c, k ensures CardsUse(share, front, c, k) <= AmountAt(node, c, k) {
        assert CardsUse(share, cards, c, k) <= AmountAt(node, c, k);
      }
      RemoveCardsIsExact(node, share, front);
      var mid := AdjustCards(node, share, front, false).value;
      var rm := mid[last];
      forall k
        ensures Difference(rm, share).Some?
        ensures Amount(Difference(rm, share).value, k) == Amount(rm, k) - Amount(share, k)
        ensures Difference(rm, share).value.Keys == rm.Keys && NonNegative(Difference(rm, share).value)
      {
        DifferenceIsCapped(rm, share, k);
        assert CardsUse(share, cards, last, k) <= AmountAt(node, last, k);
        assert AmountAt(mid, last, k) == Amount(rm, k);
      }
    }
  }

  /** Releasing allocations that are accounted for never fails, is never capped at zero, and
      takes exactly their use away. */
  lemma {:induction false} ReleaseIsExact(node: NodeResources, allocs: seq<Alloc>)
    requires NodeNonNegative(node) && SharesNonNegative(allocs) && AllPresent(node, allocs)
    requires forall c, k :: Use(allocs, c, k) <= AmountAt(node, c, k)
    ensures AdjustAllocs(node, allocs, false).Some?
    ensures var after := AdjustAllocs(node, allocs, false).value;
            && (forall c, k :: AmountAt(after, c, k) == AmountAt(node, c, k) - Use(allocs, c, k))
            && NodeNonNegative(after) && EntriesKept(node, after)
  {
    if allocs != [] {
      var front, last := allocs[..|allocs| - 1], allocs[|allocs| - 1];
      assert last in allocs && forall a :: a in front ==> a in allocs;
      forall c, k ensures Use(front, c, k) <= AmountAt(node, c, k) {
        assert Use(allocs, c, k) <= AmountAt(node, c, k);
        if last.cards != [] {
          CardsUseNonNegative(last.share, last.cards, c, k);
        }
      }
      ReleaseIsExact(node, front);
      var mid := AdjustAllocs(node, front, false).value;
      assert Present(node, last.share, last.cards);
      forall c, k ensures CardsUse(last.share, last.cards, c, k) <= AmountAt(mid, c, k) {
        assert Use(allocs, c, k) <= AmountAt(node, c, k);
      }
      RemoveCardsIsExact(mid, last.share, last.cards);
    }
  }

  lemma {:induction false} RemoveCardsIsCapped(node: NodeResources, share: Resources, cards: seq<string>)
    requires NodeNonNegative(node) && AdjustCards(node, share, cards, false).Some?
    ensures cards != [] ==> NonNegative(share)
    ensures var after := AdjustCards(node, share, cards, false).value;
            && (forall c, k :: AmountAt(after, c, k) == Floored(AmountAt(node, c, k) - CardsUse(share, cards, c, k)))
            && NodeNonNegative(after) && EntriesKept(node, after)
  {
    if cards != [] {
      var front, last := cards[..|cards| - 1], cards[|cards| - 1];
      RemoveCardsIsCapped(node, share, front);
      var mid := AdjustCards(node, share, front, false).value;
      var rm := CardResources(mid, last);
      forall k
        ensures Amount(Difference(rm, share).value, k) == Floored(Amount(rm, k) - Amount(share, k))
        ensures Difference(rm, share).value.Keys == rm.Keys && NonNegative(Difference(rm, share).value)
        ensures NonNegative(share)
      {
        DifferenceIsCapped(rm, share, k);
      }
      var after := AdjustCards(node, share, cards, false).value;
      forall c, k ensures AmountAt(after, c, k) == Floored(AmountAt(node, c, k) - CardsUse(share, cards, c, k)) {
        FlooredTwice(AmountAt(node, c, k), CardsUse(share, front, c, k), if c == last then Amount(share, k) else 0);
      }
    }
  }

  lemma FlooredTwice(amount: int, first: int, second: int)
    requires second >= 0
    ensures Floored(Floored(amount - first) - second) == Floored(amount - (first + second))
  {
  }

  function Floored(x: int): nat { if x < 0 then 0 else x }

  /** An accepted release takes away what there is, and never more. */
  lemma {:induction false} ReleaseIsCapped(node: NodeResources, allocs: seq<Alloc>)
    requires NodeNonNegative(node) && AdjustAllocs(node, allocs, false).Some?
    ensures SharesNonNegative(allocs)
    ensures var after := AdjustAllocs(node, allocs, false).value;
            && (forall c, k :: AmountAt(after, c, k) == Floored(AmountAt(node, c, k) - Use(allocs, c, k)))
            && NodeNonNegative(after) && EntriesKept(node, after)
  {
    if allocs != [] {
      var front, last := allocs[..|allocs| - 1], allocs[|allocs| - 1];
      ReleaseIsCapped(node, front);
      var mid := AdjustAllocs(node, front, false).value;
      RemoveCardsIsCapped(mid, last.share, last.cards);
      assert forall a :: a in allocs <==> a in front || a == last;
      var after := AdjustAllocs(node, allocs, false).value;
      forall c, k ensures AmountAt(after, c, k) == Floored(AmountAt(node, c, k) - Use(allocs, c, k)) {
        UseNonNegative(front, c, k);
        if last.cards != [] {
          CardsUseNonNegative(last.share, last.cards, c, k);
        }
      }
    }
  }

  lemma ReleaseUndoesBooking(node: NodeResources, allocs: seq<Alloc>)
    requires NodeNonNegative(node) && AdjustAllocs(node, allocs, true).Some?
    ensures var back := AdjustAllocs(AdjustAllocs(node, allocs, true).value, allocs, false);
            back.Some? && forall c, k :: AmountAt(back.value, c, k) == AmountAt(node, c, k)
  {
    var after := AdjustAllocs(node, allocs, true).value;
    BookingIsExact(node, allocs);
    forall c, k ensures AmountAt(after, c, k) >= Use(allocs, c, k) >= 0 {
      AmountsNonNegative(node, c, k);
      UseNonNegative(allocs, c, k);
    }
    NonNegativeByAmounts(after);
    ReleaseIsExact(after, allocs);
  }
}
