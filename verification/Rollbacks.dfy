/** What a bind's rollback leaves behind: right after its booking, after any steps of other pods, and after its
    pod has been released already. */
module Rollbacks {
  import opened Text
  import opened ResourceArithmetic
  import opened Allocations
  import opened Annotations
  import opened NodeResourceCache
  import opened Accounting

  // ---- right after the booking ----

  /** The tiles are as they were, unless the booking's own tiles were in use already. */
  ghost predicate TilesUndone(l: Ledger, back: Ledger, ch: Change, n: string, c: string) {
    TilesAt(TileStatus(back, n), c) == TilesAt(TileStatus(l, n), c)
    <==> n != ch.node || TileUse(TileEntries(ch.tileAnnotation), c) !! TilesAt(TileStatus(l, n), c)
  }

  /** A rollback right after its booking is not refused and leaves no trace: every amount is as before, and
      every tile set too, exactly when the booked tiles were not in use. */
  lemma RollbackRestores(l: Ledger, ch: Change)
    requires ch.adj && Accepted(l, ch) && NodeNonNegative(NodeStatus(l, ch.node))
    ensures var l1 := Adjust(l, ch.pod, true, ch.annotation, ch.tileAnnotation, ch.node).value;
            var back := Adjust(l1, ch.pod, false, ch.annotation, ch.tileAnnotation, ch.node);
            && back.Some? && back.value.annotated == l.annotated - {Key(ch.pod)}
            && (forall n, c, k :: AmountAt(NodeStatus(back.value, n), c, k) == AmountAt(NodeStatus(l, n), c, k))
            && (forall n, c :: TilesUndone(l, back.value, ch, n, c))
  {
    RollbackOnNode(l, ch);
    var l1 := Adjust(l, ch.pod, true, ch.annotation, ch.tileAnnotation, ch.node).value;
    var l2 := Adjust(l1, ch.pod, false, ch.annotation, ch.tileAnnotation, ch.node).value;
    forall n, c ensures TilesUndone(l, l2, ch, n, c) {
      RollbackTiles(l, l1, l2, ch, n, c);
    }
    forall n, c, k ensures AmountAt(NodeStatus(l2, n), c, k) == AmountAt(NodeStatus(l, n), c, k) {
      if n != ch.node {
        StatusElsewhere(l, ch.pod, true, ch.annotation, ch.tileAnnotation, ch.node, n);
        StatusElsewhere(l1, ch.pod, false, ch.annotation, ch.tileAnnotation, ch.node, n);
      }
    }
  }

  lemma RollbackOnNode(l: Ledger, ch: Change)
    requires ch.adj && Accepted(l, ch) && NodeNonNegative(NodeStatus(l, ch.node))
    ensures var l1 := Adjust(l, ch.pod, true, ch.annotation, ch.tileAnnotation, ch.node).value;
            var back := Adjust(l1, ch.pod, false, ch.annotation, ch.tileAnnotation, ch.node);
            && back.Some?
            && forall c, k :: AmountAt(NodeStatus(back.value, ch.node), c, k) == AmountAt(NodeStatus(l, ch.node), c, k)
  {
    var l1 := Adjust(l, ch.pod, true, ch.annotation, ch.tileAnnotation, ch.node).value;
    var allocs, node := AllocsOf(Booked(ch)), NodeStatus(l, ch.node);
    StatusAfter(l, ch.pod, true, ch.annotation, ch.tileAnnotation, ch.node);
    ReleaseUndoesBooking(node, allocs);
    StatusAfter(l1, ch.pod, false, ch.annotation, ch.tileAnnotation, ch.node);
  }

  lemma RollbackTiles(l: Ledger, l1: Ledger, l2: Ledger, ch: Change, n: string, c: string)
    requires Adjust(l, ch.pod, true, ch.annotation, ch.tileAnnotation, ch.node) == Some(l1)
    requires Adjust(l1, ch.pod, false, ch.annotation, ch.tileAnnotation, ch.node) == Some(l2)
    ensures TilesUndone(l, l2, ch, n, c)
  {
    var entries := TileEntries(ch.tileAnnotation);
    if n == ch.node {
      AdjustEntriesByCard(TileStatus(l, n), entries, true, c);
      AdjustEntriesByCard(TileStatus(l1, n), entries, false, c);
      var u, was := TileUse(entries, c), TilesAt(TileStatus(l, n), c);
      assert TilesAt(TileStatus(l2, n), c) == was + u - u == was - u;
      assert was - u == was <==> u !! was;
    } else {
      StatusElsewhere(l, ch.pod, true, ch.annotation, ch.tileAnnotation, ch.node, n);
      StatusElsewhere(l1, ch.pod, false, ch.annotation, ch.tileAnnotation, ch.node, n);
    }
  }

  // ---- after the pod has been released ----

  /** A rollback that comes after its pod has been released is accepted whenever another pod with the same
      shares is counted on the node, and it takes that pod's use out of the ledger. */
  lemma LateRollbackTakesFromOthers(s: System, ch: Change, other: string)
    requires Accounted(s) && !ch.adj && Key(ch.pod) !in s.books && other in s.books
    requires s.books[other].node == ch.node && AllocsOf(s.books[other]) == AllocsOf(Booked(ch))
    requires !BadArgs(Requests(ch.pod), ch.node, Split(ch.annotation, '|')) && !UsesNothing(Booked(ch))
    ensures Accepted(s.ledger, ch)
    ensures !Balanced(System(Adjust(s.ledger, ch.pod, false, ch.annotation, ch.tileAnnotation, ch.node).value, s.books, s.leaked))
  {
    var node, allocs := NodeStatus(s.ledger, ch.node), AllocsOf(Booked(ch));
    AccountedNonNegative(s, ch.node);
    forall c, k ensures 0 <= Use(allocs, c, k) <= AmountAt(node, c, k) {
      AtLeastOneBooking(s, other, c, k);
    }
    ReleaseIsExact(node, allocs);
    ReleasingUncounted(s, ch);
    var c, k :| Use(allocs, c, k) != 0;
    assert Use(allocs, c, k) > 0 && AmountAt(node, c, k) > 0;
  }

  lemma AtLeastOneBooking(s: System, key: string, c: string, k: string)
    requires Accounted(s) && key in s.books
    ensures 0 <= Use(AllocsOf(s.books[key]), c, k) <= AmountAt(NodeStatus(s.ledger, s.books[key].node), c, k)
  {
    var node := s.books[key].node;
    UseNonNegative(AllocsOf(s.books[key]), c, k);
    TotalWithout(s.books, key, node, c, k);
    TotalNonNegative(s.books - {key}, node, c, k);
    LeakedNonNegative(s.leaked, node, c, k);
  }

  // ---- a rollback with other pods' steps in between ----

  /** The same system with and without one more booking. */
  ghost predicate Twins(with: System, without: System, key: string, b: Booking) {
    && Accounted(with) && Accounted(without)
    && key !in without.books && with.books == without.books[key := b] && with.leaked == without.leaked
  }

  function PodOf(step: Step): Pod { if step.Work? then step.item.pod else step.pod }

  /** A step for another pod. No booking is refused only because of the extra one, and a rollback of a pod that is
      not counted is harmless without the extra booking, too. */
  ghost predicate Aside(with: System, without: System, key: string, step: Step) {
    && Key(PodOf(step)) != key && Faithful(with, step)
    && (step.BindRollback? && Key(step.pod) !in with.books ==> Faithful(without, step))
    && var ch := ChangeOf(with.ledger, step);
       ch.Some? && ch.value.adj && Accepted(without.ledger, ch.value) ==> Accepted(with.ledger, ch.value)
  }

  ghost predicate AsideRun(with: System, without: System, key: string, steps: seq<Step>) {
    steps == [] ||
    var front, last := steps[..|steps| - 1], steps[|steps| - 1];
    AsideRun(with, without, key, front) && Aside(After(with, front), After(without, front), key, last)
  }

  predicate ReleasesUncounted(s: System, step: Step) { step.BindRollback? && Key(step.pod) !in s.books }

  lemma TwinsDecideAlike(with: System, without: System, key: string, b: Booking, step: Step)
    requires Twins(with, without, key, b) && Aside(with, without, key, step)
    ensures Faithful(without, step)
    ensures ChangeOf(without.ledger, step) == ChangeOf(with.ledger, step)
    ensures var ch := ChangeOf(with.ledger, step);
            ch.Some? && !ReleasesUncounted(with, step) ==>
              (Accepted(without.ledger, ch.value) <==> Accepted(with.ledger, ch.value))
  {
    assert with.ledger.annotated.Keys == without.ledger.annotated.Keys + {key};
    var ch := ChangeOf(with.ledger, step);
    if ch.Some? && !ReleasesUncounted(with, step) {
      if ch.value.adj {
        if Accepted(with.ledger, ch.value) {
          FewerAccept(with, without, key, b, ch.value);
        }
      } else {
        ReleasesAlike(with, without, key, b, step);
      }
    }
  }

  /** With less booked, a booking is accepted all the more. */
  lemma FewerAccept(with: System, without: System, key: string, b: Booking, ch: Change)
    requires Twins(with, without, key, b) && ch.adj && Accepted(with.ledger, ch)
    ensures Accepted(without.ledger, ch)
  {
    var allocs := AllocsOf(Booked(ch));
    AccountedNonNegative(with, ch.node);
    AccountedNonNegative(without, ch.node);
    BookingSucceedsExactly(NodeStatus(with.ledger, ch.node), allocs);
    BookingSucceedsExactly(NodeStatus(without.ledger, ch.node), allocs);
    forall c, k ensures AmountAt(NodeStatus(without.ledger, ch.node), c, k) + Use(allocs, c, k) <= MAX_INT64 {
      TwinAmounts(with, without, key, b, ch.node, c, k);
      assert AmountAt(NodeStatus(with.ledger, ch.node), c, k) + Use(allocs, c, k) <= MAX_INT64;
    }
  }

  lemma TwinAmounts(with: System, without: System, key: string, b: Booking, n: string, c: string, k: string)
    requires Twins(with, without, key, b)
    ensures UseOn(b, n, c, k) >= 0
    ensures AmountAt(NodeStatus(with.ledger, n), c, k) == AmountAt(NodeStatus(without.ledger, n), c, k) + UseOn(b, n, c, k)
  {
    TotalWith(without.books, key, b, n, c, k);
    assert with.books[key] == b;
    UseNonNegative(AllocsOf(b), c, k);
    assert AmountAt(NodeStatus(with.ledger, n), c, k) == Total(with.books, n, c, k) + LeakedTotal(with.leaked, n, c, k);
    assert AmountAt(NodeStatus(without.ledger, n), c, k) == Total(without.books, n, c, k) + LeakedTotal(without.leaked, n, c, k);
  }

  lemma ReleasesAlike(with: System, without: System, key: string, b: Booking, step: Step)
    requires Twins(with, without, key, b) && Aside(with, without, key, step) && !ReleasesUncounted(with, step)
    requires var ch := ChangeOf(with.ledger, step); ch.Some? && !ch.value.adj
    ensures var ch := ChangeOf(with.ledger, step).value;
            Accepted(without.ledger, ch) <==> Accepted(with.ledger, ch)
  {
    var ch := ChangeOf(with.ledger, step).value;
    assert Key(ch.pod) in without.books && without.books[Key(ch.pod)] == with.books[Key(ch.pod)];
    if !BadArgs(Requests(ch.pod), ch.node, Split(ch.annotation, '|')) {
      if with.books[Key(ch.pod)] == Booked(ch) {
        ReleaseOfBooked(with, ch);
        ReleaseOfBooked(without, ch);
      } else {
        BareDeleteReleasesNothing(with.ledger, ch.pod);
        BareDeleteReleasesNothing(without.ledger, ch.pod);
      }
    }
  }

  lemma RecordsApart(books: map<string, Booking>, leaked: seq<Booking>, key: string, b: Booking, ch: Option<Change>)
    requires key !in books && (ch.Some? ==> Key(ch.value.pod) != key)
    ensures BooksAfter(books[key := b], ch) == BooksAfter(books, ch)[key := b] && key !in BooksAfter(books, ch)
    ensures LeakedAfter(books[key := b], leaked, ch) == LeakedAfter(books, leaked, ch)
  {
  }

  lemma TwinsStep(with: System, without: System, key: string, b: Booking, step: Step)
    requires Twins(with, without, key, b) && Aside(with, without, key, step)
    ensures Twins(Next(with, step), Next(without, step), key, b)
  {
    TwinsDecideAlike(with, without, key, b, step);
    if ReleasesUncounted(with, step) {
      UncountedKeepsRecords(with, step);
      UncountedKeepsRecords(without, step);
    } else {
      RecordsApart(without.books, without.leaked, key, b, MadeChange(with.ledger, step));
    }
    StepKeepsAccounts(with, step);
    StepKeepsAccounts(without, step);
  }

  lemma UncountedKeepsRecords(s: System, step: Step)
    requires ReleasesUncounted(s, step)
    ensures Next(s, step).books == s.books && Next(s, step).leaked == s.leaked
  {
  }

  lemma {:induction false} TwinsRun(with: System, without: System, key: string, b: Booking, steps: seq<Step>)
    requires Twins(with, without, key, b) && AsideRun(with, without, key, steps)
    ensures Twins(After(with, steps), After(without, steps), key, b)
  {
    if steps != [] {
      var front := steps[..|steps| - 1];
      TwinsRun(with, without, key, b, front);
      TwinsStep(After(with, front), After(without, front), key, b, steps[|steps| - 1]);
    }
  }

  /** A booking, then any steps of other pods, then its rollback: the rollback is accepted, and every amount, the
      counted pods and what is leaked are what the other steps alone would have given. */
  lemma RollbackAmongOthers(s: System, ch: Change, steps: seq<Step>)
    requires Accounted(s) && ch.adj && Key(ch.pod) !in s.books && Accepted(s.ledger, ch)
    requires AsideRun(Next(s, BookOf(ch)), s, Key(ch.pod), steps)
    ensures var with, without := After(Next(s, BookOf(ch)), steps), After(s, steps);
            var back := Next(with, RollbackOf(ch));
            && Faithful(with, RollbackOf(ch)) && Accepted(with.ledger, ch.(adj := false))
            && back.books == without.books && back.leaked == without.leaked
            && SameAmounts(without.ledger, back.ledger)
  {
    TwinsFromBooking(s, ch);
    TwinsRun(Next(s, BookOf(ch)), s, Key(ch.pod), Booked(ch), steps);
    RollbackOfTwin(After(Next(s, BookOf(ch)), steps), After(s, steps), ch);
  }

  lemma TwinsFromBooking(s: System, ch: Change)
    requires Accounted(s) && ch.adj && Key(ch.pod) !in s.books && Accepted(s.ledger, ch)
    ensures Twins(Next(s, BookOf(ch)), s, Key(ch.pod), Booked(ch))
  {
    BookKeepsAccounts(s, ch);
  }

  lemma RollbackOfTwin(with: System, without: System, ch: Change)
    requires Twins(with, without, Key(ch.pod), Booked(ch)) && ch.adj
    requires !BadArgs(Requests(ch.pod), ch.node, Split(ch.annotation, '|'))
    ensures var back := Next(with, RollbackOf(ch));
            && Faithful(with, RollbackOf(ch)) && Accepted(with.ledger, ch.(adj := false))
            && back.books == without.books && back.leaked == without.leaked
            && SameAmounts(without.ledger, back.ledger)
  {
    var step := RollbackOf(ch);
    RollbackIsMade(with, ch);
    StepKeepsAccounts(with, step);
    assert without.books[Key(ch.pod) := Booked(ch)] - {Key(ch.pod)} == without.books;
    SameBooksSameAmounts(Next(with, step), without);
  }

  lemma RollbackIsMade(s: System, ch: Change)
    requires Accounted(s) && ch.adj && Key(ch.pod) in s.books && s.books[Key(ch.pod)] == Booked(ch)
    requires !BadArgs(Requests(ch.pod), ch.node, Split(ch.annotation, '|'))
    ensures Faithful(s, RollbackOf(ch)) && Accepted(s.ledger, ch.(adj := false))
    ensures Next(s, RollbackOf(ch)).books == s.books - {Key(ch.pod)} && Next(s, RollbackOf(ch)).leaked == s.leaked
  {
    var release := ch.(adj := false);
    assert Booked(release) == Booked(ch);
    ReleaseOfBooked(s, release);
    assert ChangeOf(s.ledger, RollbackOf(ch)) == Some(release);
  }

  function BookOf(ch: Change): Step { BindBook(ch.pod, ch.node, ch.annotation, ch.tileAnnotation) }

  function RollbackOf(ch: Change): Step { BindRollback(ch.pod, ch.node, ch.annotation, ch.tileAnnotation) }

  lemma SameBooksSameAmounts(a: System, b: System)
    requires Accounted(a) && Accounted(b) && a.books == b.books && a.leaked == b.leaked
    ensures SameAmounts(b.ledger, a.ledger)
  {
    forall n, c, k ensures AmountAt(NodeStatus(a.ledger, n), c, k) == AmountAt(NodeStatus(b.ledger, n), c, k) {
      assert AmountAt(NodeStatus(a.ledger, n), c, k) == Total(a.books, n, c, k) + LeakedTotal(a.leaked, n, c, k);
      assert AmountAt(NodeStatus(b.ledger, n), c, k) == Total(b.books, n, c, k) + LeakedTotal(b.leaked, n, c, k);
    }
  }

  function TilesOn(b: Booking, node: string, card: string): set<int> {
    if b.node == node then BookedTiles(b, card) else {}
  }

  ghost predicate TileTwins(with: Ledger, without: Ledger, b: Booking) {
    forall n, c ::
      && TilesOn(b, n, c) !! TilesAt(TileStatus(without, n), c)
      && TilesAt(TileStatus(with, n), c) == TilesAt(TileStatus(without, n), c) + TilesOn(b, n, c)
  }

  /** The steps book and release tiles apart from the given ones, with and without the extra booking alike. */
  ghost predicate TilesAsideRun(with: System, without: System, b: Booking, steps: seq<Step>) {
    steps == [] ||
    var front, last := steps[..|steps| - 1], steps[|steps| - 1];
    var ch := MadeChange(After(with, front).ledger, last);
    && TilesAsideRun(with, without, b, front)
    && MadeChange(After(without, front).ledger, last) == ch && (ch.Some? ==> TilesApart(Booked(ch.value), b))
  }

  function TilesChanged(was: set<int>, ch: Option<Change>, n: string, c: string): set<int> {
    match ch
    case None => was
    case Some(a) => if a.adj then was + TilesOn(Booked(a), n, c) else was - TilesOn(Booked(a), n, c)
  }

  lemma TilesAfterStep(l: Ledger, step: Step, n: string, c: string)
    ensures TilesAt(TileStatus(LedgerAfter(l, step), n), c)
         == TilesChanged(TilesAt(TileStatus(l, n), c), MadeChange(l, step), n, c)
  {
    var made := MadeChange(l, step);
    if made.Some? {
      var ch := made.value;
      StatusAfter(l, ch.pod, ch.adj, ch.annotation, ch.tileAnnotation, ch.node);
      if n == ch.node {
        AdjustEntriesByCard(TileStatus(l, n), TileEntries(ch.tileAnnotation), ch.adj, c);
      } else {
        StatusElsewhere(l, ch.pod, ch.adj, ch.annotation, ch.tileAnnotation, ch.node, n);
      }
    }
  }

  lemma ChangedApart(was: set<int>, tiles: set<int>, ch: Option<Change>, n: string, c: string)
    requires tiles !! was && (ch.Some? ==> TilesOn(Booked(ch.value), n, c) !! tiles)
    ensures tiles !! TilesChanged(was, ch, n, c)
    ensures TilesChanged(was + tiles, ch, n, c) == TilesChanged(was, ch, n, c) + tiles
  {
  }

  lemma TileTwinsStep(with: Ledger, without: Ledger, b: Booking, step: Step)
    requires TileTwins(with, without, b) && MadeChange(with, step) == MadeChange(without, step)
    requires var ch := MadeChange(with, step); ch.Some? ==> TilesApart(Booked(ch.value), b)
    ensures TileTwins(LedgerAfter(with, step), LedgerAfter(without, step), b)
  {
    var ch, with', without' := MadeChange(with, step), LedgerAfter(with, step), LedgerAfter(without, step);
    forall n, c
      ensures TilesOn(b, n, c) !! TilesAt(TileStatus(without', n), c)
      ensures TilesAt(TileStatus(with', n), c) == TilesAt(TileStatus(without', n), c) + TilesOn(b, n, c)
    {
      TilesAfterStep(with, step, n, c);
      TilesAfterStep(without, step, n, c);
      ChangedApart(TilesAt(TileStatus(without, n), c), TilesOn(b, n, c), ch, n, c);
    }
  }

  lemma {:induction false} TileTwinsRun(with: System, without: System, b: Booking, steps: seq<Step>)
    requires TileTwins(with.ledger, without.ledger, b) && TilesAsideRun(with, without, b, steps)
    ensures TileTwins(After(with, steps).ledger, After(without, steps).ledger, b)
  {
    if steps != [] {
      var front := steps[..|steps| - 1];
      TileTwinsRun(with, without, b, front);
      TileTwinsStep(After(with, front).ledger, After(without, front).ledger, b, steps[|steps| - 1]);
    }
  }

  /** When the booked tiles were free and the other steps keep away from them, every tile set, too, is what the
      other steps alone would have given. */
  lemma RollbackAmongOthersTiles(s: System, ch: Change, steps: seq<Step>, n: string, c: string)
    requires Accounted(s) && ch.adj && Key(ch.pod) !in s.books && Accepted(s.ledger, ch)
    requires AsideRun(Next(s, BookOf(ch)), s, Key(ch.pod), steps)
    requires forall c :: TilesOn(Booked(ch), ch.node, c) !! TilesAt(TileStatus(s.ledger, ch.node), c)
    requires TilesAsideRun(Next(s, BookOf(ch)), s, Booked(ch), steps)
    ensures var back := Next(After(Next(s, BookOf(ch)), steps), RollbackOf(ch));
            TilesAt(TileStatus(back.ledger, n), c) == TilesAt(TileStatus(After(s, steps).ledger, n), c)
  {
    TileTwinsFromBooking(s, ch);
    TileTwinsRun(Next(s, BookOf(ch)), s, Booked(ch), steps);
    RollbackAmongOthers(s, ch, steps);
    TilesAfterStep(After(Next(s, BookOf(ch)), steps).ledger, RollbackOf(ch), n, c);
  }

  lemma TileTwinsFromBooking(s: System, ch: Change)
    requires ch.adj && Accepted(s.ledger, ch)
    requires forall c :: TilesOn(Booked(ch), ch.node, c) !! TilesAt(TileStatus(s.ledger, ch.node), c)
    ensures TileTwins(Next(s, BookOf(ch)).ledger, s.ledger, Booked(ch))
  {
    assert MadeChange(s.ledger, BookOf(ch)) == Some(ch);
    forall n, c
      ensures TilesOn(Booked(ch), n, c) !! TilesAt(TileStatus(s.ledger, n), c)
      ensures TilesAt(TileStatus(Next(s, BookOf(ch)).ledger, n), c) == TilesAt(TileStatus(s.ledger, n), c) + TilesOn(Booked(ch), n, c)
    {
      TilesAfterStep(s.ledger, BookOf(ch), n, c);
    }
  }
}
