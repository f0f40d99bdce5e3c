/** Exactly-once accounting: over every run of bind, rollback and informer events, the ledger is
    the sum of what the counted pods were booked with. */
module Accounting {
  import opened Text
  import opened ResourceArithmetic
  import opened Allocations
  import opened Annotations
  import opened NodeResourceCache

  /** What a pod was booked with. */
  datatype Booking = Booking(node: string, requests: seq<Resources>, annotation: string, tileAnnotation: string)

  function BookingOf(pod: Pod, node: string, annotation: string, tileAnnotation: string): Booking {
    Booking(node, Requests(pod), annotation, tileAnnotation)
  }

  function AllocsOf(b: Booking): seq<Alloc> {
    var cards := Split(b.annotation, '|');
    if |b.requests| == |cards| then Allocs(b.requests, cards) else []
  }

  /** The tiles a booking names on one card of its node. */
  function BookedTiles(b: Booking, card: string): set<int> { TileUse(TileEntries(b.tileAnnotation), card) }

  ghost predicate TilesApart(a: Booking, b: Booking) {
    a.node == b.node ==> forall c :: BookedTiles(a, c) !! BookedTiles(b, c)
  }

  function UseOn(b: Booking, node: string, card: string, key: string): int {
    if b.node == node then Use(AllocsOf(b), card, key) else 0
  }

  ghost function Total(books: map<string, Booking>, node: string, card: string, key: string): int
    decreases |books|
  {
    if books == map[] then 0
    else
      var k :| k in books;
      Total(books - {k}, node, card, key) + UseOn(books[k], node, card, key)
  }

  function LeakedTotal(leaked: seq<Booking>, node: string, card: string, key: string): int {
    if leaked == [] then 0
    else LeakedTotal(leaked[..|leaked| - 1], node, card, key) + UseOn(leaked[|leaked| - 1], node, card, key)
  }

  lemma {:induction false} TotalWithout(books: map<string, Booking>, k: string, node: string, card: string, key: string)
    requires k in books
    ensures Total(books, node, card, key) == Total(books - {k}, node, card, key) + UseOn(books[k], node, card, key)
    decreases |books|
  {
    var j :| j in books && Total(books, node, card, key)
                        == Total(books - {j}, node, card, key) + UseOn(books[j], node, card, key);
    if j != k {
      TotalWithout(books - {j}, k, node, card, key);
      TotalWithout(books - {k}, j, node, card, key);
      assert books - {j} - {k} == books - {k} - {j};
    }
  }

  lemma TotalWith(books: map<string, Booking>, k: string, b: Booking, node: string, card: string, key: string)
    requires k !in books
    ensures Total(books[k := b], node, card, key) == Total(books, node, card, key) + UseOn(b, node, card, key)
  {
    TotalWithout(books[k := b], k, node, card, key);
    assert books[k := b] - {k} == books;
  }

  ghost predicate AllShares(books: map<string, Booking>) {
    forall k :: k in books ==> SharesNonNegative(AllocsOf(books[k]))
  }

  lemma {:induction false} TotalNonNegative(books: map<string, Booking>, node: string, card: string, key: string)
    requires AllShares(books)
    ensures Total(books, node, card, key) >= 0
    decreases |books|
  {
    if books.Keys != {} {
      var k :| k in books;
      TotalWithout(books, k, node, card, key);
      TotalNonNegative(books - {k}, node, card, key);
      UseNonNegative(AllocsOf(books[k]), card, key);
    }
  }

  lemma {:induction false} LeakedNonNegative(leaked: seq<Booking>, node: string, card: string, key: string)
    requires forall b :: b in leaked ==> SharesNonNegative(AllocsOf(b))
    ensures LeakedTotal(leaked, node, card, key) >= 0
  {
    if leaked != [] {
      var front, last := leaked[..|leaked| - 1], leaked[|leaked| - 1];
      assert last in leaked && forall b :: b in front ==> b in leaked;
      LeakedNonNegative(front, node, card, key);
      UseNonNegative(AllocsOf(last), card, key);
    }
  }

  // ---- the system and its steps ----

  /** `books` and `leaked` record history: what the counted pods were booked with, and the bookings
      whose pod was dropped by a bare delete event. */
  datatype System = System(ledger: Ledger, books: map<string, Booking>, leaked: seq<Booking>)

  datatype Step =
    | BindBook(pod: Pod, node: string, annotation: string, tileAnnotation: string)
    | BindRollback(pod: Pod, node: string, annotation: string, tileAnnotation: string)
    | Work(item: WorkItem)

  const INIT := System(EMPTY_LEDGER, map[], [])

  function LedgerAfter(l: Ledger, step: Step): Ledger {
    match step
    case Work(item) => Handled(l, item)
    case _ =>
      match Adjust(l, step.pod, step.BindBook?, step.annotation, step.tileAnnotation, step.node)
      case Some(l') => l'
      case None => l
  }

  /** The adjustment a step makes: booking or releasing, with which data; None when it makes none. */
  datatype Change = Change(pod: Pod, adj: bool, annotation: string, tileAnnotation: string, node: string)

  function ChangeOf(l: Ledger, step: Step): Option<Change> {
    match step
    case Work(item) =>
      if !Adjusts(l, item) then None
      else Some(Change(item.pod, Books(item), item.annotation, item.tileAnnotation, item.pod.nodeName))
    case _ => Some(Change(step.pod, step.BindBook?, step.annotation, step.tileAnnotation, step.node))
  }

  predicate Accepted(l: Ledger, ch: Change) {
    Adjust(l, ch.pod, ch.adj, ch.annotation, ch.tileAnnotation, ch.node).Some?
  }

  function Booked(ch: Change): Booking { BookingOf(ch.pod, ch.node, ch.annotation, ch.tileAnnotation) }

  /** The adjustment that is made and not refused. */
  function MadeChange(l: Ledger, step: Step): Option<Change> {
    var ch := ChangeOf(l, step);
    if ch.Some? && Accepted(l, ch.value) then ch else None
  }

  function BooksAfter(books: map<string, Booking>, ch: Option<Change>): map<string, Booking> {
    match ch
    case None => books
    case Some(c) => if c.adj then books[Key(c.pod) := Booked(c)] else books - {Key(c.pod)}
  }

  function LeakedAfter(books: map<string, Booking>, leaked: seq<Booking>, ch: Option<Change>): seq<Booking> {
    match ch
    case None => leaked
    case Some(c) =>
      if !c.adj && Key(c.pod) in books && Booked(c) != books[Key(c.pod)] then leaked + [books[Key(c.pod)]] else leaked
  }

  function Next(s: System, step: Step): System {
    var ch := MadeChange(s.ledger, step);
    System(LedgerAfter(s.ledger, step), BooksAfter(s.books, ch), LeakedAfter(s.books, s.leaked, ch))
  }

  /** What the environment is relied on for: bind is for uncounted pods, a rollback or a completion of a counted
      pod carries the booking's own data (or names no node), a rollback of a pod that is not counted any more is
      refused or finds nothing to take, and a deletion carries nothing. */
  ghost predicate Faithful(s: System, step: Step) {
    match step
    case BindBook(pod, _, _, _) => Key(pod) !in s.books
    case BindRollback(pod, node, annotation, tileAnnotation) =>
      if Key(pod) in s.books then s.books[Key(pod)] == BookingOf(pod, node, annotation, tileAnnotation)
      else !Accepted(s.ledger, ChangeOf(s.ledger, step).value)
           || TakesNothing(s.ledger, BookingOf(pod, node, annotation, tileAnnotation))
    case Work(item) =>
      && (item.action.PodCompleted? && Key(item.pod) in s.books ==>
            || item.pod.nodeName == ""
            || s.books[Key(item.pod)] == BookingOf(item.pod, item.pod.nodeName, item.annotation, item.tileAnnotation))
      && (item.action.PodDeleted? ==> item.annotation == "" && item.tileAnnotation == "")
  }

  /** The informer's own events meet this, provided completed pods still carry the annotations they were booked
      with: nothing else is relied on. */
  lemma EventsAreFaithful(s: System, pod: Pod, item: WorkItem)
    requires AddEvent(pod) == Some(item) || UpdateEvent(pod) == Some(item) || DeleteEvent(s.ledger, pod) == Some(item)
    ensures Faithful(s, Work(item)) <==>
      (item.action.PodCompleted? && Key(pod) in s.books && pod.nodeName != "" ==>
         s.books[Key(pod)] == BookingOf(pod, pod.nodeName, pod.annotations[CARD_ANNOTATION], TileAnnotationOf(pod)))
  {
  }

  ghost predicate Accounted(s: System) {
    && s.books.Keys == s.ledger.annotated.Keys
    && AllShares(s.books)
    && (forall b :: b in s.leaked ==> SharesNonNegative(AllocsOf(b)))
    && (forall k :: k in s.books ==> AllPresent(NodeStatus(s.ledger, s.books[k].node), AllocsOf(s.books[k])))
    && Balanced(s)
  }

  ghost predicate Balanced(s: System) {
    forall n, c, k :: AmountAt(NodeStatus(s.ledger, n), c, k) == Total(s.books, n, c, k) + LeakedTotal(s.leaked, n, c, k)
  }

  lemma AccountedNonNegative(s: System, node: string)
    requires Accounted(s)
    ensures NodeNonNegative(NodeStatus(s.ledger, node))
  {
    forall c, k ensures AmountAt(NodeStatus(s.ledger, node), c, k) >= 0 {
      TotalNonNegative(s.books, node, c, k);
      LeakedNonNegative(s.leaked, node, c, k);
    }
    NonNegativeByAmounts(NodeStatus(s.ledger, node));
  }

  lemma PresentAfter(before: NodeResources, after: NodeResources, allocs: seq<Alloc>)
    requires AllPresent(before, allocs) && EntriesKept(before, after)
    ensures AllPresent(after, allocs)
  {
    forall a | a in allocs ensures Present(after, a.share, a.cards) {
      assert Present(before, a.share, a.cards);
    }
  }

  lemma EntriesKeptEverywhere(l: Ledger, ch: Change, node: string)
    requires Accepted(l, ch)
    requires var after := AdjustAllocs(NodeStatus(l, ch.node), AllocsOf(Booked(ch)), ch.adj);
             after.Some? && EntriesKept(NodeStatus(l, ch.node), after.value)
    ensures var l' := Adjust(l, ch.pod, ch.adj, ch.annotation, ch.tileAnnotation, ch.node).value;
            EntriesKept(NodeStatus(l, node), NodeStatus(l', node))
  {
    StatusAfter(l, ch.pod, ch.adj, ch.annotation, ch.tileAnnotation, ch.node);
    if node != ch.node {
      StatusElsewhere(l, ch.pod, ch.adj, ch.annotation, ch.tileAnnotation, ch.node, node);
    }
  }

  lemma BookedAmounts(l: Ledger, ch: Change, n: string, c: string, k: string)
    requires ch.adj && Accepted(l, ch)
    ensures var l' := Adjust(l, ch.pod, true, ch.annotation, ch.tileAnnotation, ch.node).value;
            AmountAt(NodeStatus(l', n), c, k) == AmountAt(NodeStatus(l, n), c, k) + UseOn(Booked(ch), n, c, k)
  {
    StatusAfter(l, ch.pod, true, ch.annotation, ch.tileAnnotation, ch.node);
    if n == ch.node {
      BookingIsExact(NodeStatus(l, ch.node), AllocsOf(Booked(ch)));
    } else {
      StatusElsewhere(l, ch.pod, true, ch.annotation, ch.tileAnnotation, ch.node, n);
    }
  }

  lemma BookKeepsPresence(s: System, ch: Change, k: string)
    requires Accounted(s) && ch.adj && Key(ch.pod) !in s.books && Accepted(s.ledger, ch)
    requires k in s.books || k == Key(ch.pod)
    ensures var l' := Adjust(s.ledger, ch.pod, true, ch.annotation, ch.tileAnnotation, ch.node).value;
            var b := if k == Key(ch.pod) then Booked(ch) else s.books[k];
            AllPresent(NodeStatus(l', b.node), AllocsOf(b)) && SharesNonNegative(AllocsOf(b))
  {
    StatusAfter(s.ledger, ch.pod, true, ch.annotation, ch.tileAnnotation, ch.node);
    BookingIsExact(NodeStatus(s.ledger, ch.node), AllocsOf(Booked(ch)));
    if k != Key(ch.pod) {
      var l' := Adjust(s.ledger, ch.pod, true, ch.annotation, ch.tileAnnotation, ch.node).value;
      EntriesKeptEverywhere(s.ledger, ch, s.books[k].node);
      PresentAfter(NodeStatus(s.ledger, s.books[k].node), NodeStatus(l', s.books[k].node), AllocsOf(s.books[k]));
    }
  }

  /** A booking of an uncounted pod keeps the accounts. */
  lemma BookKeepsAccounts(s: System, ch: Change)
    requires Accounted(s) && ch.adj && Key(ch.pod) !in s.books && Accepted(s.ledger, ch)
    ensures var l' := Adjust(s.ledger, ch.pod, true, ch.annotation, ch.tileAnnotation, ch.node).value;
            Accounted(System(l', s.books[Key(ch.pod) := Booked(ch)], s.leaked))
  {
    var l' := Adjust(s.ledger, ch.pod, true, ch.annotation, ch.tileAnnotation, ch.node).value;
    var b, key := Booked(ch), Key(ch.pod);
    var s' := System(l', s.books[key := b], s.leaked);
    assert Balanced(s') by {
      forall n, c, k
        ensures AmountAt(NodeStatus(l', n), c, k) == Total(s'.books, n, c, k) + LeakedTotal(s'.leaked, n, c, k)
      {
        TotalWith(s.books, key, b, n, c, k);
        BookedAmounts(s.ledger, ch, n, c, k);
        assert AmountAt(NodeStatus(s.ledger, n), c, k) == Total(s.books, n, c, k) + LeakedTotal(s.leaked, n, c, k);
      }
    }
    forall k | k in s'.books
      ensures AllPresent(NodeStatus(l', s'.books[k].node), AllocsOf(s'.books[k])) && SharesNonNegative(AllocsOf(s'.books[k]))
    {
      BookKeepsPresence(s, ch, k);
    }
  }

  /** Releasing a counted pod with the data it was booked with is never refused, never capped at zero,
      and takes exactly its own use away. */
  lemma ReleaseOfBooked(s: System, ch: Change)
    requires Accounted(s) && !ch.adj && Key(ch.pod) in s.books && s.books[Key(ch.pod)] == Booked(ch)
    requires !BadArgs(Requests(ch.pod), ch.node, Split(ch.annotation, '|'))
    ensures Accepted(s.ledger, ch)
    ensures var after := AdjustAllocs(NodeStatus(s.ledger, ch.node), AllocsOf(Booked(ch)), false);
            && after.Some? && EntriesKept(NodeStatus(s.ledger, ch.node), after.value)
            && forall c, k :: AmountAt(after.value, c, k)
                           == AmountAt(NodeStatus(s.ledger, ch.node), c, k) - Use(AllocsOf(Booked(ch)), c, k)
  {
    var node, b := NodeStatus(s.ledger, ch.node), Booked(ch);
    AccountedNonNegative(s, ch.node);
    forall c, k ensures Use(AllocsOf(b), c, k) <= AmountAt(node, c, k) {
      TotalWithout(s.books, Key(ch.pod), ch.node, c, k);
      TotalNonNegative(s.books - {Key(ch.pod)}, ch.node, c, k);
      LeakedNonNegative(s.leaked, ch.node, c, k);
    }
    ReleaseIsExact(node, AllocsOf(b));
  }

  lemma ReleaseKeepsAccounts(s: System, ch: Change)
    requires Accounted(s) && !ch.adj && Key(ch.pod) in s.books && s.books[Key(ch.pod)] == Booked(ch)
    requires Accepted(s.ledger, ch)
    ensures var l' := Adjust(s.ledger, ch.pod, false, ch.annotation, ch.tileAnnotation, ch.node).value;
            Accounted(System(l', s.books - {Key(ch.pod)}, s.leaked))
  {
    var l' := Adjust(s.ledger, ch.pod, false, ch.annotation, ch.tileAnnotation, ch.node).value;
    var key := Key(ch.pod);
    var s' := System(l', s.books - {key}, s.leaked);
    ReleaseOfBooked(s, ch);
    StatusAfter(s.ledger, ch.pod, false, ch.annotation, ch.tileAnnotation, ch.node);
    forall n, c, k
      ensures AmountAt(NodeStatus(l', n), c, k) == Total(s'.books, n, c, k) + LeakedTotal(s'.leaked, n, c, k)
    {
      TotalWithout(s.books, key, n, c, k);
      assert AmountAt(NodeStatus(s.ledger, n), c, k) == Total(s.books, n, c, k) + LeakedTotal(s.leaked, n, c, k);
      if n != ch.node {
        StatusElsewhere(s.ledger, ch.pod, false, ch.annotation, ch.tileAnnotation, ch.node, n);
      }
    }
    forall k | k in s'.books ensures AllPresent(NodeStatus(l', s'.books[k].node), AllocsOf(s'.books[k])) {
      EntriesKeptEverywhere(s.ledger, ch, s.books[k].node);
      PresentAfter(NodeStatus(s.ledger, s.books[k].node), NodeStatus(l', s.books[k].node), AllocsOf(s.books[k]));
    }
  }

  /** A delete event carries no annotation. It changes no amount and no tile; if the pod has exactly one
      container (and names a node) its entry is dropped all the same, otherwise it is refused. */
  lemma BareDeleteReleasesNothing(l: Ledger, pod: Pod)
    ensures Accepted(l, Change(pod, false, "", "", pod.nodeName)) <==> |pod.containers| == 1 && pod.nodeName != ""
    ensures var r := Adjust(l, pod, false, "", "", pod.nodeName);
            r.Some? ==>
              && r.value.annotated == l.annotated - {Key(pod)}
              && r.value.status == l.status
              && forall n :: TileStatus(r.value, n) == TileStatus(l, n)
  {
    assert Split("", '|') == [""];
    assert TileEntries("") == [] by {
      assert ContainerEntries("") == [] && AllEntries([]) == [];
      assert [""][..0] == [];
    }
    if |Requests(pod)| == 1 {
      NoCardsNoChange(NodeStatus(l, pod.nodeName), Requests(pod), [""], false);
    }
  }

  lemma BareDeleteKeepsAccounts(s: System, pod: Pod)
    requires Accounted(s) && Key(pod) in s.books
    requires Accepted(s.ledger, Change(pod, false, "", "", pod.nodeName))
    ensures var l' := Adjust(s.ledger, pod, false, "", "", pod.nodeName).value;
            Accounted(System(l', s.books - {Key(pod)}, s.leaked + [s.books[Key(pod)]]))
  {
    var l' := Adjust(s.ledger, pod, false, "", "", pod.nodeName).value;
    var key := Key(pod);
    var s' := System(l', s.books - {key}, s.leaked + [s.books[key]]);
    BareDeleteReleasesNothing(s.ledger, pod);
    forall n, c, k
      ensures AmountAt(NodeStatus(l', n), c, k) == Total(s'.books, n, c, k) + LeakedTotal(s'.leaked, n, c, k)
    {
      TotalWithout(s.books, key, n, c, k);
      assert s'.leaked[..|s'.leaked| - 1] == s.leaked;
      assert AmountAt(NodeStatus(s.ledger, n), c, k) == Total(s.books, n, c, k) + LeakedTotal(s.leaked, n, c, k);
    }
  }

  /** The node has nothing of what the booking uses. */
  ghost predicate TakesNothing(l: Ledger, b: Booking) {
    forall c, k :: Use(AllocsOf(b), c, k) > 0 ==> AmountAt(NodeStatus(l, b.node), c, k) == 0
  }

  /** The amount after a release: what was there, less the use, and never below zero. */
  ghost predicate ReleasedAt(l: Ledger, l': Ledger, b: Booking, n: string, c: string, k: string) {
    var was, use := AmountAt(NodeStatus(l, n), c, k), UseOn(b, n, c, k);
    use >= 0 && was >= 0 && AmountAt(NodeStatus(l', n), c, k) == Floored(was - use)
  }

  lemma ReleasedAmounts(l: Ledger, l': Ledger, ch: Change, n: string, c: string, k: string)
    requires !ch.adj && Adjust(l, ch.pod, false, ch.annotation, ch.tileAnnotation, ch.node) == Some(l')
    requires NodeNonNegative(NodeStatus(l, n)) && NodeNonNegative(NodeStatus(l, ch.node))
    ensures ReleasedAt(l, l', Booked(ch), n, c, k)
  {
    StatusAfter(l, ch.pod, false, ch.annotation, ch.tileAnnotation, ch.node);
    ReleaseIsCapped(NodeStatus(l, ch.node), AllocsOf(Booked(ch)));
    UseNonNegative(AllocsOf(Booked(ch)), c, k);
    AmountsNonNegative(NodeStatus(l, n), c, k);
    if n != ch.node {
      StatusElsewhere(l, ch.pod, false, ch.annotation, ch.tileAnnotation, ch.node, n);
    }
  }

  lemma TakesNothingKeepsAmounts(l: Ledger, l': Ledger, b: Booking)
    requires forall n, c, k :: ReleasedAt(l, l', b, n, c, k)
    ensures SameAmounts(l, l') <==> TakesNothing(l, b)
  {
    forall n, c, k
      ensures AmountAt(NodeStatus(l', n), c, k) == AmountAt(NodeStatus(l, n), c, k)
        <==> (UseOn(b, n, c, k) > 0 ==> AmountAt(NodeStatus(l, n), c, k) == 0)
    {
      assert ReleasedAt(l, l', b, n, c, k);
    }
    if SameAmounts(l, l') {
      forall c, k | Use(AllocsOf(b), c, k) > 0 ensures AmountAt(NodeStatus(l, b.node), c, k) == 0 {
        assert UseOn(b, b.node, c, k) > 0;
      }
    }
  }

  /** Nothing guards the release of a pod that is not counted. When it is accepted, the accounts still agree
      exactly when the node has nothing of what it would take away; otherwise other pods' use is taken. */
  lemma ReleasingUncounted(s: System, ch: Change)
    requires Accounted(s) && !ch.adj && Key(ch.pod) !in s.books && Accepted(s.ledger, ch)
    ensures var l' := Adjust(s.ledger, ch.pod, false, ch.annotation, ch.tileAnnotation, ch.node).value;
            Balanced(System(l', s.books, s.leaked)) <==> TakesNothing(s.ledger, Booked(ch))
  {
    var l' := Adjust(s.ledger, ch.pod, false, ch.annotation, ch.tileAnnotation, ch.node).value;
    forall n, c, k ensures ReleasedAt(s.ledger, l', Booked(ch), n, c, k) {
      AccountedNonNegative(s, n);
      AccountedNonNegative(s, ch.node);
      ReleasedAmounts(s.ledger, l', ch, n, c, k);
    }
    TakesNothingKeepsAmounts(s.ledger, l', Booked(ch));
    SameAmountsSameBalance(s, l');
  }

  ghost predicate SameAmounts(before: Ledger, after: Ledger) {
    forall n, c, k :: AmountAt(NodeStatus(after, n), c, k) == AmountAt(NodeStatus(before, n), c, k)
  }

  lemma SameAmountsSameBalance(s: System, after: Ledger)
    requires Balanced(s)
    ensures Balanced(System(after, s.books, s.leaked)) <==> SameAmounts(s.ledger, after)
  {
    forall n, c, k
      ensures AmountAt(NodeStatus(s.ledger, n), c, k) == Total(s.books, n, c, k) + LeakedTotal(s.leaked, n, c, k)
    {
    }
    if Balanced(System(after, s.books, s.leaked)) {
      forall n, c, k ensures AmountAt(NodeStatus(after, n), c, k) == AmountAt(NodeStatus(s.ledger, n), c, k) {
        assert AmountAt(NodeStatus(after, n), c, k) == Total(s.books, n, c, k) + LeakedTotal(s.leaked, n, c, k);
      }
    }
  }

  lemma ReleasingUncountedKeepsAccounts(s: System, ch: Change)
    requires Accounted(s) && !ch.adj && Key(ch.pod) !in s.books && Accepted(s.ledger, ch)
    requires TakesNothing(s.ledger, Booked(ch))
    ensures var l' := Adjust(s.ledger, ch.pod, false, ch.annotation, ch.tileAnnotation, ch.node).value;
            Accounted(System(l', s.books - {Key(ch.pod)}, s.leaked))
  {
    var l' := Adjust(s.ledger, ch.pod, false, ch.annotation, ch.tileAnnotation, ch.node).value;
    ReleasingUncounted(s, ch);
    assert s.books - {Key(ch.pod)} == s.books;
    AccountedNonNegative(s, ch.node);
    ReleaseIsCapped(NodeStatus(s.ledger, ch.node), AllocsOf(Booked(ch)));
    forall k | k in s.books ensures AllPresent(NodeStatus(l', s.books[k].node), AllocsOf(s.books[k])) {
      EntriesKeptEverywhere(s.ledger, ch, s.books[k].node);
      PresentAfter(NodeStatus(s.ledger, s.books[k].node), NodeStatus(l', s.books[k].node), AllocsOf(s.books[k]));
    }
  }

  lemma StepKeepsAccounts(s: System, step: Step)
    requires Accounted(s) && Faithful(s, step)
    ensures Accounted(Next(s, step))
  {
    var ch := ChangeOf(s.ledger, step);
    if ch.Some? && Accepted(s.ledger, ch.value) {
      var c := ch.value;
      if c.adj {
        BookKeepsAccounts(s, c);
      } else if Key(c.pod) !in s.books {
        ReleasingUncountedKeepsAccounts(s, c);
      } else if s.books[Key(c.pod)] == Booked(c) {
        ReleaseKeepsAccounts(s, c);
      } else {
        BareDeleteKeepsAccounts(s, c.pod);
      }
    }
  }

  // ---- whole runs ----

  function After(s: System, steps: seq<Step>): System {
    if steps == [] then s else Next(After(s, steps[..|steps| - 1]), steps[|steps| - 1])
  }

  ghost predicate FaithfulRun(s: System, steps: seq<Step>) {
    steps == [] || (FaithfulRun(s, steps[..|steps| - 1]) && Faithful(After(s, steps[..|steps| - 1]), steps[|steps| - 1]))
  }

  /** In every state of every faithful run the ledger is the sum of the counted pods' bookings and of
      the bookings that bare deletes dropped. */
  lemma {:induction false} RunKeepsAccounts(s: System, steps: seq<Step>)
    requires Accounted(s) && FaithfulRun(s, steps)
    ensures Accounted(After(s, steps))
  {
    if steps != [] {
      RunKeepsAccounts(s, steps[..|steps| - 1]);
      StepKeepsAccounts(After(s, steps[..|steps| - 1]), steps[|steps| - 1]);
    }
  }

  lemma InitAccounted()
    ensures Accounted(INIT)
  {
  }

  /** A bare delete of a counted one-container pod that was booked with anything. */
  predicate DropsCounted(s: System, step: Step) {
    && step.Work? && step.item.action.PodDeleted?
    && var pod := step.item.pod;
       && Key(pod) in s.books && |pod.containers| == 1 && pod.nodeName != ""
       && s.books[Key(pod)] != BookingOf(pod, pod.nodeName, "", "")
  }

  /** A booking is leaked by exactly those steps. */
  lemma LeaksExactlyOnBareDelete(s: System, step: Step)
    requires Accounted(s) && Faithful(s, step)
    ensures Next(s, step).leaked != s.leaked <==> DropsCounted(s, step)
  {
    if step.Work? && step.item.action.PodDeleted? {
      BareDeleteReleasesNothing(s.ledger, step.item.pod);
    }
  }

  predicate NeverDrops(s: System, steps: seq<Step>) {
    steps == [] || (NeverDrops(s, steps[..|steps| - 1]) && !DropsCounted(After(s, steps[..|steps| - 1]), steps[|steps| - 1]))
  }

  /** Without such a step, every amount in the ledger is exactly what the pods in annotatedPods were booked with. */
  lemma {:induction false} LedgerIsTheSum(steps: seq<Step>)
    requires FaithfulRun(INIT, steps) && NeverDrops(INIT, steps)
    ensures var s := After(INIT, steps);
            && s.leaked == [] && s.books.Keys == s.ledger.annotated.Keys
            && forall n, c, k :: AmountAt(NodeStatus(s.ledger, n), c, k) == Total(s.books, n, c, k)
  {
    InitAccounted();
    RunKeepsAccounts(INIT, steps);
    if steps != [] {
      var front := steps[..|steps| - 1];
      LedgerIsTheSum(front);
      RunKeepsAccounts(INIT, front);
      LeaksExactlyOnBareDelete(After(INIT, front), steps[|steps| - 1]);
    }
  }

  ghost predicate UsesNothing(b: Booking) {
    forall c, k :: Use(AllocsOf(b), c, k) == 0
  }

  lemma RebookedAmounts(s: System, ch: Change, n: string, c: string, k: string)
    requires Accounted(s) && ch.adj && Key(ch.pod) in s.books && Accepted(s.ledger, ch)
    ensures var l' := Adjust(s.ledger, ch.pod, true, ch.annotation, ch.tileAnnotation, ch.node).value;
            AmountAt(NodeStatus(l', n), c, k)
            == Total(s.books[Key(ch.pod) := Booked(ch)], n, c, k) + LeakedTotal(s.leaked, n, c, k)
               + UseOn(s.books[Key(ch.pod)], n, c, k)
  {
    var key := Key(ch.pod);
    var rest := s.books - {key};
    TotalWithout(s.books, key, n, c, k);
    TotalWith(rest, key, Booked(ch), n, c, k);
    assert s.books[key := Booked(ch)] == rest[key := Booked(ch)];
    BookedAmounts(s.ledger, ch, n, c, k);
    assert AmountAt(NodeStatus(s.ledger, n), c, k) == Total(s.books, n, c, k) + LeakedTotal(s.leaked, n, c, k);
  }

  /** Booking an already counted pod again succeeds silently; the accounts then agree exactly when the
      booking that is overwritten used nothing. */
  lemma RebookingDoubleCounts(s: System, ch: Change)
    requires Accounted(s) && ch.adj && Key(ch.pod) in s.books && Accepted(s.ledger, ch)
    ensures var l' := Adjust(s.ledger, ch.pod, true, ch.annotation, ch.tileAnnotation, ch.node).value;
            Balanced(System(l', s.books[Key(ch.pod) := Booked(ch)], s.leaked))
            <==> UsesNothing(s.books[Key(ch.pod)])
  {
    var l' := Adjust(s.ledger, ch.pod, true, ch.annotation, ch.tileAnnotation, ch.node).value;
    var was := s.books[Key(ch.pod)];
    var s' := System(l', s.books[Key(ch.pod) := Booked(ch)], s.leaked);
    forall n, c, k
      ensures AmountAt(NodeStatus(l', n), c, k)
           == Total(s'.books, n, c, k) + LeakedTotal(s.leaked, n, c, k) + UseOn(was, n, c, k)
    {
      RebookedAmounts(s, ch, n, c, k);
    }
    if UsesNothing(was) {
      forall n, c, k
        ensures AmountAt(NodeStatus(s'.ledger, n), c, k) == Total(s'.books, n, c, k) + LeakedTotal(s'.leaked, n, c, k)
      {
        assert Use(AllocsOf(was), c, k) == 0;
      }
    }
    if Balanced(s') {
      forall c, k ensures Use(AllocsOf(was), c, k) == 0 {
        assert AmountAt(NodeStatus(l', was.node), c, k) == Total(s'.books, was.node, c, k) + LeakedTotal(s.leaked, was.node, c, k);
      }
    }
  }
}
