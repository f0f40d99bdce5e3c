/** The life of a pod in the ledger: what the informer's events do to it, that a completed pod gives back what it was
    booked with, and that the ledger is empty again once every counted pod has completed. */
module Lifecycle {
  import opened Text
  import opened ResourceArithmetic
  import opened Allocations
  import opened Annotations
  import opened NodeResourceCache
  import opened Accounting

  // ---- what each event comes to ----

  function AnnotationOf(pod: Pod, name: string): string { if name in pod.annotations then pod.annotations[name] else "" }

  /** The ledger after an adjustment, or as it was when that is refused. */
  function AdjustedOr(l: Ledger, pod: Pod, adj: bool, annotation: string, tileAnnotation: string): Ledger {
    var after := Adjust(l, pod, adj, annotation, tileAnnotation, pod.nodeName);
    if after.Some? then after.value else l
  }

  function HandledEvent(l: Ledger, item: Option<WorkItem>): Ledger { if item.Some? then Handled(l, item.value) else l }

  /** What the events of the informer come to. A pod without card annotation is ignored until it is deleted; otherwise an
      added or updated pod is booked with its annotations unless it is counted, an updated pod that has completed is
      released with them if it is counted, and a deleted one is released with no annotation at all if it is counted. */
  lemma EventsHandled(l: Ledger, pod: Pod)
    ensures var cards, tiles := AnnotationOf(pod, "gas-container-cards"), AnnotationOf(pod, "gas-container-tiles");
      var annotated, counted := "gas-container-cards" in pod.annotations, Key(pod) in l.annotated;
      && HandledEvent(l, AddEvent(pod)) == (if annotated && !counted then AdjustedOr(l, pod, true, cards, tiles) else l)
      && HandledEvent(l, UpdateEvent(pod))
         == (if !annotated || pod.completed != counted then l else AdjustedOr(l, pod, !pod.completed, cards, tiles))
      && HandledEvent(l, DeleteEvent(l, pod)) == (if counted then AdjustedOr(l, pod, false, "", "") else l)
  {
    if "gas-container-cards" in pod.annotations {
      ItemHandled(l, AddEvent(pod).value);
      ItemHandled(l, UpdateEvent(pod).value);
    }
    if Key(pod) in l.annotated {
      ItemHandled(l, DeleteEvent(l, pod).value);
    }
  }

  lemma ItemHandled(l: Ledger, item: WorkItem)
    requires !item.action.OtherAction?
    ensures var books := item.action.PodAdded? || item.action.PodUpdated?;
      Handled(l, item) == if books == (Key(item.pod) in l.annotated) then l
                          else AdjustedOr(l, item.pod, books, item.annotation, item.tileAnnotation)
  {
  }

  // ---- bookings can be released ----

  /** Every booking names a node and has one part of its annotation for each container. */
  ghost predicate Releasable(s: System) {
    forall k :: k in s.books ==> !BadArgs(s.books[k].requests, s.books[k].node, Split(s.books[k].annotation, '|'))
  }

  lemma StepKeepsReleasable(s: System, step: Step)
    requires Releasable(s)
    ensures Releasable(Next(s, step))
  {
  }

  lemma {:induction false} RunKeepsReleasable(s: System, steps: seq<Step>)
    requires Releasable(s)
    ensures Releasable(After(s, steps))
  {
    if steps != [] {
      RunKeepsReleasable(s, steps[..|steps| - 1]);
      StepKeepsReleasable(After(s, steps[..|steps| - 1]), steps[|steps| - 1]);
    }
  }

  // ---- completion ----

  /** The item reports the completion of a pod with the data it was booked with, if it is counted. */
  ghost predicate Completes(s: System, item: WorkItem) {
    && item.action.PodCompleted?
    && (Key(item.pod) in s.books ==>
          s.books[Key(item.pod)] == BookingOf(item.pod, item.pod.nodeName, item.annotation, item.tileAnnotation))
  }

  /** A step that releases a counted pod with its own booking is accepted, keeps the accounts and leaks nothing. */
  lemma ReleaseForgets(s: System, step: Step, ch: Change)
    requires Accounted(s) && Releasable(s) && ChangeOf(s.ledger, step) == Some(ch)
    requires !ch.adj && Key(ch.pod) in s.books && s.books[Key(ch.pod)] == Booked(ch)
    ensures var next := Next(s, step);
      Accounted(next) && next.books == s.books - {Key(ch.pod)} && next.leaked == s.leaked
  {
    ReleaseOfBooked(s, ch);
    ReleaseKeepsAccounts(s, ch);
  }

  /** And every amount is lower by exactly what the pod was booked with. */
  lemma ReleaseGivesBack(s: System, step: Step, ch: Change, n: string, c: string, k: string)
    requires Accounted(s) && Releasable(s) && ChangeOf(s.ledger, step) == Some(ch)
    requires !ch.adj && Key(ch.pod) in s.books && s.books[Key(ch.pod)] == Booked(ch)
    ensures AmountAt(NodeStatus(Next(s, step).ledger, n), c, k)
         == AmountAt(NodeStatus(s.ledger, n), c, k) - UseOn(s.books[Key(ch.pod)], n, c, k)
  {
    ReleaseForgets(s, step, ch);
    Released(s, Next(s, step), Key(ch.pod), n, c, k);
  }

  function ReleaseOf(item: WorkItem): Change {
    Change(item.pod, false, item.annotation, item.tileAnnotation, item.pod.nodeName)
  }

  lemma CompletionForgets(s: System, item: WorkItem)
    requires Accounted(s) && Releasable(s) && Completes(s, item)
    ensures var next := Next(s, Work(item));
      Accounted(next) && Releasable(next) && next.books == s.books - {Key(item.pod)} && next.leaked == s.leaked
  {
    StepKeepsReleasable(s, Work(item));
    if Key(item.pod) in s.books {
      ReleaseForgets(s, Work(item), ReleaseOf(item));
    } else {
      assert s.books - {Key(item.pod)} == s.books;
    }
  }

  /** A completed pod is not counted any more, and every amount is lower by exactly what it was booked with; nothing is
      leaked. A completion of a pod that is not counted changes nothing. */
  lemma CompletionReleases(s: System, item: WorkItem)
    requires Accounted(s) && Releasable(s) && Completes(s, item)
    ensures var key, next := Key(item.pod), Next(s, Work(item));
      && Accounted(next) && Releasable(next)
      && next.books == s.books - {key} && key !in next.ledger.annotated && next.leaked == s.leaked
      && forall n, c, k ::
           AmountAt(NodeStatus(next.ledger, n), c, k)
           == AmountAt(NodeStatus(s.ledger, n), c, k) - if key in s.books then UseOn(s.books[key], n, c, k) else 0
  {
    CompletionForgets(s, item);
    if Key(item.pod) in s.books {
      forall n, c, k {
        ReleaseGivesBack(s, Work(item), ReleaseOf(item), n, c, k);
      }
    }
  }

  lemma Released(s: System, next: System, key: string, n: string, c: string, k: string)
    requires Balanced(s) && Balanced(next) && key in s.books
    requires next.books == s.books - {key} && next.leaked == s.leaked
    ensures AmountAt(NodeStatus(next.ledger, n), c, k)
         == AmountAt(NodeStatus(s.ledger, n), c, k) - UseOn(s.books[key], n, c, k)
  {
    TotalWithout(s.books, key, n, c, k);
    assert AmountAt(NodeStatus(s.ledger, n), c, k) == Total(s.books, n, c, k) + LeakedTotal(s.leaked, n, c, k);
    assert AmountAt(NodeStatus(next.ledger, n), c, k) == Total(next.books, n, c, k) + LeakedTotal(next.leaked, n, c, k);
  }

  function Works(items: seq<WorkItem>): (steps: seq<Step>)
    ensures |steps| == |items|
  {
    seq(|items|, i requires 0 <= i < |items| => Work(items[i]))
  }

  ghost function KeysOf(items: seq<WorkItem>): set<string> { set item | item in items :: Key(item.pod) }

  /** The items' pods are out of the books, the others are as they were. */
  ghost predicate CompletedTo(s: System, items: seq<WorkItem>, now: System) {
    Accounted(now) && Releasable(now) && now.books == s.books - KeysOf(items) && now.leaked == s.leaked
  }

  /** Completions, in any order and any of them repeated, take exactly their pods out of the books. */
  lemma {:induction false} CompletionsRelease(s: System, items: seq<WorkItem>)
    requires Accounted(s) && Releasable(s) && forall item :: item in items ==> Completes(s, item)
    ensures CompletedTo(s, items, After(s, Works(items)))
  {
    if items == [] {
      assert s.books - {} == s.books;
    } else {
      var n := |items| - 1;
      CompletionsRelease(s, items[..n]);
      assert items[n] in items;
      OneMoreCompleted(s, items, After(s, Works(items[..n])));
      OneMoreWork(s, items);
    }
  }

  lemma OneMoreWork(s: System, items: seq<WorkItem>)
    requires items != []
    ensures var n := |items| - 1; After(s, Works(items)) == Next(After(s, Works(items[..n])), Work(items[n]))
  {
    assert Works(items)[..|items| - 1] == Works(items[..|items| - 1]);
  }

  lemma OneMoreCompleted(s: System, items: seq<WorkItem>, now: System)
    requires items != [] && Completes(s, items[|items| - 1]) && CompletedTo(s, items[..|items| - 1], now)
    ensures CompletedTo(s, items, Next(now, Work(items[|items| - 1])))
  {
    var last := items[|items| - 1];
    assert Completes(now, last);
    CompletionForgets(now, last);
    OneKeyMore(items, s.books);
  }

  lemma OneKeyMore(items: seq<WorkItem>, books: map<string, Booking>)
    requires items != []
    ensures var n := |items| - 1;
      books - KeysOf(items[..n]) - {Key(items[n].pod)} == books - KeysOf(items)
  {
    var front, last := items[..|items| - 1], items[|items| - 1];
    assert items == front + [last];
    assert KeysOf(items) == KeysOf(front) + {Key(last.pod)};
  }

  /** After any run, when every pod still counted has completed with its own data, no pod is counted, and all that is
      left of every amount is what bare deletes leaked: nothing, if none dropped a counted pod. */
  lemma AllCompleted(steps: seq<Step>, items: seq<WorkItem>)
    requires FaithfulRun(INIT, steps)
    requires forall item :: item in items ==> Completes(After(INIT, steps), item)
    requires After(INIT, steps).books.Keys <= KeysOf(items)
    ensures var s, end := After(INIT, steps), After(After(INIT, steps), Works(items));
      && end.books == map[] && end.ledger.annotated == map[] && end.leaked == s.leaked
      && (forall n, c, k :: AmountAt(NodeStatus(end.ledger, n), c, k) == LeakedTotal(s.leaked, n, c, k))
      && (NeverDrops(INIT, steps) ==> forall n, c, k :: AmountAt(NodeStatus(end.ledger, n), c, k) == 0)
  {
    var s, end := After(INIT, steps), After(After(INIT, steps), Works(items));
    InitAccounted();
    RunKeepsAccounts(INIT, steps);
    RunKeepsReleasable(INIT, steps);
    CompletionsRelease(s, items);
    assert end.books == map[];
    assert end.ledger.annotated.Keys == {};
    forall n, c, k ensures AmountAt(NodeStatus(end.ledger, n), c, k) == LeakedTotal(s.leaked, n, c, k) {
      assert Total(end.books, n, c, k) == 0;
    }
    if NeverDrops(INIT, steps) {
      LedgerIsTheSum(steps);
    }
  }
}
