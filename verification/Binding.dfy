/** bindNode against a ledger that other workers keep changing: the check reads a copy, the booking comes
    later under another lock, and a failure afterwards is rolled back. */
module Binding {
  import opened Text
  import opened ResourceArithmetic
  import opened Allocations
  import opened Annotations
  import opened Placement
  import opened TilePlacement
  import opened FirstFit
  import opened PodPlans
  import opened XeSearch
  import opened Leftovers
  import opened NodeResourceCache
  import opened Accounting
  import opened Lifecycle
  import opened Rollbacks
  import opened Scheduler

  // ---- bindNode without interference ----

  /** What the pod's annotations and the node's labels ask of the planner. */
  datatype Wishes = Wishes(sameGpu: set<int>, gpuMaps: seq<set<string>>, xeLinked: bool)

  ghost predicate WellFormed(node: NodeInfo, pod: Pod, w: Wishes) {
    && (forall c :: c in node.disabled ==> |node.disabled[c]| <= MAX_INT64)
    && (w.xeLinked ==> NoSelfLinks(node) && w.sameGpu == {} && OneTileRequests(Requests(pod)))
    && w.gpuMaps != [] && (forall m, c :: m in w.gpuMaps && c in m ==> CleanName(c))
    && forall i :: i in w.sameGpu ==> 0 <= i < |pod.containers|
  }

  /** The copy that planning starts with when nothing interferes. */
  ghost function CopyOf(l: Ledger, node: NodeInfo): NodeResources
    requires forall c :: c in node.disabled ==> |node.disabled[c]| <= MAX_INT64
  {
    StartingCopy(node, NodeStatus(l, node.name), TileStatus(l, node.name))
  }

  /** Where first fit puts the pod. */
  ghost function FirstFitOf(l: Ledger, pod: Pod, node: NodeInfo, w: Wishes, balanced: string): PodPlaced
    requires WellFormed(node, pod, w)
  {
    PlacePod(node, balanced, CopyOf(l, node), Requests(pod), w.sameGpu, w.gpuMaps)
  }

  /** With Xe links, what the search for linked cards may come to when nothing interferes. */
  ghost predicate XeOutcomeOf(l: Ledger, pod: Pod, node: NodeInfo, w: Wishes, plan: Option<seq<seq<Card>>>)
    requires WellFormed(node, pod, w)
  {
    exists after :: XePod(node, XeState(CopyOf(l, node), map[]), Requests(pod), w.gpuMaps, {TileStatus(l, node.name)}, plan, after)
  }

  lemma XeOutcomeIs(m: Extender, l: Ledger, pod: Pod, node: NodeInfo, w: Wishes, plan: Option<seq<seq<Card>>>)
    requires WellFormed(node, pod, w) && m.node == node && forall i: nat :: m.statusRead(i) == TileStatus(l, node.name)
    requires m.XePlanSince(NodeStatus(l, node.name), 0, Requests(pod), w.gpuMaps, plan)
    ensures XeOutcomeOf(l, pod, node, w, plan)
  {
    var to :| m.XePlanOf(NodeStatus(l, node.name), 0, to, Requests(pod), w.gpuMaps, plan);
    var s := XeState(CopyOf(l, node), map[]);
    var after :| XePod(node, s, Requests(pod), w.gpuMaps, m.Seen(0, to), plan, after);
    PodSeesMore(node, s, Requests(pod), w.gpuMaps, m.Seen(0, to), {TileStatus(l, node.name)}, plan, after);
  }

  /** The plan's use is the same whether taken from the copy or from the ledger. */
  ghost predicate GrowAlike(copy: NodeResources, end: NodeResources, before: NodeResources, after: NodeResources) {
    forall c, k :: AmountAt(after, c, k) - AmountAt(before, c, k) == AmountAt(end, c, k) - AmountAt(copy, c, k)
  }

  /** The outcomes of the calls to the API server are parameters. Without Xe links the pod is refused for lack of
      space exactly when first fit does not place it, and is bound to the cards where first fit puts it; with Xe links
      plan and refusal are outcomes of the search for linked cards. Without Xe links the ledger then grows as the
      planner's copy did exactly when no failed group has left anything in it. The booked tiles are the ones chosen for
      the plan. A failed bind leaves every amount as it was. */
  method BindNode(cache: Cache, pod: Pod, node: NodeInfo, w: Wishes, balanced: string, annotated: bool, bound: bool)
    returns (ok: bool, err: Option<Error>, ghost annotation: string, ghost tileAnnotation: string,
             ghost plan: seq<seq<Card>>, ghost end: NodeResources)
    requires WellFormed(node, pod, w)
    requires NodeNonNegative(NodeStatus(cache.State(), node.name))
    modifies cache
    ensures !w.xeLinked ==>
      (err == Some(ErrWontFit) <==> node.cards == [] || !FirstFitOf(old(cache.State()), pod, node, w, balanced).ok)
    ensures w.xeLinked && node.cards == [] ==> err == Some(ErrWontFit)
    ensures w.xeLinked && node.cards != [] ==>
      XeOutcomeOf(old(cache.State()), pod, node, w, if err == Some(ErrWontFit) then None else Some(plan))
    ensures ok ==> Some(cache.State()) == Adjust(old(cache.State()), pod, true, annotation, tileAnnotation, node.name)
    ensures ok ==> annotation != "" && annotation == Join(CardTexts(plan), '|') && CleanPlan(plan)
    ensures ok && !w.xeLinked ==> RealizesPod(Some(plan), end, FirstFitOf(old(cache.State()), pod, node, w, balanced))
    ensures ok && |w.gpuMaps| == 1 && OnePluginType(Requests(pod), w.sameGpu) ==>
      GrowAlike(CopyOf(old(cache.State()), node), end,
                NodeStatus(old(cache.State()), node.name), NodeStatus(cache.State(), node.name))
    ensures ok && !w.xeLinked ==>
      (GrowAlike(CopyOf(old(cache.State()), node), end,
                 NodeStatus(old(cache.State()), node.name), NodeStatus(cache.State(), node.name))
       <==> Clean(node, balanced, CopyOf(old(cache.State()), node), Requests(pod), w.sameGpu, w.gpuMaps))
    ensures ok && Plannable(old(cache.State()), pod, node) ==>
      exists choice :: OutcomeOf(node, TileStatus(old(cache.State()), node.name), NodeStatus(old(cache.State()), node.name),
                                 Requests(pod), annotation, tileAnnotation, plan, choice)
    ensures ok ==> annotated && bound && err.None?
    ensures !ok ==> SameAmounts(old(cache.State()), cache.State())
    ensures !ok && annotated && bound && Plannable(old(cache.State()), pod, node) && err.None? ==> annotation == ""
    ensures !ok && annotated && bound && Plannable(old(cache.State()), pod, node) ==> err == Some(ErrWontFit) || err == None
  {
    err := None;
    ghost var l := cache.State();
    var resources := cache.GetNodeResourceStatus(node.name);
    var status := cache.GetNodeTileStatus(node.name);
    var m := new Extender(node, balanced, (i: nat) => status, resources, status, status);
    var fits, cards, tiles;
    fits, cards, tiles, plan := m.PlanAndPrint(Requests(pod), w.sameGpu, w.gpuMaps, w.xeLinked);
    annotation, tileAnnotation, end := cards, tiles, m.used;
    if w.xeLinked && node.cards != [] {
      XeOutcomeIs(m, l, pod, node, w, if fits then Some(plan) else None);
    }
    if !fits {
      return false, Some(ErrWontFit), annotation, tileAnnotation, plan, end;
    }
    if cards == "" {
      return false, None, annotation, tileAnnotation, plan, end;
    }
    if Plannable(cache.State(), pod, node) {
      PlanIsNotRefused(cache.State(), pod, node, annotation, tileAnnotation);
    }
    ok, err := BookAndBind(cache, pod, node.name, cards, tiles, annotated, bound);
    if ok {
      if !w.xeLinked {
        GrowsExactly(node, balanced, CopyOf(l, node), Requests(pod), w.sameGpu, w.gpuMaps);
        PlannedIsNamed(Requests(pod), plan);
      }
      PlanningEqualsBooking(l, Change(pod, true, annotation, tileAnnotation, node.name), plan, CopyOf(l, node), end);
    }
  }

  /** The rest of bindNode: book, annotate, bind, and roll back if one of the last two fails. */
  method BookAndBind(cache: Cache, pod: Pod, nodeName: string, annotation: string, tileAnnotation: string,
                     annotated: bool, bound: bool)
    returns (ok: bool, err: Option<Error>)
    requires NodeNonNegative(NodeStatus(cache.State(), nodeName))
    modifies cache
    ensures ok <==> annotated && bound
                    && Adjust(old(cache.State()), pod, true, annotation, tileAnnotation, nodeName).Some?
    ensures ok ==> Some(cache.State()) == Adjust(old(cache.State()), pod, true, annotation, tileAnnotation, nodeName)
    ensures ok ==> err.None?
    ensures !ok ==> SameAmounts(old(cache.State()), cache.State())
    ensures err != Some(ErrWontFit)
  {
    ghost var l := cache.State();
    err := cache.AdjustPodResources(pod, true, annotation, tileAnnotation, nodeName);
    if err.Some? {
      return false, err;
    }
    if !annotated || !bound {
      RollbackRestores(l, Change(pod, true, annotation, tileAnnotation, nodeName));
      var _ := cache.AdjustPodResources(pod, false, annotation, tileAnnotation, nodeName);
      return false, Some(ErrApi);
    }
    ok := true;
  }

  /** Booking adds to the ledger exactly what was planned; so it adds what the planner added to its copy if and only
      if that was exact. */
  lemma PlanningEqualsBooking(l: Ledger, ch: Change, plan: seq<seq<Card>>, start: NodeResources, end: NodeResources)
    requires ch.adj && Accepted(l, ch)
    requires CleanPlan(plan) && |plan| == |Requests(ch.pod)| && ch.annotation == Join(CardTexts(plan), '|')
    ensures var l' := Adjust(l, ch.pod, true, ch.annotation, ch.tileAnnotation, ch.node).value;
            && Grows(NodeStatus(l, ch.node), NodeStatus(l', ch.node), PlannedAllocs(Requests(ch.pod), plan))
            && (GrowAlike(start, end, NodeStatus(l, ch.node), NodeStatus(l', ch.node))
                <==> Grows(start, end, PlannedAllocs(Requests(ch.pod), plan)))
  {
    assert plan != [] by {
      assert Split(ch.annotation, '|') != [];
    }
    BookingReadsThePlan(Requests(ch.pod), plan);
    var l' := Adjust(l, ch.pod, true, ch.annotation, ch.tileAnnotation, ch.node).value;
    forall c, k
      ensures AmountAt(NodeStatus(l', ch.node), c, k)
           == AmountAt(NodeStatus(l, ch.node), c, k) + Use(PlannedAllocs(Requests(ch.pod), plan), c, k)
    {
      BookedAmounts(l, ch, ch.node, c, k);
    }
    AlikeIfGrows(start, end, NodeStatus(l, ch.node), NodeStatus(l', ch.node), PlannedAllocs(Requests(ch.pod), plan));
  }

  lemma AlikeIfGrows(start: NodeResources, end: NodeResources, before: NodeResources, after: NodeResources,
                     allocs: seq<Alloc>)
    requires Grows(before, after, allocs)
    ensures GrowAlike(start, end, before, after) <==> Grows(start, end, allocs)
  {
    forall c, k ensures AmountAt(after, c, k) - AmountAt(before, c, k) == Use(allocs, c, k) {
    }
  }

  /** What a bind finds in every steady state: the tiles in use are those counted. */
  ghost predicate Plannable(l: Ledger, pod: Pod, node: NodeInfo) {
    node.name != "" && pod.containers != [] && CountedTiles(node, TileStatus(l, node.name), NodeStatus(l, node.name))
  }

  /** Booking a plan that fits is never refused. */
  lemma PlanIsNotRefused(l: Ledger, pod: Pod, node: NodeInfo, annotation: string, tileAnnotation: string)
    requires node.name != "" && NodeNonNegative(NodeStatus(l, node.name))
    requires PlanOutcome(node, TileStatus(l, node.name), NodeStatus(l, node.name), Requests(pod), annotation, tileAnnotation)
    ensures Adjust(l, pod, true, annotation, tileAnnotation, node.name).Some?
  {
    var status, requests := NodeStatus(l, node.name), Requests(pod);
    var plan, choice :| OutcomeOf(node, TileStatus(l, node.name), status, requests, annotation, tileAnnotation, plan, choice);
    BookingReadsThePlan(requests, plan);
    FittingBookingSucceeds(status, PlannedAllocs(requests, plan), PerGpuCapacity(node));
  }

  lemma FittingBookingSucceeds(status: NodeResources, allocs: seq<Alloc>, capacity: Resources)
    requires NodeNonNegative(status) && SharesNonNegative(allocs) && Fitting(capacity, status, allocs)
    ensures AdjustAllocs(status, allocs, true).Some?
  {
    forall c, k ensures AmountAt(status, c, k) + Use(allocs, c, k) <= MAX_INT64 {
      UseNonNegative(allocs, c, k);
    }
    BookingSucceedsExactly(status, allocs);
  }

  // ---- bindNode among other steps ----

  datatype Phase =
    | Idle
    | Started(pod: Pod, node: NodeInfo, begin: Ledger)
    | Decided(pod: Pod, node: NodeInfo, annotation: string, tileAnnotation: string)
    | Counted(pod: Pod, node: NodeInfo, annotation: string, tileAnnotation: string)
    | Bound(pod: Pod, node: NodeInfo, annotation: string, tileAnnotation: string)

  /** One bind is in flight at a time: the extender's lock is held throughout. `caps` is the per-GPU capacity
      of every node, which stays fixed. */
  datatype Steady = Steady(system: System, phase: Phase, caps: map<string, Resources>)

  datatype Move =
    | Begin(pod: Pod, node: NodeInfo)
    | Decide(annotation: string, tileAnnotation: string)
    | GiveUp
    | Book
    | TakeEffect
    | Finish(succeeded: bool)
    | Informer(item: WorkItem)

  function CapsOf(caps: map<string, Resources>, node: string): Resources {
    if node in caps then caps[node] else map[]
  }

  /** When a move can be made. The informer adds no pod that is not counted: such a pod is not bound to a node.
      Nor has the pod in flight a node before the bind call takes effect. A bind call may report an error although it
      has taken effect, if the pod is still counted by then or its release is refused or takes nothing. */
  ghost predicate Enabled(s: Steady, move: Move) {
    match move
    case Begin(pod, node) =>
      && s.phase.Idle? && Key(pod) !in s.system.books
      && node.name in s.caps && s.caps[node.name] == PerGpuCapacity(node)
      && forall c :: CapOf(PerGpuCapacity(node), TILES) + (if c in node.disabled then |node.disabled[c]| else 0) <= MAX_INT64
    case Decide(annotation, tileAnnotation) =>
      s.phase.Started? && Key(s.phase.pod) !in s.system.books
      && PlanOutcome(s.phase.node, TileStatus(s.system.ledger, s.phase.node.name), NodeStatus(s.phase.begin, s.phase.node.name),
                     Requests(s.phase.pod), annotation, tileAnnotation)
    case GiveUp => s.phase.Started? || s.phase.Decided?
    case Book => s.phase.Decided?
    case TakeEffect => s.phase.Counted?
    case Finish(succeeded) => if succeeded then s.phase.Bound? else s.phase.Counted? || (s.phase.Bound? && RollbackIsSafe(s))
    case Informer(item) =>
      && Faithful(s.system, Work(item))
      && (s.phase.Counted? && Key(item.pod) == Key(s.phase.pod) ==> item.pod.nodeName == "")
      && (item.action.PodAdded? || item.action.PodUpdated? ==> Key(item.pod) in s.system.books || item.pod.nodeName == "")
  }

  ghost predicate RollbackIsSafe(s: Steady)
    requires s.phase.Bound?
  {
    var ch := RollbackChange(s.phase);
    Key(ch.pod) in s.system.books || !Accepted(s.system.ledger, ch) || TakesNothing(s.system.ledger, Booked(ch))
  }

  function RollbackChange(p: Phase): Change
    requires p.Counted? || p.Bound?
  {
    Change(p.pod, false, p.annotation, p.tileAnnotation, p.node.name)
  }

  function BookStep(p: Phase): Step
    requires p.Decided?
  {
    BindBook(p.pod, p.node.name, p.annotation, p.tileAnnotation)
  }

  function RollbackStep(p: Phase): Step
    requires p.Counted? || p.Bound?
  {
    BindRollback(p.pod, p.node.name, p.annotation, p.tileAnnotation)
  }

  ghost function Moved(s: Steady, move: Move): Steady
    requires Enabled(s, move)
  {
    match move
    case Begin(pod, node) => s.(phase := Started(pod, node, s.system.ledger))
    case Decide(annotation, tileAnnotation) => s.(phase := Decided(s.phase.pod, s.phase.node, annotation, tileAnnotation))
    case GiveUp => s.(phase := Idle)
    case Book =>
      var p := s.phase;
      if Accepted(s.system.ledger, Change(p.pod, true, p.annotation, p.tileAnnotation, p.node.name)) then
        s.(system := Next(s.system, BookStep(p)), phase := Counted(p.pod, p.node, p.annotation, p.tileAnnotation))
      else s.(phase := Idle)
    case TakeEffect => s.(phase := Bound(s.phase.pod, s.phase.node, s.phase.annotation, s.phase.tileAnnotation))
    case Finish(succeeded) =>
      if succeeded then s.(phase := Idle) else s.(system := Next(s.system, RollbackStep(s.phase)), phase := Idle)
    case Informer(item) => s.(system := Next(s.system, Work(item)))
  }

  // ---- what every reachable state keeps ----

  ghost predicate WithinCapacity(l: Ledger, caps: map<string, Resources>) {
    forall n, c, k :: AmountAt(NodeStatus(l, n), c, k) <= CapOf(CapsOf(caps, n), k)
  }

  /** Resource counts and tile indices agree. */
  ghost predicate TilesAgree(l: Ledger) {
    forall n, c :: |TilesAt(TileStatus(l, n), c)| == AmountAt(NodeStatus(l, n), c, TILES)
  }

  /** A booking's tiles are in use, and as many as it was booked with. */
  ghost predicate TilesHeld(l: Ledger, b: Booking) {
    forall c :: BookedTiles(b, c) <= TilesAt(TileStatus(l, b.node), c) && |BookedTiles(b, c)| == Use(AllocsOf(b), c, TILES)
  }

  ghost predicate TilesConsistent(s: System) {
    && TilesAgree(s.ledger)
    && (forall k :: k in s.books ==> TilesHeld(s.ledger, s.books[k]))
    && forall j, k :: j in s.books && k in s.books && j != k ==> TilesApart(s.books[j], s.books[k])
  }

  /** On one node nothing has been taken since. */
  ghost predicate OnlyReleased(before: Ledger, now: Ledger, node: string) {
    && (forall c, k :: AmountAt(NodeStatus(now, node), c, k) <= AmountAt(NodeStatus(before, node), c, k))
    && forall c :: TilesAt(TileStatus(now, node), c) <= TilesAt(TileStatus(before, node), c)
  }

  /** Booking now keeps within capacity and takes free tiles, as many as counted. */
  ghost predicate SafeToBook(l: Ledger, b: Booking, capacity: Resources) {
    && SharesNonNegative(AllocsOf(b))
    && Fitting(capacity, NodeStatus(l, b.node), AllocsOf(b))
    && forall c :: BookedTiles(b, c) !! TilesAt(TileStatus(l, b.node), c) && |BookedTiles(b, c)| == Use(AllocsOf(b), c, TILES)
  }

  ghost predicate PhaseKept(s: Steady) {
    match s.phase
    case Started(pod, node, begin) =>
      && Key(pod) !in s.system.books && OnlyReleased(begin, s.system.ledger, node.name)
      && node.name in s.caps && s.caps[node.name] == PerGpuCapacity(node)
      && CountedTiles(node, TileStatus(begin, node.name), NodeStatus(begin, node.name))
    case Decided(pod, node, annotation, tileAnnotation) =>
      && Key(pod) !in s.system.books
      && SafeToBook(s.system.ledger, BookingOf(pod, node.name, annotation, tileAnnotation), CapsOf(s.caps, node.name))
    case Counted(pod, node, annotation, tileAnnotation) =>
      Key(pod) in s.system.books && s.system.books[Key(pod)] == BookingOf(pod, node.name, annotation, tileAnnotation)
    case Bound(pod, node, annotation, tileAnnotation) =>
      var b := BookingOf(pod, node.name, annotation, tileAnnotation);
      && (Key(pod) in s.system.books ==> s.system.books[Key(pod)] == b)
      && forall c :: |BookedTiles(b, c)| == Use(AllocsOf(b), c, TILES)
    case _ => true
  }

  ghost predicate Invariant(s: Steady) {
    && Accounted(s.system) && WithinCapacity(s.system.ledger, s.caps) && TilesConsistent(s.system) && PhaseKept(s)
  }

  lemma InitialInvariant(caps: map<string, Resources>)
    ensures Invariant(Steady(INIT, Idle, caps))
  {
    InitAccounted();
  }

  // ---- releases only lower the use ----

  ghost predicate ReleasedEverywhere(before: Ledger, now: Ledger) {
    forall n :: OnlyReleased(before, now, n)
  }

  lemma NothingChanged(l: Ledger)
    ensures ReleasedEverywhere(l, l)
  {
  }

  lemma ReleaseOnlyLowers(s: System, ch: Change)
    requires Accounted(s) && !ch.adj && Key(ch.pod) in s.books && s.books[Key(ch.pod)] == Booked(ch)
    requires Accepted(s.ledger, ch)
    ensures ReleasedEverywhere(s.ledger, Adjust(s.ledger, ch.pod, false, ch.annotation, ch.tileAnnotation, ch.node).value)
  {
    var l' := Adjust(s.ledger, ch.pod, false, ch.annotation, ch.tileAnnotation, ch.node).value;
    ReleaseOfBooked(s, ch);
    StatusAfter(s.ledger, ch.pod, false, ch.annotation, ch.tileAnnotation, ch.node);
    forall n ensures OnlyReleased(s.ledger, l', n) {
      if n == ch.node {
        forall c, k ensures AmountAt(NodeStatus(l', n), c, k) <= AmountAt(NodeStatus(s.ledger, n), c, k) {
          UseNonNegative(AllocsOf(Booked(ch)), c, k);
        }
        forall c ensures TilesAt(TileStatus(l', n), c) <= TilesAt(TileStatus(s.ledger, n), c) {
          AdjustEntriesByCard(TileStatus(s.ledger, n), TileEntries(ch.tileAnnotation), false, c);
        }
      } else {
        StatusElsewhere(s.ledger, ch.pod, false, ch.annotation, ch.tileAnnotation, ch.node, n);
      }
    }
  }

  lemma LowerKeepsCapacity(before: Ledger, now: Ledger, caps: map<string, Resources>)
    requires WithinCapacity(before, caps) && ReleasedEverywhere(before, now)
    ensures WithinCapacity(now, caps)
  {
    forall n, c, k ensures AmountAt(NodeStatus(now, n), c, k) <= CapOf(CapsOf(caps, n), k) {
      assert OnlyReleased(before, now, n);
      assert AmountAt(NodeStatus(before, n), c, k) <= CapOf(CapsOf(caps, n), k);
    }
  }

  lemma LowerKeepsSafe(before: Ledger, now: Ledger, b: Booking, capacity: Resources)
    requires SafeToBook(before, b, capacity) && OnlyReleased(before, now, b.node)
    ensures SafeToBook(now, b, capacity)
  {
    forall c, k | Use(AllocsOf(b), c, k) > 0
      ensures AmountAt(NodeStatus(now, b.node), c, k) + Use(AllocsOf(b), c, k) <= CapOf(capacity, k)
    {
      assert AmountAt(NodeStatus(before, b.node), c, k) + Use(AllocsOf(b), c, k) <= CapOf(capacity, k);
    }
    forall c ensures BookedTiles(b, c) !! TilesAt(TileStatus(now, b.node), c) {
      assert BookedTiles(b, c) !! TilesAt(TileStatus(before, b.node), c);
    }
  }

  lemma LowerTwice(a: Ledger, b: Ledger, c: Ledger, node: string)
    requires OnlyReleased(a, b, node) && OnlyReleased(b, c, node)
    ensures OnlyReleased(a, c, node)
  {
    forall x, k
      ensures AmountAt(NodeStatus(c, node), x, k) <= AmountAt(NodeStatus(a, node), x, k)
      ensures TilesAt(TileStatus(c, node), x) <= TilesAt(TileStatus(a, node), x)
    {
      assert AmountAt(NodeStatus(b, node), x, k) <= AmountAt(NodeStatus(a, node), x, k);
      assert TilesAt(TileStatus(b, node), x) <= TilesAt(TileStatus(a, node), x);
    }
  }

  // ---- tiles under release and booking ----

  lemma ReleasedTiles(s: System, ch: Change, n: string, c: string)
    requires Accounted(s) && TilesConsistent(s) && !ch.adj && Key(ch.pod) in s.books && s.books[Key(ch.pod)] == Booked(ch)
    requires Accepted(s.ledger, ch)
    ensures var l' := Adjust(s.ledger, ch.pod, false, ch.annotation, ch.tileAnnotation, ch.node).value;
            && TilesAt(TileStatus(l', n), c)
               == TilesAt(TileStatus(s.ledger, n), c) - (if n == ch.node then BookedTiles(Booked(ch), c) else {})
            && |TilesAt(TileStatus(l', n), c)| == AmountAt(NodeStatus(l', n), c, TILES)
  {
    var l' := Adjust(s.ledger, ch.pod, false, ch.annotation, ch.tileAnnotation, ch.node).value;
    var was, u := TilesAt(TileStatus(s.ledger, n), c), BookedTiles(Booked(ch), c);
    assert |was| == AmountAt(NodeStatus(s.ledger, n), c, TILES);
    StatusAfter(s.ledger, ch.pod, false, ch.annotation, ch.tileAnnotation, ch.node);
    if n == ch.node {
      ReleaseOfBooked(s, ch);
      AdjustEntriesByCard(TileStatus(s.ledger, n), TileEntries(ch.tileAnnotation), false, c);
      assert TilesHeld(s.ledger, Booked(ch));
      assert u <= was && |u| == Use(AllocsOf(Booked(ch)), c, TILES);
      UnionSize(was - u, u);
      assert (was - u) + u == was;
    } else {
      StatusElsewhere(s.ledger, ch.pod, false, ch.annotation, ch.tileAnnotation, ch.node, n);
    }
  }

  lemma ReleaseKeepsTiles(s: System, ch: Change)
    requires Accounted(s) && TilesConsistent(s) && !ch.adj && Key(ch.pod) in s.books && s.books[Key(ch.pod)] == Booked(ch)
    requires Accepted(s.ledger, ch)
    ensures TilesConsistent(System(Adjust(s.ledger, ch.pod, false, ch.annotation, ch.tileAnnotation, ch.node).value,
                                   s.books - {Key(ch.pod)}, s.leaked))
  {
    var l' := Adjust(s.ledger, ch.pod, false, ch.annotation, ch.tileAnnotation, ch.node).value;
    forall n, c ensures |TilesAt(TileStatus(l', n), c)| == AmountAt(NodeStatus(l', n), c, TILES) {
      ReleasedTiles(s, ch, n, c);
    }
    forall k | k in s.books && k != Key(ch.pod) ensures TilesHeld(l', s.books[k]) {
      var b := s.books[k];
      forall c ensures BookedTiles(b, c) <= TilesAt(TileStatus(l', b.node), c) && |BookedTiles(b, c)| == Use(AllocsOf(b), c, TILES) {
        ReleasedTiles(s, ch, b.node, c);
        assert TilesHeld(s.ledger, b) && TilesApart(b, s.books[Key(ch.pod)]);
      }
    }
  }

  lemma BookedTilesAfter(l: Ledger, ch: Change, n: string, c: string)
    requires TilesAgree(l) && ch.adj && Accepted(l, ch)
    requires BookedTiles(Booked(ch), c) !! TilesAt(TileStatus(l, ch.node), c)
    requires |BookedTiles(Booked(ch), c)| == Use(AllocsOf(Booked(ch)), c, TILES)
    ensures var l' := Adjust(l, ch.pod, true, ch.annotation, ch.tileAnnotation, ch.node).value;
            && TilesAt(TileStatus(l', n), c)
               == TilesAt(TileStatus(l, n), c) + (if n == ch.node then BookedTiles(Booked(ch), c) else {})
            && |TilesAt(TileStatus(l', n), c)| == AmountAt(NodeStatus(l', n), c, TILES)
  {
    assert |TilesAt(TileStatus(l, n), c)| == AmountAt(NodeStatus(l, n), c, TILES);
    BookedAmounts(l, ch, n, c, TILES);
    StatusAfter(l, ch.pod, true, ch.annotation, ch.tileAnnotation, ch.node);
    if n == ch.node {
      AdjustEntriesByCard(TileStatus(l, n), TileEntries(ch.tileAnnotation), true, c);
      UnionSize(TilesAt(TileStatus(l, n), c), BookedTiles(Booked(ch), c));
    } else {
      StatusElsewhere(l, ch.pod, true, ch.annotation, ch.tileAnnotation, ch.node, n);
    }
  }

  lemma BookKeepsTiles(s: System, ch: Change, capacity: Resources)
    requires TilesConsistent(s) && ch.adj && Key(ch.pod) !in s.books && Accepted(s.ledger, ch)
    requires SafeToBook(s.ledger, Booked(ch), capacity)
    ensures TilesConsistent(System(Adjust(s.ledger, ch.pod, true, ch.annotation, ch.tileAnnotation, ch.node).value,
                                   s.books[Key(ch.pod) := Booked(ch)], s.leaked))
  {
    var l' := Adjust(s.ledger, ch.pod, true, ch.annotation, ch.tileAnnotation, ch.node).value;
    var books := s.books[Key(ch.pod) := Booked(ch)];
    forall n, c ensures |TilesAt(TileStatus(l', n), c)| == AmountAt(NodeStatus(l', n), c, TILES) {
      BookedTilesAfter(s.ledger, ch, n, c);
    }
    forall k | k in books ensures TilesHeld(l', books[k]) {
      var b := books[k];
      forall c ensures BookedTiles(b, c) <= TilesAt(TileStatus(l', b.node), c) && |BookedTiles(b, c)| == Use(AllocsOf(b), c, TILES) {
        BookedTilesAfter(s.ledger, ch, b.node, c);
        assert k != Key(ch.pod) ==> TilesHeld(s.ledger, b);
      }
    }
    forall k | k in s.books ensures TilesApart(s.books[k], Booked(ch)) && TilesApart(Booked(ch), s.books[k]) {
      forall c | s.books[k].node == ch.node ensures BookedTiles(s.books[k], c) !! BookedTiles(Booked(ch), c) {
        assert TilesHeld(s.ledger, s.books[k]);
      }
    }
  }

  lemma BookKeepsCapacity(l: Ledger, ch: Change, caps: map<string, Resources>)
    requires WithinCapacity(l, caps) && ch.adj && Accepted(l, ch)
    requires SafeToBook(l, Booked(ch), CapsOf(caps, ch.node))
    ensures WithinCapacity(Adjust(l, ch.pod, true, ch.annotation, ch.tileAnnotation, ch.node).value, caps)
  {
    var l' := Adjust(l, ch.pod, true, ch.annotation, ch.tileAnnotation, ch.node).value;
    forall n, c, k ensures AmountAt(NodeStatus(l', n), c, k) <= CapOf(CapsOf(caps, n), k) {
      BookedAmounts(l, ch, n, c, k);
      UseNonNegative(AllocsOf(Booked(ch)), c, k);
      assert AmountAt(NodeStatus(l, n), c, k) <= CapOf(CapsOf(caps, n), k);
      if n == ch.node && Use(AllocsOf(Booked(ch)), c, k) > 0 {
        assert AmountAt(NodeStatus(l, n), c, k) + Use(AllocsOf(Booked(ch)), c, k) <= CapOf(CapsOf(caps, n), k);
      }
    }
  }

  // ---- the decision is still safe when it is booked ----

  /** What is booked is what was planned. */
  lemma DecodedPlan(lower: NodeTiles, resources: NodeResources, pod: Pod, node: NodeInfo, annotation: string,
                    tileAnnotation: string, plan: seq<seq<Card>>, choice: seq<seq<seq<int>>>)
    requires OutcomeOf(node, lower, resources, Requests(pod), annotation, tileAnnotation, plan, choice)
    ensures AllocsOf(BookingOf(pod, node.name, annotation, tileAnnotation)) == PlannedAllocs(Requests(pod), plan)
    ensures TileEntries(tileAnnotation) == PlanEntries(plan, choice)
  {
    BookingReadsThePlan(Requests(pod), plan);
    TilesReadBack(Requests(pod), plan, choice);
  }

  lemma ChosenTilesAreFree(lower: NodeTiles, resources: NodeResources, pod: Pod, node: NodeInfo, annotation: string,
                           tileAnnotation: string, plan: seq<seq<Card>>, choice: seq<seq<seq<int>>>, c: string)
    requires OutcomeOf(node, lower, resources, Requests(pod), annotation, tileAnnotation, plan, choice)
    ensures var used := TileUse(PlanEntries(plan, choice), c);
      used !! TilesAt(lower, c) && |used| == Use(PlannedAllocs(Requests(pod), plan), c, TILES)
  {
    var allocs := PlannedAllocs(Requests(pod), plan);
    assert allocs[..|plan|] == allocs;
    assert |TileUse(PlanEntries(plan, choice), c)| == UseSoFar(allocs, |plan|, 0, c);
  }

  lemma StillFitting(begin: NodeResources, now: NodeResources, capacity: Resources, allocs: seq<Alloc>)
    requires Fitting(capacity, begin, allocs)
    requires forall c, k :: AmountAt(now, c, k) <= AmountAt(begin, c, k)
    ensures Fitting(capacity, now, allocs)
  {
  }

  /** A plan that was made against an older copy, with tiles chosen at any time since, is safe to book now:
      what happened in between only released resources. */
  lemma StaleCheckIsSafe(begin: Ledger, now: Ledger, pod: Pod, node: NodeInfo, annotation: string, tileAnnotation: string)
    requires OnlyReleased(begin, now, node.name)
    requires PlanOutcome(node, TileStatus(now, node.name), NodeStatus(begin, node.name), Requests(pod), annotation, tileAnnotation)
    ensures SafeToBook(now, BookingOf(pod, node.name, annotation, tileAnnotation), PerGpuCapacity(node))
  {
    var lower, resources := TileStatus(now, node.name), NodeStatus(begin, node.name);
    var plan, choice :| OutcomeOf(node, lower, resources, Requests(pod), annotation, tileAnnotation, plan, choice);
    DecodedPlan(lower, resources, pod, node, annotation, tileAnnotation, plan, choice);
    forall c
      ensures var used := TileUse(PlanEntries(plan, choice), c);
        used !! TilesAt(lower, c) && |used| == Use(PlannedAllocs(Requests(pod), plan), c, TILES)
    {
      ChosenTilesAreFree(lower, resources, pod, node, annotation, tileAnnotation, plan, choice, c);
    }
    StillFitting(resources, NodeStatus(now, node.name), PerGpuCapacity(node), PlannedAllocs(Requests(pod), plan));
  }

  // ---- the invariant ----

  /** What the informer does to a system whose bookings are counted: it only releases. */
  ghost predicate OnlyLowers(s: System, next: System) {
    && TilesConsistent(next) && ReleasedEverywhere(s.ledger, next.ledger)
    && next.books.Keys <= s.books.Keys && forall k :: k in next.books ==> next.books[k] == s.books[k]
  }

  lemma ReleaseLowers(s: System, ch: Change)
    requires Accounted(s) && TilesConsistent(s) && !ch.adj && Accepted(s.ledger, ch)
    requires Key(ch.pod) in s.books && s.books[Key(ch.pod)] == Booked(ch)
    ensures OnlyLowers(s, System(Adjust(s.ledger, ch.pod, false, ch.annotation, ch.tileAnnotation, ch.node).value,
                                 s.books - {Key(ch.pod)}, s.leaked))
  {
    ReleaseOnlyLowers(s, ch);
    ReleaseKeepsTiles(s, ch);
  }

  lemma InformerOnlyLowers(sys: System, item: WorkItem)
    requires Accounted(sys) && TilesConsistent(sys) && Faithful(sys, Work(item))
    requires item.action.PodAdded? || item.action.PodUpdated? ==> Key(item.pod) in sys.books || item.pod.nodeName == ""
    ensures OnlyLowers(sys, Next(sys, Work(item)))
  {
    var next := Next(sys, Work(item));
    var ch := ChangeOf(sys.ledger, Work(item));
    if ch.Some? && Accepted(sys.ledger, ch.value) {
      assert !ch.value.adj;
      if sys.books[Key(ch.value.pod)] == Booked(ch.value) {
        ReleaseLowers(sys, ch.value);
      } else {
        BareDeleteReleasesNothing(sys.ledger, ch.value.pod);
        BareDeleteKeepsTiles(sys, next);
      }
    } else {
      NothingChanged(sys.ledger);
    }
  }

  lemma InformerKeepsInvariant(s: Steady, item: WorkItem)
    requires Invariant(s) && Enabled(s, Informer(item))
    ensures Invariant(Moved(s, Informer(item)))
  {
    var next := Next(s.system, Work(item));
    StepKeepsAccounts(s.system, Work(item));
    InformerOnlyLowers(s.system, item);
    LowerKeepsCapacity(s.system.ledger, next.ledger, s.caps);
    InFlightIsKept(s, item);
    LowerKeepsPhase(s, next);
  }

  /** The informer cannot release the pod in flight: it names no node, so every adjustment is refused. */
  lemma InFlightIsKept(s: Steady, item: WorkItem)
    requires Accounted(s.system) && Enabled(s, Informer(item)) && PhaseKept(s)
    requires item.action.PodAdded? || item.action.PodUpdated? ==> Key(item.pod) in s.system.books || item.pod.nodeName == ""
    ensures var next := Next(s.system, Work(item));
      s.phase.Counted? ==> Key(s.phase.pod) in next.books && next.books[Key(s.phase.pod)] == s.system.books[Key(s.phase.pod)]
  {
    if s.phase.Counted? && Key(item.pod) == Key(s.phase.pod) {
      assert MadeChange(s.system.ledger, Work(item)).None?;
    }
  }

  lemma BareDeleteKeepsTiles(s: System, next: System)
    requires TilesConsistent(s) && next.books.Keys <= s.books.Keys
    requires forall k :: k in next.books ==> next.books[k] == s.books[k]
    requires next.ledger.status == s.ledger.status && forall n :: TileStatus(next.ledger, n) == TileStatus(s.ledger, n)
    ensures TilesConsistent(next) && ReleasedEverywhere(s.ledger, next.ledger)
  {
    assert forall n :: NodeStatus(next.ledger, n) == NodeStatus(s.ledger, n);
    forall k | k in next.books ensures TilesHeld(next.ledger, next.books[k]) {
      assert TilesHeld(s.ledger, s.books[k]);
    }
  }

  lemma LowerKeepsPhase(s: Steady, next: System)
    requires PhaseKept(s) && ReleasedEverywhere(s.system.ledger, next.ledger)
    requires next.books.Keys <= s.system.books.Keys
    requires forall k :: k in next.books ==> next.books[k] == s.system.books[k]
    requires s.phase.Counted? ==> Key(s.phase.pod) in next.books && next.books[Key(s.phase.pod)] == s.system.books[Key(s.phase.pod)]
    ensures PhaseKept(s.(system := next))
  {
    match s.phase
    case Started(pod, node, begin) =>
      assert OnlyReleased(s.system.ledger, next.ledger, node.name);
      LowerTwice(begin, s.system.ledger, next.ledger, node.name);
    case Decided(pod, node, annotation, tileAnnotation) =>
      assert OnlyReleased(s.system.ledger, next.ledger, node.name);
      LowerKeepsSafe(s.system.ledger, next.ledger, BookingOf(pod, node.name, annotation, tileAnnotation), CapsOf(s.caps, node.name));
    case _ =>
  }

  lemma BookKeepsInvariant(s: Steady)
    requires Invariant(s) && Enabled(s, Book)
    ensures Invariant(Moved(s, Book))
  {
    var p := s.phase;
    var ch := Change(p.pod, true, p.annotation, p.tileAnnotation, p.node.name);
    if Accepted(s.system.ledger, ch) {
      StepKeepsAccounts(s.system, BookStep(p));
      BookKeepsCapacity(s.system.ledger, ch, s.caps);
      BookKeepsTiles(s.system, ch, CapsOf(s.caps, p.node.name));
    }
  }

  lemma FinishKeepsInvariant(s: Steady, succeeded: bool)
    requires Invariant(s) && Enabled(s, Finish(succeeded))
    ensures Invariant(Moved(s, Finish(succeeded)))
  {
    if !succeeded {
      var step, ch := RollbackStep(s.phase), RollbackChange(s.phase);
      StepKeepsAccounts(s.system, step);
      if Accepted(s.system.ledger, ch) {
        if Key(ch.pod) in s.system.books {
          ReleaseOnlyLowers(s.system, ch);
          ReleaseKeepsTiles(s.system, ch);
        } else {
          HarmlessRelease(s.system, ch);
        }
      } else {
        NothingChanged(s.system.ledger);
      }
      LowerKeepsCapacity(s.system.ledger, Next(s.system, step).ledger, s.caps);
    }
  }

  lemma LateErrorOfCounted(s: Steady)
    requires Invariant(s) && s.phase.Bound? && Key(s.phase.pod) in s.system.books
    ensures Balanced(Next(s.system, RollbackStep(s.phase)))
  {
    var ch := RollbackChange(s.phase);
    assert ChangeOf(s.system.ledger, RollbackStep(s.phase)) == Some(ch);
    if Accepted(s.system.ledger, ch) {
      ReleaseKeepsAccounts(s.system, ch);
    }
  }

  lemma UncountedStep(s: System, step: Step, ch: Change)
    requires Accounted(s) && ChangeOf(s.ledger, step) == Some(ch) && Accepted(s.ledger, ch)
    requires !ch.adj && Key(ch.pod) !in s.books
    ensures Balanced(Next(s, step)) <==> TakesNothing(s.ledger, Booked(ch))
  {
    ReleasingUncounted(s, ch);
    assert s.books - {Key(ch.pod)} == s.books;
    var l' := Adjust(s.ledger, ch.pod, false, ch.annotation, ch.tileAnnotation, ch.node).value;
    assert Next(s, step) == System(l', s.books, s.leaked);
  }

  /** When a bind call reports an error although it took effect, its rollback keeps the accounts if and only if the pod
      is still counted, or the release is refused or takes nothing. */
  lemma LateErrorIsSafeIff(s: Steady)
    requires Invariant(s) && s.phase.Bound?
    ensures Balanced(Next(s.system, RollbackStep(s.phase))) <==> RollbackIsSafe(s)
  {
    if Key(s.phase.pod) in s.system.books {
      LateErrorOfCounted(s);
    } else if Accepted(s.system.ledger, RollbackChange(s.phase)) {
      UncountedStep(s.system, RollbackStep(s.phase), RollbackChange(s.phase));
    }
  }

  /** A release that takes nothing leaves tiles and amounts as they were. */
  lemma HarmlessRelease(s: System, ch: Change)
    requires Accounted(s) && TilesConsistent(s) && !ch.adj && Key(ch.pod) !in s.books && Accepted(s.ledger, ch)
    requires TakesNothing(s.ledger, Booked(ch)) && forall c :: |BookedTiles(Booked(ch), c)| == Use(AllocsOf(Booked(ch)), c, TILES)
    ensures var l' := Adjust(s.ledger, ch.pod, false, ch.annotation, ch.tileAnnotation, ch.node).value;
            TilesConsistent(System(l', s.books - {Key(ch.pod)}, s.leaked)) && ReleasedEverywhere(s.ledger, l')
  {
    var l' := Adjust(s.ledger, ch.pod, false, ch.annotation, ch.tileAnnotation, ch.node).value;
    forall n, c ensures TilesAt(TileStatus(l', n), c) == TilesAt(TileStatus(s.ledger, n), c) {
      HarmlessTiles(s, l', ch, n, c);
    }
    forall n, c, k ensures ReleasedAt(s.ledger, l', Booked(ch), n, c, k) {
      AccountedNonNegative(s, n);
      AccountedNonNegative(s, ch.node);
      ReleasedAmounts(s.ledger, l', ch, n, c, k);
    }
    TakesNothingKeepsAmounts(s.ledger, l', Booked(ch));
    SameEverywhere(s, System(l', s.books - {Key(ch.pod)}, s.leaked));
  }

  lemma SameEverywhere(s: System, next: System)
    requires TilesConsistent(s) && SameAmounts(s.ledger, next.ledger)
    requires forall n, c :: TilesAt(TileStatus(next.ledger, n), c) == TilesAt(TileStatus(s.ledger, n), c)
    requires next.books.Keys <= s.books.Keys && forall k :: k in next.books ==> next.books[k] == s.books[k]
    ensures TilesConsistent(next) && ReleasedEverywhere(s.ledger, next.ledger)
  {
    forall k | k in next.books ensures TilesHeld(next.ledger, next.books[k]) {
      assert TilesHeld(s.ledger, s.books[k]);
    }
  }

  lemma NothingToTake(was: set<int>, tiles: set<int>)
    requires |tiles| > 0 ==> |was| == 0
    ensures was - tiles == was
  {
    if tiles == {} {
    } else {
      assert was == {};
    }
  }

  lemma HarmlessTiles(s: System, l': Ledger, ch: Change, n: string, c: string)
    requires TilesAgree(s.ledger) && Adjust(s.ledger, ch.pod, false, ch.annotation, ch.tileAnnotation, ch.node) == Some(l')
    requires TakesNothing(s.ledger, Booked(ch)) && |BookedTiles(Booked(ch), c)| == Use(AllocsOf(Booked(ch)), c, TILES)
    ensures TilesAt(TileStatus(l', n), c) == TilesAt(TileStatus(s.ledger, n), c)
  {
    var was, u := TilesAt(TileStatus(s.ledger, n), c), BookedTiles(Booked(ch), c);
    StatusAfter(s.ledger, ch.pod, false, ch.annotation, ch.tileAnnotation, ch.node);
    if n == ch.node {
      AdjustEntriesByCard(TileStatus(s.ledger, n), TileEntries(ch.tileAnnotation), false, c);
      assert |was| == AmountAt(NodeStatus(s.ledger, n), c, TILES);
      NothingToTake(was, u);
    } else {
      StatusElsewhere(s.ledger, ch.pod, false, ch.annotation, ch.tileAnnotation, ch.node, n);
    }
  }

  lemma MoveKeepsInvariant(s: Steady, move: Move)
    requires Invariant(s) && Enabled(s, move)
    ensures Invariant(Moved(s, move))
  {
    match move
    case Begin(pod, node) =>
      NothingChanged(s.system.ledger);
      BeginIsCounted(s, pod, node);
    case Decide(annotation, tileAnnotation) =>
      StaleCheckIsSafe(s.phase.begin, s.system.ledger, s.phase.pod, s.phase.node, annotation, tileAnnotation);
    case GiveUp =>
    case Book => BookKeepsInvariant(s);
    case TakeEffect =>
      assert TilesHeld(s.system.ledger, s.system.books[Key(s.phase.pod)]);
    case Finish(succeeded) => FinishKeepsInvariant(s, succeeded);
    case Informer(item) => InformerKeepsInvariant(s, item);
  }

  /** When bind begins, the tiles in use are exactly the ones that are counted: what planning relies on. */
  lemma BeginIsCounted(s: Steady, pod: Pod, node: NodeInfo)
    requires Invariant(s) && Enabled(s, Begin(pod, node))
    ensures CountedTiles(node, TileStatus(s.system.ledger, node.name), NodeStatus(s.system.ledger, node.name))
  {
    AccountedNonNegative(s.system, node.name);
    forall c
      ensures |TilesAt(TileStatus(s.system.ledger, node.name), c)| == AmountAt(NodeStatus(s.system.ledger, node.name), c, TILES)
      ensures TileHeadroom(node, NodeStatus(s.system.ledger, node.name), c)
    {
      AmountsNonNegative(NodeStatus(s.system.ledger, node.name), c, TILES);
      assert AmountAt(NodeStatus(s.system.ledger, node.name), c, TILES) <= CapOf(CapsOf(s.caps, node.name), TILES);
    }
  }

  /** Within per-GPU capacity, the listed cards together stay within the node's allocatable amount. */
  lemma NodeWithinAllocatable(l: Ledger, caps: map<string, Resources>, node: NodeInfo, cards: set<string>, key: string)
    requires WithinCapacity(l, caps) && node.name in caps && caps[node.name] == PerGpuCapacity(node)
    requires cards == (set c | c in node.cards) && cards != {}
    requires key in GpuResources(node.allocatable) && node.allocatable[key] >= 0
    ensures SumOverCards(NodeStatus(l, node.name), cards, key) <= node.allocatable[key]
  {
    var perCard := CapOf(PerGpuCapacity(node), key);
    forall c | c in cards ensures AmountAt(NodeStatus(l, node.name), c, key) <= perCard {
      assert AmountAt(NodeStatus(l, node.name), c, key) <= CapOf(CapsOf(caps, node.name), key);
    }
    DistinctAtMost(node.cards, cards);
    NodeStaysWithinAllocatable(NodeStatus(l, node.name), cards, perCard, node.allocatable[key], |node.cards|, key);
  }

  lemma {:induction false} DistinctAtMost(names: seq<string>, names': set<string>)
    requires names' == set c | c in names
    ensures |names'| <= |names|
  {
    if names != [] {
      var front, last := names[..|names| - 1], names[|names| - 1];
      var rest := set c | c in front;
      DistinctAtMost(front, rest);
      assert names' == rest + {last};
    }
  }

  // ---- whole runs ----

  ghost predicate Run(states: seq<Steady>, moves: seq<Move>) {
    && |states| == |moves| + 1
    && forall i :: 0 <= i < |moves| ==> Enabled(states[i], moves[i]) && states[i + 1] == Moved(states[i], moves[i])
  }

  /** In every state of every steady run no card's booked amount of any resource exceeds the per-GPU capacity,
      and on every card the booked amount of tiles is the number of used tile indices, although bind checks a
      copy and books later under another lock. */
  lemma {:induction false} SafeInEveryState(states: seq<Steady>, moves: seq<Move>, i: nat)
    requires Run(states, moves) && Invariant(states[0]) && i < |states|
    ensures Invariant(states[i])
    ensures WithinCapacity(states[i].system.ledger, states[i].caps)
    ensures TilesAgree(states[i].system.ledger)
  {
    if i > 0 {
      SafeInEveryState(states, moves, i - 1);
      assert states[i] == Moved(states[i - 1], moves[i - 1]);
      MoveKeepsInvariant(states[i - 1], moves[i - 1]);
    }
  }

  /** When no pod is counted and nothing has leaked, no amount is left and no tile is in use. */
  lemma NothingLeft(s: Steady)
    requires Invariant(s) && s.system.books == map[] && s.system.leaked == []
    ensures forall n, c, k :: AmountAt(NodeStatus(s.system.ledger, n), c, k) == 0
    ensures forall n, c :: TilesAt(TileStatus(s.system.ledger, n), c) == {}
  {
    forall n, c, k ensures AmountAt(NodeStatus(s.system.ledger, n), c, k) == 0 {
      assert AmountAt(NodeStatus(s.system.ledger, n), c, k)
          == Total(s.system.books, n, c, k) + LeakedTotal(s.system.leaked, n, c, k);
    }
    forall n, c ensures TilesAt(TileStatus(s.system.ledger, n), c) == {} {
      assert |TilesAt(TileStatus(s.system.ledger, n), c)| == AmountAt(NodeStatus(s.system.ledger, n), c, TILES);
    }
  }

  /** Booking a decided pod, when it is not refused, counts it and raises every amount by exactly its booking. */
  lemma BookTakes(s: Steady)
    requires Invariant(s) && s.phase.Decided?
    requires var p := s.phase; Accepted(s.system.ledger, Change(p.pod, true, p.annotation, p.tileAnnotation, p.node.name))
    ensures var p, next := s.phase, Moved(s, Book);
      var b := BookingOf(p.pod, p.node.name, p.annotation, p.tileAnnotation);
      && next.system.books == s.system.books[Key(p.pod) := b] && next.system.leaked == s.system.leaked
      && forall n, c, k ::
           AmountAt(NodeStatus(next.system.ledger, n), c, k)
           == AmountAt(NodeStatus(s.system.ledger, n), c, k) + UseOn(b, n, c, k)
  {
    var p := s.phase;
    var ch := Change(p.pod, true, p.annotation, p.tileAnnotation, p.node.name);
    assert ChangeOf(s.system.ledger, BookStep(p)) == Some(ch);
    forall n, c, k {
      BookedAmounts(s.system.ledger, ch, n, c, k);
    }
  }

  /** A failure before the bind call has taken effect gives back exactly what was booked. */
  lemma FailureGivesBack(s: Steady)
    requires Invariant(s) && Releasable(s.system) && s.phase.Counted?
    ensures var key, next := Key(s.phase.pod), Moved(s, Finish(false));
      && key in s.system.books && next.system.books == s.system.books - {key} && next.system.leaked == s.system.leaked
      && forall n, c, k ::
           AmountAt(NodeStatus(next.system.ledger, n), c, k)
           == AmountAt(NodeStatus(s.system.ledger, n), c, k) - UseOn(s.system.books[key], n, c, k)
  {
    ReleaseForgets(s.system, RollbackStep(s.phase), RollbackChange(s.phase));
    forall n, c, k {
      ReleaseGivesBack(s.system, RollbackStep(s.phase), RollbackChange(s.phase), n, c, k);
    }
  }

  /** While a pod is being planned, nothing is taken. */
  lemma {:induction false} OnlyReleasedWhilePlanning(states: seq<Steady>, moves: seq<Move>, i: nat, j: nat)
    requires Run(states, moves) && Invariant(states[0]) && i <= j < |states|
    requires states[j].phase.Started? && forall k :: i <= k <= j ==> states[k].phase == states[j].phase
    ensures OnlyReleased(states[i].system.ledger, states[j].system.ledger, states[j].phase.node.name)
    decreases j - i
  {
    if i < j {
      SafeInEveryState(states, moves, i);
      assert Enabled(states[i], moves[i]) && states[i + 1] == Moved(states[i], moves[i]);
      assert states[i].phase == states[j].phase && states[i + 1].phase == states[j].phase;
      OnlyReleasedWhilePlanning(states, moves, i + 1, j);
      var next := states[i + 1].system.ledger;
      match moves[i]
      case Informer(item) =>
        InformerOnlyLowers(states[i].system, item);
        assert OnlyReleased(states[i].system.ledger, next, states[j].phase.node.name);
        LowerTwice(states[i].system.ledger, next, states[j].system.ledger, states[j].phase.node.name);
      case _ =>
    }
  }

  /** The planner among other steps: it reads the amounts when the bind begins and the tiles at any moments since,
      and what it prints is a decision that the run can make. */
  method PlanInRun(states: seq<Steady>, ghost moves: seq<Move>, j: nat, at: nat -> nat, w: Wishes, balanced: string)
    returns (ok: bool, annotation: string, tileAnnotation: string)
    requires Run(states, moves) && Invariant(states[0]) && j < |states| && states[j].phase.Started?
    requires forall n: nat, k :: at(n) <= k <= j ==> states[k].phase == states[j].phase
    requires forall n: nat :: at(n) <= j
    requires WellFormed(states[j].phase.node, states[j].phase.pod, w) && states[j].phase.pod.containers != []
    ensures ok ==> Enabled(states[j], Decide(annotation, tileAnnotation))
  {
    var pod, node, begin := states[j].phase.pod, states[j].phase.node, states[j].phase.begin;
    SafeInEveryState(states, moves, j);
    var m := new Extender(node, balanced, (n: nat) requires at(n) < |states| => TileStatus(states[at(n)].system.ledger, node.name),
                          NodeStatus(begin, node.name), TileStatus(begin, node.name),
                          TileStatus(states[j].system.ledger, node.name));
    forall n: nat, c
      ensures TilesAt(TileStatus(states[j].system.ledger, node.name), c) <= TilesAt(m.statusRead(n), c)
      ensures TilesAt(m.statusRead(n), c) <= TilesAt(TileStatus(begin, node.name), c)
    {
      SafeInEveryState(states, moves, at(n));
      assert states[at(n)].phase == states[j].phase;
      OnlyReleasedWhilePlanning(states, moves, at(n), j);
    }
    ghost var plan;
    ok, annotation, tileAnnotation, plan := m.PlanAndPrint(Requests(pod), w.sameGpu, w.gpuMaps, w.xeLinked);
  }
}
