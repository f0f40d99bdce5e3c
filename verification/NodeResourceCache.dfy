/** node_resource_cache.go: the shared booking ledger, its dry run and its real run, and the
    worker that books and releases pods as the informer reports them. */
module NodeResourceCache {
  import opened Text
  import opened ResourceArithmetic
  import opened Allocations
  import opened Annotations

  const CARD_ANNOTATION := "gas-container-cards"
  const TILE_ANNOTATION := "gas-container-tiles"

  /** The cache's bookkeeping as one value. */
  datatype Ledger = Ledger(
    annotated: map<string, string>,
    status: map<string, NodeResources>,
    tiles: map<string, NodeTiles>)

  const EMPTY_LEDGER := Ledger(map[], map[], map[])

  function NodeStatus(l: Ledger, node: string): NodeResources {
    if node in l.status then l.status[node] else map[]
  }

  function TileStatus(l: Ledger, node: string): NodeTiles {
    if node in l.tiles then l.tiles[node] else map[]
  }

  predicate BadArgs(requests: seq<Resources>, node: string, containerCards: seq<string>) {
    |requests| != |containerCards| || node == ""
  }

  predicate NoCards(containerCards: seq<string>) {
    forall i :: 0 <= i < |containerCards| ==> containerCards[i] == ""
  }

  /** The node's map is only created when some container has cards. */
  function WithStatus(status: map<string, NodeResources>, node: string, containerCards: seq<string>,
                      after: NodeResources): map<string, NodeResources> {
    if NoCards(containerCards) then status else status[node := after]
  }

  /** What booking (adj) or releasing (!adj) a pod makes of the ledger; None when it is refused. */
  function Adjust(l: Ledger, pod: Pod, adj: bool, annotation: string, tileAnnotation: string,
                  node: string): Option<Ledger> {
    var cards := Split(annotation, '|');
    if BadArgs(Requests(pod), node, cards) then None
    else
      var after := AdjustAllocs(NodeStatus(l, node), Allocs(Requests(pod), cards), adj);
      if after.None? then None
      else Some(Ledger(
        if adj then l.annotated[Key(pod) := annotation] else l.annotated - {Key(pod)},
        WithStatus(l.status, node, cards, after.value),
        l.tiles[node := AdjustEntries(TileStatus(l, node), TileEntries(tileAnnotation), adj)]))
  }

  lemma NoCardsNoChange(node: NodeResources, requests: seq<Resources>, containerCards: seq<string>, adj: bool)
    requires |requests| == |containerCards| && NoCards(containerCards)
    ensures AdjustAllocs(node, Allocs(requests, containerCards), adj) == Some(node)
    decreases |requests|
  {
    if requests != [] {
      var n := |requests| - 1;
      AllocsFront(requests, containerCards, n);
      NoCardsNoChange(node, requests[..n], containerCards[..n], adj);
    }
  }

  lemma WithStatusOneMore(status: map<string, NodeResources>, node: string, containerCards: seq<string>, i: nat,
                          before: NodeResources, after: NodeResources)
    requires i < |containerCards|
    ensures var w := WithStatus(status, node, containerCards[..i], before);
            var w' := WithStatus(status, node, containerCards[..i + 1], after);
            && (containerCards[i] != "" ==> w' == w[node := after])
            && (containerCards[i] == "" && before == after ==> w' == w)
  {
    assert forall j :: 0 <= j < i ==> containerCards[..i + 1][j] == containerCards[..i][j];
    assert containerCards[..i + 1][i] == containerCards[i];
  }

  lemma AllocsFront(requests: seq<Resources>, containerCards: seq<string>, n: nat)
    requires |requests| == |containerCards| && n <= |requests|
    ensures Allocs(requests, containerCards)[..n] == Allocs(requests[..n], containerCards[..n])
  {
  }

  /** Reading the status after an adjustment gives the amounts the adjustment computed. */
  lemma StatusAfter(l: Ledger, pod: Pod, adj: bool, annotation: string, tileAnnotation: string, node: string)
    requires Adjust(l, pod, adj, annotation, tileAnnotation, node).Some?
    ensures var l' := Adjust(l, pod, adj, annotation, tileAnnotation, node).value;
            && Some(NodeStatus(l', node)) == AdjustAllocs(NodeStatus(l, node), Allocs(Requests(pod), Split(annotation, '|')), adj)
            && TileStatus(l', node) == AdjustEntries(TileStatus(l, node), TileEntries(tileAnnotation), adj)
  {
    var cards := Split(annotation, '|');
    var after := AdjustAllocs(NodeStatus(l, node), Allocs(Requests(pod), cards), adj);
    if NoCards(cards) {
      NoCardsNoChange(NodeStatus(l, node), Requests(pod), cards, adj);
      assert WithStatus(l.status, node, cards, after.value) == l.status;
    } else {
      assert WithStatus(l.status, node, cards, after.value) == l.status[node := after.value];
    }
  }

  /** No error, or one of resource arithmetic. */
  predicate Arithmetic(err: Option<Error>) { err.None? || err == Some(ErrInput) || err == Some(ErrOverflow) }

  /** A card after an adjustment whose error is dropped. */
  function BlindCard(node: NodeResources, share: Resources, card: string, adj: bool): NodeResources {
    var r := AdjustCard(node, share, card, adj);
    if r.Some? then r.value else node[card := CardResources(node, card)]
  }

  /** After a dry run without a fault, none of the dropped errors is one. */
  lemma NoBlindError(start: NodeResources, share: Resources, cards: seq<string>, j: nat, adj: bool, node: NodeResources)
    returns (after: NodeResources)
    requires j < |cards| && AdjustCards(start, share, cards, adj).Some?
    requires AdjustCards(start, share, cards[..j], adj) == Some(node)
    ensures AdjustCard(node, share, cards[j], adj) == Some(after)
    ensures AdjustCards(start, share, cards[..j + 1], adj) == Some(after)
    ensures BlindCard(node, share, cards[j], adj) == after
  {
    CardsOneMore(start, share, cards, j, adj);
    if AdjustCards(start, share, cards[..j + 1], adj).None? {
      EarlyFailure(start, share, cards, j + 1, adj);
    }
    after := AdjustCard(node, share, cards[j], adj).value;
  }

  lemma NoAllocFault(start: NodeResources, allocs: seq<Alloc>, i: nat, adj: bool, node: NodeResources)
    returns (after: NodeResources)
    requires i < |allocs| && AdjustAllocs(start, allocs, adj).Some?
    requires AdjustAllocs(start, allocs[..i], adj) == Some(node)
    ensures AdjustCards(node, allocs[i].share, allocs[i].cards, adj) == Some(after)
    ensures AdjustAllocs(start, allocs[..i + 1], adj) == Some(after)
  {
    AllocsOneMore(start, allocs, i, adj);
    if AdjustAllocs(start, allocs[..i + 1], adj).None? {
      EarlyAllocFailure(start, allocs, i + 1, adj);
    }
    after := AdjustCards(node, allocs[i].share, allocs[i].cards, adj).value;
  }

  lemma StatusElsewhere(l: Ledger, pod: Pod, adj: bool, annotation: string, tileAnnotation: string, node: string,
                        other: string)
    requires Adjust(l, pod, adj, annotation, tileAnnotation, node).Some? && other != node
    ensures var l' := Adjust(l, pod, adj, annotation, tileAnnotation, node).value;
            NodeStatus(l', other) == NodeStatus(l, other) && TileStatus(l', other) == TileStatus(l, other)
  {
    var cards := Split(annotation, '|');
    var after := AdjustAllocs(NodeStatus(l, node), Allocs(Requests(pod), cards), adj);
    OtherNodesKept(l, cards, node, after.value, other);
  }

  lemma OtherNodesKept(l: Ledger, cards: seq<string>, node: string, after: NodeResources, other: string)
    requires other != node
    ensures var status := WithStatus(l.status, node, cards, after);
            NodeStatus(l.(status := status), other) == NodeStatus(l, other)
  {
  }

  // ---- informer events and work items ----

  datatype Action = PodUpdated | PodAdded | PodDeleted | PodCompleted | OtherAction

  datatype WorkItem = WorkItem(pod: Pod, annotation: string, tileAnnotation: string, action: Action)

  function TileAnnotationOf(pod: Pod): string {
    if TILE_ANNOTATION in pod.annotations then pod.annotations[TILE_ANNOTATION] else ""
  }

  function AddEvent(pod: Pod): Option<WorkItem> {
    if CARD_ANNOTATION !in pod.annotations then None
    else Some(WorkItem(pod, pod.annotations[CARD_ANNOTATION], TileAnnotationOf(pod), PodAdded))
  }

  function UpdateEvent(pod: Pod): Option<WorkItem> {
    if CARD_ANNOTATION !in pod.annotations then None
    else Some(WorkItem(pod, pod.annotations[CARD_ANNOTATION], TileAnnotationOf(pod),
                       if pod.completed then PodCompleted else PodUpdated))
  }

  function DeleteEvent(l: Ledger, pod: Pod): Option<WorkItem> {
    if Key(pod) !in l.annotated then None else Some(WorkItem(pod, "", "", PodDeleted))
  }

  predicate Books(item: WorkItem) { item.action.PodAdded? || item.action.PodUpdated? }

  /** An item is acted on when it books an uncounted pod or releases a counted one. */
  predicate Adjusts(l: Ledger, item: WorkItem) {
    !item.action.OtherAction? && Books(item) != (Key(item.pod) in l.annotated)
  }

  function AdjustmentOf(l: Ledger, item: WorkItem): Option<Ledger> {
    Adjust(l, item.pod, Books(item), item.annotation, item.tileAnnotation, item.pod.nodeName)
  }

  /** The ledger after the worker has handled an item; a refused adjustment leaves it as it was. */
  function Handled(l: Ledger, item: WorkItem): Ledger {
    if Adjusts(l, item) && AdjustmentOf(l, item).Some? then AdjustmentOf(l, item).value else l
  }

  // ---- the cache ----

  class Cache {
    var annotatedPods: map<string, string>
    var nodeStatuses: map<string, NodeResources>
    var nodeTileStatuses: map<string, NodeTiles>
    var podDeschedStatuses: map<string, bool>

    function State(): Ledger
      reads this
    {
      Ledger(annotatedPods, nodeStatuses, nodeTileStatuses)
    }

    constructor ()
      ensures State() == EMPTY_LEDGER
    {
      annotatedPods, nodeStatuses, nodeTileStatuses, podDeschedStatuses := map[], map[], map[], map[];
    }

    /** A private copy of the node's resources. */
    method GetNodeResourceStatus(nodeName: string) returns (copy: NodeResources)
      ensures copy == NodeStatus(State(), nodeName)
    {
      copy := map[];
      if nodeName in nodeStatuses {
        var src := nodeStatuses[nodeName];
        var todo := src.Keys;
        while todo != {}
          invariant todo <= src.Keys && copy.Keys == src.Keys - todo
          invariant forall c :: c in copy ==> copy[c] == src[c]
          decreases todo
        {
          var card :| card in todo;
          var rm := new ResourceMap(map[]);
          rm.CopyFrom(src[card]);
          assert rm.amounts == src[card];
          copy := copy[card := rm.amounts];
          todo := todo - {card};
        }
      }
    }

    method GetNodeTileStatus(nodeName: string) returns (copy: NodeTiles)
      ensures copy == TileStatus(State(), nodeName)
    {
      copy := if nodeName in nodeTileStatuses then nodeTileStatuses[nodeName] else map[];
    }

    method AdjustOneCard(node: NodeResources, request: Resources, cardName: string, adj: bool)
      returns (after: NodeResources, err: Option<Error>)
      ensures err.None? <==> AdjustCard(node, request, cardName, adj).Some?
      ensures err.None? ==> Some(after) == AdjustCard(node, request, cardName, adj)
      ensures err.Some? ==> after == node[cardName := CardResources(node, cardName)]
      ensures Arithmetic(err)
    {
      var rm := new ResourceMap(if cardName in node then node[cardName] else map[]);
      if adj {
        err := rm.AddRM(request);
      } else {
        err := rm.SubtractRM(request);
      }
      after := node[cardName := rm.amounts];
    }

    method DryRunCards(node: NodeResources, request: Resources, cardNames: seq<string>, adj: bool)
      returns (nodeRes: NodeResources, err: Option<Error>)
      ensures err.None? <==> AdjustCards(node, request, cardNames, adj).Some?
      ensures err.None? ==> Some(nodeRes) == AdjustCards(node, request, cardNames, adj)
      ensures Arithmetic(err)
    {
      nodeRes, err := node, None;
      var j := 0;
      while j < |cardNames|
        invariant 0 <= j <= |cardNames| && err.None?
        invariant AdjustCards(node, request, cardNames[..j], adj) == Some(nodeRes)
      {
        CardsOneMore(node, request, cardNames, j, adj);
        nodeRes, err := AdjustOneCard(nodeRes, request, cardNames[j], adj);
        if err.Some? {
          EarlyFailure(node, request, cardNames, j + 1, adj);
          return;
        }
        j := j + 1;
      }
      assert cardNames[..j] == cardNames;
    }

    method DryRunContainer(node: NodeResources, containerRequest: Resources, csv: string, adj: bool)
      returns (nodeRes: NodeResources, err: Option<Error>)
      ensures var a := ContainerAlloc(containerRequest, csv);
              var r := AdjustCards(node, a.share, a.cards, adj);
              (err.None? <==> r.Some?) && (err.None? ==> r == Some(nodeRes))
      ensures Arithmetic(err)
    {
      nodeRes, err := node, None;
      var cardNames := Split(csv, ',');
      if |csv| != 0 {
        var request := new ResourceMap(containerRequest);
        err := request.Divide(|cardNames|);
        if err.Some? {
          return;
        }
        nodeRes, err := DryRunCards(nodeRes, request.amounts, cardNames, adj);
      }
    }

    /** The dry run: it works on a copy and reports whether the real run could fail. */
    method CheckPodResourceAdjustmentImpl(containerRequests: seq<Resources>, nodeName: string,
                                          containerCards: seq<string>, adj: bool) returns (err: Option<Error>)
      requires |containerRequests| == |containerCards|
      ensures err.None? <==>
                AdjustAllocs(NodeStatus(State(), nodeName), Allocs(containerRequests, containerCards), adj).Some?
      ensures Arithmetic(err)
    {
      ghost var allocs := Allocs(containerRequests, containerCards);
      var nodeRes := GetNodeResourceStatus(nodeName);
      ghost var start := nodeRes;
      err := None;
      var index := 0;
      while index < |containerRequests|
        invariant 0 <= index <= |allocs| && err.None?
        invariant AdjustAllocs(start, allocs[..index], adj) == Some(nodeRes)
      {
        AllocsOneMore(start, allocs, index, adj);
        nodeRes, err := DryRunContainer(nodeRes, containerRequests[index], containerCards[index], adj);
        if err.Some? {
          EarlyAllocFailure(start, allocs, index + 1, adj);
          return;
        }
        index := index + 1;
      }
      assert allocs[..index] == allocs;
    }

    method CheckPodResourceAdjustment(containerRequests: seq<Resources>, nodeName: string,
                                      containerCards: seq<string>, adj: bool) returns (err: Option<Error>)
      ensures BadArgs(containerRequests, nodeName, containerCards) <==> err == Some(ErrBadArgs)
      ensures err.None? <==>
                && !BadArgs(containerRequests, nodeName, containerCards)
                && AdjustAllocs(NodeStatus(State(), nodeName), Allocs(containerRequests, containerCards), adj).Some?
      ensures err == Some(ErrBadArgs) || Arithmetic(err)
    {
      if |containerRequests| != |containerCards| || nodeName == "" {
        return Some(ErrBadArgs);
      }
      err := CheckPodResourceAdjustmentImpl(containerRequests, nodeName, containerCards, adj);
    }

    method AdjustContainerTiles(adj: bool, usage: NodeTiles, text: string) returns (tileUsage: NodeTiles)
      ensures tileUsage == AdjustEntries(usage, ContainerEntries(text), adj)
    {
      tileUsage := usage;
      if |text| == 0 {
        return;
      }
      var gpuSplit := Split(text, ',');
      var j := 0;
      while j < |gpuSplit|
        invariant 0 <= j <= |gpuSplit|
        invariant tileUsage == AdjustEntries(usage, GpuEntries(gpuSplit[..j]), adj)
      {
        GpuEntriesOneMore(gpuSplit, j);
        AdjustEntriesAppend(usage, GpuEntries(gpuSplit[..j]), GpuEntry(gpuSplit[j]), adj);
        tileUsage := AdjustGpuTiles(adj, tileUsage, gpuSplit[j]);
        j := j + 1;
      }
      assert gpuSplit[..j] == gpuSplit;
    }

    method AdjustGpuTiles(adj: bool, usage: NodeTiles, gpuString: string) returns (tileUsage: NodeTiles)
      ensures tileUsage == AdjustEntries(usage, GpuEntry(gpuString), adj)
    {
      tileUsage := usage;
      var gpuParts := Split(gpuString, ':');
      if |gpuParts| == 2 {
        var gpuName := gpuParts[0];
        var indices := TileIndices(Split(gpuParts[1], '+'));
        var oldUsedTiles := if gpuName in tileUsage then tileUsage[gpuName] else {};
        var usedTilesMap := UpdateUsed(adj, oldUsedTiles, indices);
        tileUsage := tileUsage[gpuName := usedTilesMap];
        AdjustEntriesOne(usage, TileEntry(gpuName, indices), adj);
      }
    }

    method AdjustTiles(adj: bool, nodeName: string, tileAnnotation: string)
      modifies this`nodeTileStatuses
      ensures nodeTileStatuses == old(nodeTileStatuses)[nodeName :=
                AdjustEntries(TileStatus(old(State()), nodeName), TileEntries(tileAnnotation), adj)]
    {
      var tileUsage := GetNodeTileStatus(nodeName);
      ghost var start := tileUsage;
      var containerSplit := Split(tileAnnotation, '|');
      var i := 0;
      while i < |containerSplit|
        invariant 0 <= i <= |containerSplit|
        invariant nodeTileStatuses == old(nodeTileStatuses)
        invariant tileUsage == AdjustEntries(start, AllEntries(containerSplit[..i]), adj)
      {
        AllEntriesOneMore(containerSplit, i);
        AdjustEntriesAppend(start, AllEntries(containerSplit[..i]), ContainerEntries(containerSplit[i]), adj);
        tileUsage := AdjustContainerTiles(adj, tileUsage, containerSplit[i]);
        i := i + 1;
      }
      assert containerSplit[..i] == containerSplit;
      nodeTileStatuses := nodeTileStatuses[nodeName := tileUsage];
    }

    method UpdateUsed(adj: bool, used: set<int>, indices: seq<int>) returns (after: set<int>)
      ensures after == if adj then used + TileSet(indices) else used - TileSet(indices)
    {
      after := used;
      var i := 0;
      while i < |indices|
        invariant 0 <= i <= |indices|
        invariant after == if adj then used + TileSet(indices[..i]) else used - TileSet(indices[..i])
      {
        assert TileSet(indices[..i + 1]) == TileSet(indices[..i]) + {indices[i]};
        after := if adj then after + {indices[i]} else after - {indices[i]};
        i := i + 1;
      }
      assert indices[..i] == indices;
    }

    /** blindAdjustResources on one card: the error is dropped. */
    method BlindAdjustResources(adj: bool, srcResMap: Resources, nodeName: string, cardName: string)
      requires nodeName in nodeStatuses
      modifies this`nodeStatuses
      ensures nodeStatuses == old(nodeStatuses)[nodeName := BlindCard(old(nodeStatuses)[nodeName], srcResMap, cardName, adj)]
    {
      var after, _ := AdjustOneCard(nodeStatuses[nodeName], srcResMap, cardName, adj);
      nodeStatuses := nodeStatuses[nodeName := after];
    }

    method BlindAdjustCards(adj: bool, request: Resources, nodeName: string, cardNames: seq<string>)
      requires nodeName in nodeStatuses
      requires AdjustCards(nodeStatuses[nodeName], request, cardNames, adj).Some?
      modifies this`nodeStatuses
      ensures nodeStatuses == old(nodeStatuses)[nodeName :=
                AdjustCards(old(nodeStatuses)[nodeName], request, cardNames, adj).value]
    {
      ghost var before := nodeStatuses[nodeName];
      ghost var node := before;
      var j := 0;
      while j < |cardNames|
        invariant 0 <= j <= |cardNames|
        invariant AdjustCards(before, request, cardNames[..j], adj) == Some(node)
        invariant nodeStatuses == old(nodeStatuses)[nodeName := node]
      {
        node := NoBlindError(before, request, cardNames, j, adj, node);
        BlindAdjustResources(adj, request, nodeName, cardNames[j]);
        j := j + 1;
      }
      assert cardNames[..j] == cardNames;
    }

    method BlindAdjustContainer(adj: bool, containerRequest: Resources, nodeName: string, csv: string)
      returns (err: Option<Error>)
      requires var a := ContainerAlloc(containerRequest, csv);
               AdjustCards(NodeStatus(State(), nodeName), a.share, a.cards, adj).Some?
      modifies this`nodeStatuses
      ensures err.None?
      ensures var a := ContainerAlloc(containerRequest, csv);
              nodeStatuses == if csv == "" then old(nodeStatuses) else old(nodeStatuses)[nodeName :=
                AdjustCards(NodeStatus(old(State()), nodeName), a.share, a.cards, adj).value]
    {
      err := None;
      var cardNames := Split(csv, ',');
      if |csv| == 0 {
        return;
      }
      var request := new ResourceMap(containerRequest);
      err := request.Divide(|cardNames|);
      if err.Some? {
        return;
      }
      if nodeName !in nodeStatuses {
        nodeStatuses := nodeStatuses[nodeName := map[]];
      }
      BlindAdjustCards(adj, request.amounts, nodeName, cardNames);
    }

    /** The real run, after the dry run has found no fault. */
    method BlindAdjustAll(adj: bool, containerRequests: seq<Resources>, nodeName: string, containerCards: seq<string>)
      returns (err: Option<Error>)
      requires |containerRequests| == |containerCards|
      requires AdjustAllocs(NodeStatus(State(), nodeName), Allocs(containerRequests, containerCards), adj).Some?
      modifies this`nodeStatuses
      ensures err.None?
      ensures nodeStatuses == WithStatus(old(nodeStatuses), nodeName, containerCards,
                AdjustAllocs(NodeStatus(old(State()), nodeName), Allocs(containerRequests, containerCards), adj).value)
    {
      ghost var allocs := Allocs(containerRequests, containerCards);
      ghost var start := NodeStatus(State(), nodeName);
      ghost var node := start;
      err := None;
      var index := 0;
      while index < |containerRequests|
        invariant 0 <= index <= |allocs| && err.None?
        invariant AdjustAllocs(start, allocs[..index], adj) == Some(node)
        invariant NodeStatus(State(), nodeName) == node
        invariant nodeStatuses == WithStatus(old(nodeStatuses), nodeName, containerCards[..index], node)
      {
        ghost var after := NoAllocFault(start, allocs, index, adj, node);
        WithStatusOneMore(old(nodeStatuses), nodeName, containerCards, index, node, after);
        assert allocs[index] == ContainerAlloc(containerRequests[index], containerCards[index]);
        err := BlindAdjustContainer(adj, containerRequests[index], nodeName, containerCards[index]);
        node := after;
        index := index + 1;
      }
      assert allocs[..index] == allocs && containerCards[..index] == containerCards;
    }

    /** Atomic: the dry run decides, an error changes nothing, and on success the blind run,
        which drops every error, ends with exactly the amounts of the dry run. */
    method AdjustPodResources(pod: Pod, adj: bool, annotation: string, tileAnnotation: string, nodeName: string)
      returns (err: Option<Error>)
      modifies this`annotatedPods, this`nodeStatuses, this`nodeTileStatuses
      ensures err.None? <==> Adjust(old(State()), pod, adj, annotation, tileAnnotation, nodeName).Some?
      ensures err.None? ==> Some(State()) == Adjust(old(State()), pod, adj, annotation, tileAnnotation, nodeName)
      ensures err.Some? ==> State() == old(State())
      ensures err == Some(ErrBadArgs) <==> BadArgs(Requests(pod), nodeName, Split(annotation, '|'))
      ensures err == Some(ErrBadArgs) || Arithmetic(err)
    {
      var containerRequests := Requests(pod);
      var containerCards := Split(annotation, '|');
      err := CheckPodResourceAdjustment(containerRequests, nodeName, containerCards, adj);
      if err.Some? {
        return;
      }
      err := BlindAdjustAll(adj, containerRequests, nodeName, containerCards);
      if err.Some? {
        return;
      }
      AdjustTiles(adj, nodeName, tileAnnotation);
      if adj {
        annotatedPods := annotatedPods[Key(pod) := annotation];
      } else {
        annotatedPods := annotatedPods - {Key(pod)};
      }
    }

    /** The informer worker. It reports an error exactly for an unknown action or a refused adjustment. */
    method HandlePod(item: WorkItem) returns (err: Option<Error>)
      modifies this
      ensures State() == Handled(old(State()), item)
      ensures (item.action.PodCompleted? || item.action.PodDeleted?) && Key(item.pod) in old(annotatedPods) ==>
        var released := Adjust(old(State()), item.pod, false, item.annotation, item.tileAnnotation, item.pod.nodeName);
        (err.None? <==> released.Some?) && State() == if released.Some? then released.value else old(State())
      ensures (item.action.PodAdded? || item.action.PodUpdated?) && Key(item.pod) !in old(annotatedPods) ==>
        var booked := Adjust(old(State()), item.pod, true, item.annotation, item.tileAnnotation, item.pod.nodeName);
        (err.None? <==> booked.Some?) && State() == if booked.Some? then booked.value else old(State())
      ensures item.action.PodCompleted? || item.action.PodDeleted? ==>
        Key(item.pod) !in old(annotatedPods) ==> State() == old(State()) && err.None?
      ensures item.action.PodAdded? || item.action.PodUpdated? ==>
        Key(item.pod) in old(annotatedPods) ==> State() == old(State()) && err.None?
      ensures item.action.OtherAction? ==> State() == old(State()) && err == Some(ErrUnknownAction)
      ensures err == Some(ErrUnknownAction) <==> item.action.OtherAction?
      ensures err.None? <==>
        !item.action.OtherAction? && (!Adjusts(old(State()), item) || AdjustmentOf(old(State()), item).Some?)
      ensures err == Some(ErrBadArgs) <==>
        Adjusts(old(State()), item) && BadArgs(Requests(item.pod), item.pod.nodeName, Split(item.annotation, '|'))
      ensures podDeschedStatuses ==
        match item.action
        case PodCompleted | PodDeleted => old(podDeschedStatuses) - {item.pod.name}
        case PodAdded => old(podDeschedStatuses)[item.pod.name := false]
        case _ => old(podDeschedStatuses)
    {
      err := None;
      if item.action.PodCompleted? || item.action.PodDeleted? {
        if Key(item.pod) in annotatedPods {
          err := AdjustPodResources(item.pod, false, item.annotation, item.tileAnnotation, item.pod.nodeName);
        }
        podDeschedStatuses := podDeschedStatuses - {item.pod.name};
      } else if item.action.PodAdded? || item.action.PodUpdated? {
        if item.action.PodAdded? {
          podDeschedStatuses := podDeschedStatuses[item.pod.name := false];
        }
        if Key(item.pod) !in annotatedPods {
          err := AdjustPodResources(item.pod, true, item.annotation, item.tileAnnotation, item.pod.nodeName);
        }
      } else {
        err := Some(ErrUnknownAction);
      }
    }
  }
}
