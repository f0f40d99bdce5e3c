/** What the planner of scheduler.go decides with: resource fit, eligible cards, Xe links,
    and the sums that relate its private copy to the allocations it plans. */
module Placement {
  import opened Text
  import opened ResourceArithmetic
  import opened Allocations
  import opened Annotations
  import opened Ordering

  const I915_PLUGIN := "gpu.intel.com/i915"
  const XE_PLUGIN := "gpu.intel.com/xe"
  const I915_MONITORING := "gpu.intel.com/i915_monitoring"
  const XE_MONITORING := "gpu.intel.com/xe_monitoring"
  const CARD_PREFIX := "card"

  /** A parsed identifier: digits that fit a Go int. */
  type Index = x: int | 0 <= x <= MAX_INT

  datatype Link = Link(device: Index, subdevice: Index, linkedDevice: Index, linkedSubdevice: Index)

  /** A node as the labels and the allow and deny lists present it for one pod. `links` are the parsed
      Xe links, `gpuNums` the numerically sorted GPU numbers, `disabled` the disabled and descheduled tiles. */
  datatype NodeInfo = NodeInfo(
    name: string,
    cards: seq<string>,
    allocatable: Resources,
    usable: set<string>,
    preferredCard: string,
    gpuNums: seq<string>,
    links: seq<Link>,
    disabled: map<string, seq<int>>,
    preferredTiles: map<string, seq<int>>)

  datatype Card = Card(gpuName: string, xeLinkedTileIds: seq<int>)

  function Names(cards: seq<Card>): (names: seq<string>)
    ensures |names| == |cards|
  {
    seq(|cards|, i requires 0 <= i < |cards| => cards[i].gpuName)
  }

  // ---- capacity ----

  function GpuResources(rm: Resources): Resources {
    map k | k in rm && HasPrefix(k, GPU_PREFIX) :: rm[k]
  }

  function PerGpuCapacity(node: NodeInfo): Resources {
    if |node.cards| == 0 then map[] else Share(GpuResources(node.allocatable), |node.cards|)
  }

  /** The most of a resource that may be in use on one card. */
  function CapOf(capacity: Resources, key: string): int {
    if key in capacity && capacity[key] > 0 then capacity[key] else 0
  }

  predicate FitsOne(need: int64, capacity: Resources, used: Resources, key: string) {
    && need >= 0
    && key in capacity && capacity[key] > 0
    && var u: int64 := if key in used then used[key] else 0;
       u >= 0 && WrapAdd(u, need) >= 0 && WrapAdd(u, need) <= capacity[key]
  }

  predicate Fits(needed: Resources, capacity: Resources, used: Resources) {
    forall k :: k in needed ==> FitsOne(needed[k], capacity, used, k)
  }

  /** The check with its overflow guard is the plain comparison, without any wrap-around. */
  lemma FitsExactly(needed: Resources, capacity: Resources, used: Resources)
    ensures Fits(needed, capacity, used) <==>
              forall k :: k in needed ==>
                needed[k] >= 0 && Amount(used, k) >= 0
                && CapOf(capacity, k) > 0 && Amount(used, k) + needed[k] <= CapOf(capacity, k)
  {
    forall k | k in needed
      ensures FitsOne(needed[k], capacity, used, k) <==>
                needed[k] >= 0 && Amount(used, k) >= 0
                && CapOf(capacity, k) > 0 && Amount(used, k) + needed[k] <= CapOf(capacity, k)
    {
    }
  }

  /** Room on a card, without division: every amount asked for is one of a GPU resource of the node, and as often as the
      node has cards, what the card would then use is within what the node has. */
  lemma RoomMeans(node: NodeInfo, share: Resources, used: Resources)
    ensures Fits(share, PerGpuCapacity(node), used) <==>
      forall k :: k in share ==>
        && share[k] >= 0 && Amount(used, k) >= 0
        && "gpu.intel.com/" <= k && k in node.allocatable && 1 <= |node.cards| <= node.allocatable[k]
        && (Amount(used, k) + share[k]) * |node.cards| <= node.allocatable[k]
  {
    var capacity, n := PerGpuCapacity(node), |node.cards|;
    FitsExactly(share, capacity, used);
    forall k | k in share
      ensures (share[k] >= 0 && Amount(used, k) >= 0
               && CapOf(capacity, k) > 0 && Amount(used, k) + share[k] <= CapOf(capacity, k))
          <==> (share[k] >= 0 && Amount(used, k) >= 0
                && "gpu.intel.com/" <= k && k in node.allocatable && 1 <= n <= node.allocatable[k]
                && (Amount(used, k) + share[k]) * n <= node.allocatable[k])
    {
      assert HasPrefix(k, GPU_PREFIX) <==> "gpu.intel.com/" <= k;
      if n >= 1 && k in node.allocatable && "gpu.intel.com/" <= k && node.allocatable[k] >= 0 {
        WithinQuotient(node.allocatable[k], n, 1);
        WithinQuotient(node.allocatable[k], n, Amount(used, k) + share[k]);
      }
    }
  }

  lemma WithinQuotient(total: int64, n: nat, x: int)
    requires n >= 1 && total >= 0
    ensures x <= Quotient(total, n) <==> x * n <= total
  {
    var q := Quotient(total, n);
    if x <= q {
      MoreTimes(x, q, n);
    } else {
      MoreTimes(q + 1, x, n);
      assert (q + 1) * n == n * q + n;
    }
  }

  lemma MoreTimes(a: int, b: int, n: nat)
    requires a <= b
    ensures a * n <= b * n
  {
    assert (b - a) * n >= 0;
    assert b * n == a * n + (b - a) * n;
  }

  /** The addition whose error the planner ignores cannot fail once the request fits. */
  lemma FittingAddSucceeds(needed: Resources, capacity: Resources, used: Resources)
    requires Fits(needed, capacity, used)
    ensures Sum(used, needed).Some?
  {
    forall k | k in needed ensures !AddFault(used, k, needed[k]) {
      assert FitsOne(needed[k], capacity, used, k);
    }
  }

  /** With every listed card within the per-GPU capacity, the node stays within its allocatable amount. */
  lemma {:induction false} NodeStaysWithinAllocatable(status: NodeResources, cards: set<string>, perCard: nat,
                                                      total: nat, n: nat, key: string)
    requires |cards| <= n && n * perCard <= total
    requires forall c :: c in cards ==> AmountAt(status, c, key) <= perCard
    ensures SumOverCards(status, cards, key) <= |cards| * perCard
    ensures SumOverCards(status, cards, key) <= total
    decreases |cards|
  {
    if cards != {} {
      var c :| c in cards && SumOverCards(status, cards, key) == SumOverCards(status, cards - {c}, key) + AmountAt(status, c, key);
      NodeStaysWithinAllocatable(status, cards - {c}, perCard, total, n, key);
      assert |cards| * perCard == (|cards| - 1) * perCard + perCard;
    }
    assert |cards| * perCard + (n - |cards|) * perCard == n * perCard;
    assert (n - |cards|) * perCard >= 0;
  }

  ghost function SumOverCards(status: NodeResources, cards: set<string>, key: string): int
    decreases |cards|
  {
    if cards == {} then 0
    else
      var c :| c in cards;
      SumOverCards(status, cards - {c}, key) + AmountAt(status, c, key)
  }

  // ---- requests ----

  function PluginName(request: Resources): string {
    if XE_PLUGIN in request && request[XE_PLUGIN] > 0 then XE_PLUGIN else I915_PLUGIN
  }

  function NumGpu(request: Resources): int {
    if Amount(request, PluginName(request)) > 0 then Amount(request, PluginName(request)) else 0
  }

  function PerGpuRequest(request: Resources): Resources {
    if NumGpu(request) > 1 then Share(request, NumGpu(request)) else request
  }

  /** How many GPUs a container asks for: of the xe plugin if it names any, else of the i915 plugin. */
  lemma GpusAsked(request: Resources)
    ensures var xe, i915 := Amount(request, "gpu.intel.com/xe"), Amount(request, "gpu.intel.com/i915");
      && (xe > 0 ==> NumGpu(request) == xe)
      && (xe <= 0 && i915 > 0 ==> NumGpu(request) == i915)
      && (xe <= 0 && i915 <= 0 ==> NumGpu(request) == 0)
  {
  }

  /** What each card is asked for: the GPUs times it is the request, up to a remainder of less than one per GPU, and each
      card is asked for one of the plugin's units. */
  lemma ShareAsked(request: Resources)
    ensures PerGpuRequest(request).Keys == request.Keys
    ensures NumGpu(request) > 0 ==> PerGpuRequest(request)[PluginName(request)] == 1
    ensures forall k :: k in request && request[k] >= 0 && NumGpu(request) >= 1 ==>
      var n, each := NumGpu(request), PerGpuRequest(request)[k]; n * each <= request[k] < n * each + n
    ensures NumGpu(request) == 0 ==> PerGpuRequest(request) == request
  {
    if NumGpu(request) > 1 {
      var n := NumGpu(request);
      WithinQuotient(n, n, 1);
      WithinQuotient(n, n, 2);
    }
  }

  // ---- eligible cards ----

  predicate Available(node: NodeInfo, gpuMap: set<string>, taken: set<string>, card: string) {
    card !in taken && card in gpuMap && card in node.usable
  }

  /** The cards that are listed, usable and have room for the share. */
  function Eligible(node: NodeInfo, capacity: Resources, used: NodeResources, share: Resources,
                    gpuMap: set<string>): set<string> {
    set c | c in used && Available(node, gpuMap, {}, c) && Fits(share, capacity, used[c])
  }

  /** The cards a share can go to. */
  lemma EligibleMeans(node: NodeInfo, used: NodeResources, share: Resources, gpuMap: set<string>, c: string)
    ensures c in Eligible(node, PerGpuCapacity(node), used, share, gpuMap) <==>
      && c in used && c in gpuMap && c in node.usable
      && forall k :: k in share ==>
           && share[k] >= 0 && AmountAt(used, c, k) >= 0
           && "gpu.intel.com/" <= k && k in node.allocatable && 1 <= |node.cards| <= node.allocatable[k]
           && (AmountAt(used, c, k) + share[k]) * |node.cards| <= node.allocatable[k]
  {
    if c in used {
      RoomMeans(node, share, used[c]);
    }
  }

  // ---- Xe links ----

  function DeviceIdFrom(gpuNums: seq<string>, card: string, i: nat): int
    requires i <= |gpuNums|
    decreases |gpuNums| - i
  {
    if i == |gpuNums| then -1
    else if CARD_PREFIX + gpuNums[i] == card then i
    else DeviceIdFrom(gpuNums, card, i + 1)
  }

  function DeviceId(node: NodeInfo, card: string): int { DeviceIdFrom(node.gpuNums, card, 0) }

  function DeviceName(node: NodeInfo, id: int): string {
    if id < 0 || id >= |node.gpuNums| || node.gpuNums[id] == "" then "" else CARD_PREFIX + node.gpuNums[id]
  }

  /** The tiles of a device that some link names, on either side. */
  function LinkedTiles(links: seq<Link>, id: int): set<int> {
    if links == [] then {}
    else
      var l := links[0];
      (if l.device == id then {l.subdevice} else if l.linkedDevice == id then {l.linkedSubdevice} else {})
      + LinkedTiles(links[1..], id)
  }

  /** Some link names the tile of the device, on either side. */
  predicate Linked(links: seq<Link>, id: int, tile: int) {
    id != -1
    && exists l :: l in links
         && ((l.device == id && l.subdevice == tile)
             || (l.device != id && l.linkedDevice == id && l.linkedSubdevice == tile))
  }

  /** getXeLinkedTiles. */
  function XeTiles(node: NodeInfo, card: string): set<int> {
    if DeviceId(node, card) == -1 then {} else LinkedTiles(node.links, DeviceId(node, card))
  }

  /** The first link that starts at the given tile. */
  function FindLink(links: seq<Link>, id: int, tile: int): Option<Link> {
    if links == [] then None
    else if links[0].device == id && links[0].subdevice == tile then Some(links[0])
    else FindLink(links[1..], id, tile)
  }

  function LinkedGpu(node: NodeInfo, card: string, tile: int): (string, int) {
    var id, none: int := DeviceId(node, card), -1;
    if id == -1 then ("", none)
    else
      match FindLink(node.links, id, tile)
      case Some(l) => var tile: int := l.linkedSubdevice; (DeviceName(node, l.linkedDevice), tile)
      case None => ("", none)
  }

  /** Links join different devices. */
  predicate NoSelfLinks(node: NodeInfo) {
    forall l :: l in node.links ==> DeviceName(node, l.device) != DeviceName(node, l.linkedDevice) || DeviceName(node, l.device) == ""
  }

  /** Two (card, tile) ends are the two ends of a link in the label. */
  predicate Joined(node: NodeInfo, a: string, tileA: int, b: string, tileB: int) {
    exists l :: l in node.links
      && l.subdevice == tileA && l.linkedSubdevice == tileB
      && DeviceId(node, a) == l.device && DeviceName(node, l.linkedDevice) == b
  }

  /** A tile of a device is linked exactly when some link starts there or, not starting at that device, ends there. */
  lemma {:induction false} LinkedTilesMeans(links: seq<Link>, id: int, t: int)
    ensures t in LinkedTiles(links, id) <==>
      exists l :: l in links
        && ((l.device == id && l.subdevice == t)
            || (l.device != id && l.linkedDevice == id && l.linkedSubdevice == t))
  {
    if links != [] {
      LinkedTilesMeans(links[1..], id, t);
      assert forall l :: l in links <==> l == links[0] || l in links[1..];
    }
  }

  /** So the tiles of a card that are linked are those which some link of the label names, on either side. */
  lemma XeTilesMean(node: NodeInfo, card: string, t: int)
    ensures t in XeTiles(node, card) <==> Linked(node.links, DeviceId(node, card), t)
  {
    LinkedTilesMeans(node.links, DeviceId(node, card), t);
  }

  /** The device of a card is the position of the first GPU number that makes its name. */
  lemma {:induction false} DeviceIdMeans(gpuNums: seq<string>, card: string, i: nat, id: int)
    requires i <= |gpuNums|
    ensures DeviceIdFrom(gpuNums, card, i) == id <==>
      if id == -1 then forall j :: i <= j < |gpuNums| ==> "card" + gpuNums[j] != card
      else i <= id < |gpuNums| && "card" + gpuNums[id] == card && forall j :: i <= j < id ==> "card" + gpuNums[j] != card
    decreases |gpuNums| - i
  {
    if i < |gpuNums| && "card" + gpuNums[i] != card {
      DeviceIdMeans(gpuNums, card, i + 1, id);
    }
  }

  /** The k-th link is the first one that starts at a tile of a device. */
  predicate FirstLinkAt(links: seq<Link>, id: int, tile: int, k: int) {
    && 0 <= k < |links| && links[k].device == id && links[k].subdevice == tile
    && forall j :: 0 <= j < k ==> !(links[j].device == id && links[j].subdevice == tile)
  }

  lemma {:induction false} FindLinkMeans(links: seq<Link>, id: int, tile: int)
    ensures forall k :: FirstLinkAt(links, id, tile, k) ==> FindLink(links, id, tile) == Some(links[k])
    ensures FindLink(links, id, tile).Some? ==> exists k :: FirstLinkAt(links, id, tile, k)
  {
    if links != [] {
      if links[0].device == id && links[0].subdevice == tile {
        assert FirstLinkAt(links, id, tile, 0);
        assert forall k :: FirstLinkAt(links, id, tile, k) ==> k == 0;
      } else {
        FindLinkMeans(links[1..], id, tile);
        forall k ensures FirstLinkAt(links, id, tile, k) <==> k >= 1 && FirstLinkAt(links[1..], id, tile, k - 1) {
          if FirstLinkAt(links, id, tile, k) {
            assert forall j :: 0 <= j < k - 1 ==> links[1..][j] == links[j + 1];
          }
          if k >= 1 && FirstLinkAt(links[1..], id, tile, k - 1) {
            assert forall j :: 1 <= j < k ==> links[j] == links[1..][j - 1];
          }
        }
        if FindLink(links, id, tile).Some? {
          var k :| FirstLinkAt(links[1..], id, tile, k);
          assert FirstLinkAt(links, id, tile, k + 1);
        }
      }
    }
  }

  /** From a tile of a card, the first link that starts there leads to its other end; without one there is none. */
  lemma LinkedGpuMeans(node: NodeInfo, card: string, tile: int)
    ensures forall k :: FirstLinkAt(node.links, DeviceId(node, card), tile, k) ==>
      LinkedGpu(node, card, tile) == (DeviceName(node, node.links[k].linkedDevice), node.links[k].linkedSubdevice as int)
    ensures (forall k :: !FirstLinkAt(node.links, DeviceId(node, card), tile, k)) ==> LinkedGpu(node, card, tile) == ("", -1)
  {
    FindLinkMeans(node.links, DeviceId(node, card), tile);
  }

  lemma {:induction false} LinkedTilesInRange(links: seq<Link>, id: int)
    ensures forall t :: t in LinkedTiles(links, id) ==> 0 <= t <= MAX_INT
  {
    if links != [] {
      LinkedTilesInRange(links[1..], id);
    }
  }

  lemma {:induction false} FoundLink(links: seq<Link>, id: int, tile: int)
    requires FindLink(links, id, tile).Some?
    ensures var l := FindLink(links, id, tile).value;
            l in links && l.device == id && l.subdevice == tile
  {
    if !(links[0].device == id && links[0].subdevice == tile) {
      FoundLink(links[1..], id, tile);
    }
  }

  lemma {:induction false} DeviceIdNames(gpuNums: seq<string>, card: string, i: nat)
    requires i <= |gpuNums|
    ensures var id := DeviceIdFrom(gpuNums, card, i);
            id != -1 ==> 0 <= id < |gpuNums| && CARD_PREFIX + gpuNums[id] == card
    decreases |gpuNums| - i
  {
    if i < |gpuNums| && CARD_PREFIX + gpuNums[i] != card {
      DeviceIdNames(gpuNums, card, i + 1);
    }
  }

  /** A linked card is joined to the card by a link and is a different card. */
  lemma LinkedGpuIsJoined(node: NodeInfo, card: string, tile: int)
    requires NoSelfLinks(node)
    ensures var (other, otherTile) := LinkedGpu(node, card, tile);
            other != "" ==> Joined(node, card, tile, other, otherTile) && other != card
  {
    var id := DeviceId(node, card);
    DeviceIdNames(node.gpuNums, card, 0);
    if id != -1 && FindLink(node.links, id, tile).Some? {
      FoundLink(node.links, id, tile);
      var l := FindLink(node.links, id, tile).value;
      assert Joined(node, card, tile, DeviceName(node, l.linkedDevice), l.linkedSubdevice);
    }
  }

  // ---- the planner's copy against the planned allocations ----

  /** The allocation a container gets from its list of cards; the booking side reads the same one
      back from the annotation. */
  function PlannedAlloc(request: Resources, cards: seq<Card>): Alloc {
    AllocFor(request, Names(cards))
  }

  function PlannedAllocs(requests: seq<Resources>, plan: seq<seq<Card>>): (allocs: seq<Alloc>)
    requires |requests| == |plan|
    ensures |allocs| == |requests|
  {
    seq(|requests|, i requires 0 <= i < |requests| => PlannedAlloc(requests[i], plan[i]))
  }

  /** Every amount either is as before or was checked against the capacity. */
  ghost predicate Bounded(before: NodeResources, after: NodeResources, capacity: Resources) {
    forall c, k :: AmountAt(after, c, k) == AmountAt(before, c, k) || AmountAt(after, c, k) <= CapOf(capacity, k)
  }

  ghost predicate NoLess(before: NodeResources, after: NodeResources) {
    forall c, k :: AmountAt(before, c, k) <= AmountAt(after, c, k)
  }

  lemma FittingCardAdd(used: NodeResources, share: Resources, card: string, capacity: Resources)
    requires card in used && Fits(share, capacity, used[card])
    ensures AdjustCard(used, share, card, true).Some?
    ensures var after := AdjustCard(used, share, card, true).value;
            after.Keys == used.Keys && Bounded(used, after, capacity) && NoLess(used, after)
            && forall c :: c in used && c != card ==> after[c] == used[c]
  {
    FittingAddSucceeds(share, capacity, used[card]);
    AddCardIsExact(used, share, card);
    FitsExactly(share, capacity, used[card]);
    var after := AdjustCard(used, share, card, true).value;
    forall c, k
      ensures AmountAt(after, c, k) == AmountAt(used, c, k) || AmountAt(after, c, k) <= CapOf(capacity, k)
      ensures AmountAt(used, c, k) <= AmountAt(after, c, k)
    {
      if c == card && k in share {
        assert Amount(used[card], k) + share[k] <= CapOf(capacity, k);
      }
    }
  }

  lemma CardsAppend(used: NodeResources, share: Resources, cards: seq<string>, card: string, adj: bool)
    ensures AdjustCards(used, share, cards + [card], adj)
         == var before := AdjustCards(used, share, cards, adj);
            if before.None? then None else AdjustCard(before.value, share, card, adj)
  {
    assert (cards + [card])[..|cards + [card]| - 1] == cards;
  }

  lemma ShareOfRequest(request: Resources, n: nat)
    requires n == NumGpu(request) && n >= 1
    ensures Share(request, n) == PerGpuRequest(request)
  {
    if n == 1 {
      ShareByOne(request);
    }
  }

  // ---- same-GPU containers ----

  /** The sum of one resource over the selected requests. */
  function SelectedSum(requests: seq<Resources>, selected: set<int>, key: string): int {
    if requests == [] then 0
    else SelectedSum(requests[..|requests| - 1], selected, key)
         + (if |requests| - 1 in selected then Amount(requests[|requests| - 1], key) else 0)
  }

  lemma {:induction false} SelectedSumOneMore(requests: seq<Resources>, selected: set<int>, i: int, key: string)
    requires 0 <= i < |requests| && i !in selected
    ensures SelectedSum(requests, selected + {i}, key) == SelectedSum(requests, selected, key) + Amount(requests[i], key)
  {
    var front := requests[..|requests| - 1];
    if i < |requests| - 1 {
      SelectedSumOneMore(front, selected, i, key);
    } else {
      SelectedSumOutside(front, selected, i, key);
    }
  }

  lemma {:induction false} SelectedSumOutside(requests: seq<Resources>, selected: set<int>, i: int, key: string)
    requires i >= |requests|
    ensures SelectedSum(requests, selected + {i}, key) == SelectedSum(requests, selected, key)
  {
    if requests != [] {
      SelectedSumOutside(requests[..|requests| - 1], selected, i, key);
    }
  }

  lemma {:induction false} SelectedSumNone(requests: seq<Resources>, key: string)
    ensures SelectedSum(requests, {}, key) == 0
  {
    if requests != [] {
      SelectedSumNone(requests[..|requests| - 1], key);
    }
  }

  /** Bounds on a sum whose selected terms are all between 0 and 1. */
  lemma {:induction false} SelectedSumCounts(requests: seq<Resources>, selected: set<int>, key: string, n: nat)
    requires n <= |requests|
    requires forall i :: i in selected && 0 <= i < |requests| ==> 0 <= Amount(requests[i], key) <= 1
    ensures var below := set i | i in selected && 0 <= i < n;
            && 0 <= SelectedSum(requests[..n], selected, key) <= |below|
            && (SelectedSum(requests[..n], selected, key) == |below| <==> forall i :: i in below ==> Amount(requests[i], key) == 1)
  {
    if n > 0 {
      SelectedSumCounts(requests, selected, key, n - 1);
      assert requests[..n][..n - 1] == requests[..n - 1];
      var below := set i | i in selected && 0 <= i < n;
      var less := set i | i in selected && 0 <= i < n - 1;
      if n - 1 in selected {
        assert below == less + {n - 1};
      } else {
        assert below == less;
      }
    }
  }

  /** The use of those allocations whose index is (or is not) selected. */
  function PartUse(allocs: seq<Alloc>, selected: set<int>, wanted: bool, card: string, key: string): int {
    if allocs == [] then 0
    else
      var last := allocs[|allocs| - 1];
      PartUse(allocs[..|allocs| - 1], selected, wanted, card, key)
      + (if (|allocs| - 1 in selected) == wanted then CardsUse(last.share, last.cards, card, key) else 0)
  }

  lemma {:induction false} UseIsBothParts(allocs: seq<Alloc>, selected: set<int>, card: string, key: string)
    ensures Use(allocs, card, key) == PartUse(allocs, selected, true, card, key) + PartUse(allocs, selected, false, card, key)
  {
    if allocs != [] {
      UseIsBothParts(allocs[..|allocs| - 1], selected, card, key);
    }
  }

  /** Containers that all get one card put the sum of their requests on it. */
  lemma {:induction false} SelectedUse(requests: seq<Resources>, allocs: seq<Alloc>, selected: set<int>, on: string,
                                       card: string, key: string)
    requires |requests| == |allocs|
    requires forall i :: 0 <= i < |allocs| && i in selected ==> allocs[i] == Alloc(requests[i], [on])
    ensures PartUse(allocs, selected, true, card, key) == if card == on then SelectedSum(requests, selected, key) else 0
  {
    if allocs != [] {
      var n := |allocs| - 1;
      SelectedUse(requests[..n], allocs[..n], selected, on, card, key);
      if n in selected {
        assert [on][..0] == [];
        assert CardsUse(requests[n], [on], card, key) == if card == on then Amount(requests[n], key) else 0;
      }
    }
  }

  lemma {:induction false} SelectedSumTerm(requests: seq<Resources>, selected: set<int>, i: int, key: string)
    requires 0 <= i < |requests|
    requires forall j :: j in selected && 0 <= j < |requests| ==> Amount(requests[j], key) >= 0
    ensures SelectedSum(requests, selected, key) >= 0
    ensures i in selected ==> Amount(requests[i], key) <= SelectedSum(requests, selected, key)
  {
    var n := |requests| - 1;
    if i < n {
      SelectedSumTerm(requests[..n], selected, i, key);
    } else if n > 0 {
      SelectedSumTerm(requests[..n], selected, 0, key);
    }
  }

  lemma {:induction false} SelectedSumGrows(requests: seq<Resources>, some: set<int>, all: set<int>, key: string)
    requires some <= all
    requires forall i :: i in all && 0 <= i < |requests| ==> Amount(requests[i], key) >= 0
    ensures SelectedSum(requests, some, key) <= SelectedSum(requests, all, key)
  {
    if requests != [] {
      SelectedSumGrows(requests[..|requests| - 1], some, all, key);
    }
  }

  /** Whether the listed requests can be added up at all. */
  ghost predicate Combinable(requests: seq<Resources>, selected: set<int>)
    requires forall i :: i in selected ==> 0 <= i < |requests|
  {
    && (forall i :: i in selected ==> NonNegative(requests[i]))
    && forall k :: SelectedSum(requests, selected, k) <= MAX_INT64
  }

  /** The sum of the listed requests, with one plugin unit in place of their plugin resource. */
  ghost predicate CombinedWell(combined: Resources, requests: seq<Resources>, selected: set<int>) {
    && Amount(combined, PluginName(combined)) == 1
    && forall k :: k != PluginName(combined) ==> Amount(combined, k) == SelectedSum(requests, selected, k)
  }

  /** What sanitizeSamegpuResourcesRequest asks of a same-GPU container. */
  predicate SameGpuRequest(request: Resources) {
    && TILES !in request && I915_MONITORING !in request && XE_MONITORING !in request
    && NumGpu(request) == 1
  }

  predicate OnePluginType(requests: seq<Resources>, selected: set<int>) {
    forall i, j :: i in selected && j in selected && 0 <= i < |requests| && 0 <= j < |requests| ==>
      PluginName(requests[i]) == PluginName(requests[j])
  }

  ghost predicate SumsTo(rm: Resources, requests: seq<Resources>, selected: set<int>) {
    forall k :: Amount(rm, k) == SelectedSum(requests, selected, k)
  }

  /** Counting one plugin unit per listed container never counts too little, and counts exactly
      right when the containers use one plugin type. */
  lemma PluginUnits(requests: seq<Resources>, selected: set<int>, sum: Resources)
    requires selected != {} && forall i :: i in selected ==> 0 <= i < |requests|
    requires forall i :: i in selected ==> SameGpuRequest(requests[i]) && NonNegative(requests[i])
    requires SumsTo(sum, requests, selected)
    ensures SelectedSum(requests, selected, PluginName(sum)) <= |selected|
    ensures OnePluginType(requests, selected) <==> SelectedSum(requests, selected, PluginName(sum)) == |selected|
  {
    var n := |requests|;
    assert requests[..n] == requests;
    assert selected == set i | i in selected && 0 <= i < n;
    SelectedSumCounts(requests, selected, XE_PLUGIN, n);
    assert Amount(sum, XE_PLUGIN) == SelectedSum(requests, selected, XE_PLUGIN);
    var some :| some in selected;
    if PluginName(sum) == XE_PLUGIN {
      if forall i :: i in selected ==> Amount(requests[i], XE_PLUGIN) == 0 {
        assert forall i :: i in selected ==> Amount(requests[i], XE_PLUGIN) <= 0;
        SumOfZeros(requests, selected, XE_PLUGIN);
        assert false;
      }
    } else {
      forall i | i in selected ensures Amount(requests[i], XE_PLUGIN) == 0 {
        SelectedSumTerm(requests, selected, i, XE_PLUGIN);
      }
      SelectedSumCounts(requests, selected, I915_PLUGIN, n);
    }
  }

  lemma {:induction false} SumOfZeros(requests: seq<Resources>, selected: set<int>, key: string)
    requires forall i :: i in selected && 0 <= i < |requests| ==> Amount(requests[i], key) == 0
    ensures SelectedSum(requests, selected, key) == 0
  {
    if requests != [] {
      SumOfZeros(requests[..|requests| - 1], selected, key);
    }
  }

  /** What every attempt does to the planner's copy, failed ones included. */
  ghost predicate Grown(before: NodeResources, after: NodeResources, capacity: Resources) {
    after.Keys == before.Keys && Bounded(before, after, capacity) && NoLess(before, after)
  }

  lemma NamesAppend(cards: seq<Card>, card: Card)
    ensures Names(cards + [card]) == Names(cards) + [card.gpuName]
  {
  }

  lemma BoundedTwice(a: NodeResources, b: NodeResources, c: NodeResources, capacity: Resources)
    requires Bounded(a, b, capacity) && Bounded(b, c, capacity) && NoLess(a, b) && NoLess(b, c)
    ensures Bounded(a, c, capacity) && NoLess(a, c)
  {
    forall x, k
      ensures AmountAt(c, x, k) == AmountAt(a, x, k) || AmountAt(c, x, k) <= CapOf(capacity, k)
      ensures AmountAt(a, x, k) <= AmountAt(c, x, k)
    {
      assert AmountAt(b, x, k) == AmountAt(a, x, k) || AmountAt(b, x, k) <= CapOf(capacity, k);
      assert AmountAt(a, x, k) <= AmountAt(b, x, k);
      assert AmountAt(b, x, k) <= AmountAt(c, x, k);
    }
  }

  predicate Listed(node: NodeInfo, before: NodeResources, gpuMap: set<string>, card: string) {
    card in before && card in gpuMap && card in node.usable
  }
}
