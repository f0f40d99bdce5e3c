# Verified model of Platform Aware Scheduling

This project models the two stateful components of Platform Aware Scheduling and proves what they keep.

**GPU Aware Scheduling (GAS)** gives the containers of a pod GPU cards and tiles of a node.
`bindNode` reads a copy of the node's per-card usage, plans cards for every container (first fit, balanced,
preferred card, same GPU, NUMA groups, Xe-linked pairs), picks tile indices, prints both as annotation strings and
books them in the shared `Cache`. The cache parses the strings again, divides the requests again, tries the
adjustment on a copy and then commits it. An informer worker books and releases the same pods under another lock.

**Telemetry Aware Scheduling (TAS)** keeps policies. A controller counts which metrics the live rules use and
registers their strategies; enforcement turns metric violations into JSON Patch operations (RFC 6902, sections 4.1
to 4.3, with paths as in section 3 of RFC 6901) on the labels of the nodes.

## Files

| file | what it holds |
|---|---|
| `Text.dfy` | split, join, integer printing and parsing, with their round trips |
| `ResourceMap.dfy` | 64-bit resource arithmetic and the class `ResourceMap` |
| `Allocations.dfy` | adding and subtracting a pod's shares on a node, and when that is exact |
| `Annotations.dfy` | what the booking side reads from a pod and its two annotations |
| `NodeResourceCache.dfy` | the ledger as a value, its adjustment, and the class `Cache` that implements it |
| `Accounting.dfy` | runs of bookings and releases: the ledger is a sum |
| `Lifecycle.dfy` | what the informer's events do to a pod's booking; that completed pods give everything back |
| `Rollbacks.dfy` | what a rollback leaves behind, with and without other pods' steps in between |
| `Ordering.dfy` | the orders in which cards are tried |
| `Placement.dfy` | nodes, per-GPU capacity, eligible cards, Xe links |
| `TilePlacement.dfy` | used, disabled and preferred tiles; printing and reading back |
| `FirstFit.dfy` | first fit as a definition: the order of the cards, the placement of a pod, and when there is none |
| `Leftovers.dfy` | what failed groups leave in the copy: when its growth is the planned use, and when a pod is refused |
| `XeSearch.dfy` | what planning a pod with Xe links may come to, as a relation over the states of the copy |
| `SharedGpu.dfy`, `XeLinks.dfy`, `PodPlans.dfy`, `AnnotationPrinting.dfy` | what the planner's steps keep: one card for several containers, linked pairs, whole plans, the printed tiles |
| `Scheduler.dfy` | the planner as the class `Extender` over a private copy |
| `Binding.dfy` | `bindNode`, alone and as a step system next to the informer |
| `DescheduledTiles.dfy` | the second reader of the tile annotation |
| `Strategies.dfy`, `LabelPatch.dfy` | rules and when a node violates them; JSON patches on labels |
| `Labeling.dfy`, `LabelingStatus.dfy`, `LabelingEnforcement.dfy`, `LabelingConvergence.dfy`, `LabelingClashes.dfy`, `LabelingCleanup.dfy` | the labeling strategy: violated rules, the min/max filter, patches, convergence, which policies can clash, deletion |
| `Deschedule.dfy` | the deschedule strategy |
| `MetricCache.dfy` | metric counts, the store loop, interleavings |
| `StrategyRegistry.dfy`, `PolicyController.dfy`, `PolicyRuns.dfy`, `MetricData.dfy` | the registry, the event handlers, runs of policy events, and which metrics keep their data in them |

The main results are `Binding.SafeInEveryState`, `Binding.BindNode`, `Accounting.LedgerIsTheSum`, `Lifecycle.AllCompleted`,
`Rollbacks.RollbackAmongOthers`, `NodeResourceCache.Cache.AdjustPodResources`,
`Scheduler.Extender.CheckForSpaceAndRetrieveCards`, `Leftovers.GrowsExactly`, `LabelingConvergence.ConvergesExactly`,
`XeSearch.PairMeans`, `Deschedule.OneRoundConverges`, `PolicyRuns.RunKeepsInStep` and `MetricData.EventData`.

## Where the code does less than its comments say

Each of these is kept in the model as the code has it, with the exact condition proved.

- A bare delete event carries empty annotations (`node_resource_cache.go:695-702`), so it releases nothing:
  `Accounting.BareDeleteReleasesNothing`. Runs lose bookings exactly on such deletes of counted pods
  (`Accounting.LeaksExactlyOnBareDelete`), and without them the ledger is exactly the sum of the counted pods.
- Booking a counted pod again counts it twice, unless it uses nothing: `Accounting.RebookingDoubleCounts`.
- Nothing guards a rollback either. If the pod has been released in the meantime (the bind call reports an error
  after it took effect, and the pod completes), the release is accepted again and takes other pods' use:
  the accounts still agree if and only if the node has nothing of what is taken (`Accounting.ReleasingUncounted`),
  which fails as soon as another pod with the same shares is counted there (`Rollbacks.LateRollbackTakesFromOthers`).
  For a bind in a steady run the condition is `Binding.LateErrorIsSafeIff`.
- One round of labeling is not always enough, because a changed value is replaced and then removed by the same
  patch: `LabelingEnforcement.OneRoundSuffices`, `LabelingEnforcement.ChangedLabelVanishesFirst`.
- With several labels per rule the min/max filter keeps rules, not labels, so two values of one label name can be
  asked for at once. Such a node is patched in every round, and only such a node
  (`LabelingConvergence.ConvergesExactly`; an example is `LabelingConvergence.TwoLabelsNeverSettle`). It cannot happen
  unless a policy has two rules that give a label name different values and are one rule, or have one operator and do
  not set the same names (`LabelingConvergence.CompatibleRulesNeverClash`); for policies whose rules have metrics of
  their own, some metrics then make it happen (`LabelingClashes.ClashesExactly`).
- A strategy without rules equals nothing, not even itself, so it is registered again by each add and never removed:
  `StrategyRegistry.WithoutRulesStays`. The runs of `PolicyRuns` exclude such strategies
  (`PolicyRuns.ProperStrategy`).
- A policy update that drops a strategy type leaves that strategy registered and its metrics counted:
  `PolicyRuns.UpdateIsExactIff`.
- An update removes the old strategy before it adds the new one (`controller.go:164-198`), so a metric whose only
  references are those of the strategy being replaced loses its data until the next refresh, although it is still used:
  exactly the metrics that are unused at some moment of the update (`MetricData.EventData`), which for a policy of one
  strategy are those that no other policy uses (`MetricData.OneStrategyLosesData`; an input is
  `MetricData.UpdateForgets`).
- Links are followed from their first end only, and of several links that start at one tile only the first
  (`utils.go:440-462`); which pairs exist is `XeSearch.PairMeans`.
- The number of violations that descheduling reports counts the registered policies a node does *not* violate
  (`deschedule/enforce.go:175-183`): `Deschedule.UpdateNode`. It is the number of violations if and only if half of the
  policies are violated over all nodes (`Deschedule.ReportedIsViolatedIff`); one violation can be reported as none
  (`Deschedule.OneViolationReportedAsNone`).
- In labeling only the last label of a policy can report that it is malformed (`labeling/enforce.go:153-160`):
  `LabelingEnforcement.NodePayload`.
- A failed NUMA group leaves its partial use in the planner's copy (`scheduler.go:947-963`), so the copy can
  over-estimate use. For a pod placed without Xe links the copy grows by exactly the planned use if and only if the
  containers that share a card use one plugin type and, for every other container, each group before the first one with
  enough eligible cards has no eligible card at all (`Leftovers.GrowsExactly`). An input for which it grows by more is
  `Leftovers.FirstGroupKeepsAShare`.

## Model

| member | source | states |
|---|---|---|
| ResourceArithmetic.SumIsExact | gpu-aware-scheduling/pkg/gpuscheduler/resource_map.go:41-101 | when adding a map succeeds, every amount, a missing key counting as 0, is the mathematical sum: no 64-bit wrap-around gets through |
| ResourceArithmetic.SumFailsExactly | gpu-aware-scheduling/pkg/gpuscheduler/resource_map.go:41-101 | on non-negative maps adding fails exactly when some key's true sum exceeds the 64-bit maximum |
| ResourceArithmetic.DifferenceIsCapped | gpu-aware-scheduling/pkg/gpuscheduler/resource_map.go:61-130 | subtracting gives each key the difference capped at 0, and fails exactly on a missing key or a negative input |
| ResourceArithmetic.DifferenceUndoesSum | gpu-aware-scheduling/pkg/gpuscheduler/resource_map.go:41-130 | subtracting what was added never fails, never meets the cap and restores every amount |
| ResourceArithmetic.QuotientBounds | gpu-aware-scheduling/pkg/gpuscheduler/resource_map.go:132-148 | the quotient of a division is the floor on non-negative amounts: times the divider it never exceeds the amount |
| ResourceArithmetic.ResourceMap.AddRM | gpu-aware-scheduling/pkg/gpuscheduler/resource_map.go:41-56 | copy-then-commit: the map becomes the sum in whatever order the keys are visited, or on a fault does not change at all |
| ResourceArithmetic.ResourceMap.SubtractRM | gpu-aware-scheduling/pkg/gpuscheduler/resource_map.go:61-76 | the map becomes the capped difference, or on a fault does not change |
| ResourceArithmetic.ResourceMap.Add | gpu-aware-scheduling/pkg/gpuscheduler/resource_map.go:80-101 | one key: which error is returned for a negative value or an overflow, and the new map otherwise |
| ResourceArithmetic.ResourceMap.Subtract | gpu-aware-scheduling/pkg/gpuscheduler/resource_map.go:106-130 | one key: which error is returned, and the value capped at 0 otherwise |
| ResourceArithmetic.ResourceMap.Divide | gpu-aware-scheduling/pkg/gpuscheduler/resource_map.go:132-148 | divides every amount, truncating, or reports a divider below 1 and changes nothing |
| Allocations.BookingIsExact | gpu-aware-scheduling/pkg/gpuscheduler/node_resource_cache.go:304-347 | booking a pod's containers adds to each card and resource exactly the shares listed for it, also when a card is listed several times |
| Allocations.BookingSucceedsExactly | gpu-aware-scheduling/pkg/gpuscheduler/node_resource_cache.go:304-347 | booking is refused exactly when a share is negative or some card's true total overflows 64 bits |
| Allocations.ReleaseIsExact | gpu-aware-scheduling/pkg/gpuscheduler/node_resource_cache.go:304-347 | releasing what is present succeeds and subtracts exactly the shares, never reaching the cap at zero |
| Allocations.ReleaseIsCapped | gpu-aware-scheduling/pkg/gpuscheduler/node_resource_cache.go:304-347 | any accepted release, of whatever data, lowers each amount by the shares listed for it but not below zero |
| Allocations.ReleaseUndoesBooking | gpu-aware-scheduling/pkg/gpuscheduler/node_resource_cache.go:304-347 | a release after its booking succeeds and restores every amount of the node |
| Annotations.AdjustEntriesByCard | gpu-aware-scheduling/pkg/gpuscheduler/node_resource_cache.go:366-412 | a tile annotation adds to (or removes from) each card's used tiles exactly the indices it names for that card |
| Annotations.ContainerTakes | gpu-aware-scheduling/pkg/gpuscheduler/utils.go:52-68 | a booked container takes from a card, for every time the card is listed, the request of each GPU resource divided by the number of cards listed, and nothing of other resources |
| Annotations.KeysDiffer | gpu-aware-scheduling/pkg/gpuscheduler/node_resource_cache.go:815-817 | pods have the same key if and only if they have the same namespace and name |
| Annotations.TileIndexMeans | gpu-aware-scheduling/pkg/gpuscheduler/node_resource_cache.go:349-362 | a tile name counts if and only if it is "gt" and a number that is not negative |
| Annotations.GpuEntryMeans | gpu-aware-scheduling/pkg/gpuscheduler/node_resource_cache.go:366-412 | a part of a tile annotation names tiles of a card if and only if it has exactly one colon |
| NodeResourceCache.Cache.GetNodeResourceStatus | gpu-aware-scheduling/pkg/gpuscheduler/node_resource_cache.go:858-875 | returns the node's amounts as a copy and changes nothing |
| NodeResourceCache.Cache.GetNodeTileStatus | gpu-aware-scheduling/pkg/gpuscheduler/node_resource_cache.go:841-855 | returns the node's used tiles as a copy |
| NodeResourceCache.Cache.CheckPodResourceAdjustment | gpu-aware-scheduling/pkg/gpuscheduler/node_resource_cache.go:292-347 | the dry run passes exactly when the arguments are well formed and the whole adjustment is possible on the present amounts |
| NodeResourceCache.Cache.AdjustTiles | gpu-aware-scheduling/pkg/gpuscheduler/node_resource_cache.go:366-412 | replaces one node's used tiles by those after the annotation's entries, other nodes untouched |
| NodeResourceCache.Cache.BlindAdjustAll | gpu-aware-scheduling/pkg/gpuscheduler/node_resource_cache.go:414-465 | after a passed dry run none of the discarded errors is set and the node's amounts become those the dry run computed |
| NodeResourceCache.Cache.AdjustPodResources | gpu-aware-scheduling/pkg/gpuscheduler/node_resource_cache.go:424-478 | atomic: an error leaves every field as it was, success moves all three maps together to the adjusted ledger |
| NodeResourceCache.Cache.HandlePod | gpu-aware-scheduling/pkg/gpuscheduler/node_resource_cache.go:1072-1123 | a completed or deleted pod that is counted is released, an added or updated one that is not is booked, each exactly as far as the adjustment is possible, with an error reported exactly when it is not; in every other case the ledger stays as it is, and an unknown action is an error; the pod's descheduling flag is set or dropped |
| Lifecycle.EventsHandled | gpu-aware-scheduling/pkg/gpuscheduler/node_resource_cache.go:601-704 | what the ledger is after the add, update and delete event of a pod: booked or released with the pod's own annotations, released with none, or unchanged, by annotation, completion and whether it is counted |
| Lifecycle.CompletionReleases | gpu-aware-scheduling/pkg/gpuscheduler/node_resource_cache.go:1084-1097 | a completed pod that is counted is forgotten and every amount falls by exactly what it was booked with; a completion of another pod changes nothing |
| Lifecycle.AllCompleted | gpu-aware-scheduling/pkg/gpuscheduler/node_resource_cache.go:601-704 | after any run, once every counted pod has completed with its own data, in any order and with repeats, no pod is counted and every amount is what bare deletes leaked: 0 if none dropped a counted pod |
| NodeResourceCache.StatusAfter | gpu-aware-scheduling/pkg/gpuscheduler/node_resource_cache.go:424-478 | on the adjusted node the amounts, and whether the adjustment is possible at all, are those of the pure adjustment of its cards |
| NodeResourceCache.StatusElsewhere | gpu-aware-scheduling/pkg/gpuscheduler/node_resource_cache.go:424-478 | an adjustment changes neither amounts nor tiles of any other node |
| Accounting.BookKeepsAccounts | gpu-aware-scheduling/pkg/gpuscheduler/node_resource_cache.go:424-478 | an accepted booking keeps the ledger equal to the sum of the counted pods' contributions |
| Accounting.ReleaseOfBooked | gpu-aware-scheduling/pkg/gpuscheduler/node_resource_cache.go:424-478 | a release with the data of its booking is never refused and lowers every amount by exactly that booking, whatever was booked or released in between |
| Accounting.ReleaseKeepsAccounts | gpu-aware-scheduling/pkg/gpuscheduler/node_resource_cache.go:424-478 | such a release keeps the ledger equal to the sum of the remaining contributions |
| Accounting.BareDeleteReleasesNothing | gpu-aware-scheduling/pkg/gpuscheduler/node_resource_cache.go:661-704 | a delete with empty annotations, if it is not refused, changes no amount and no tile and only forgets the pod |
| Accounting.BareDeleteKeepsAccounts | gpu-aware-scheduling/pkg/gpuscheduler/node_resource_cache.go:661-704 | after a bare delete the ledger is still the sum, counting the dropped booking among the leaked ones |
| Accounting.StepKeepsAccounts | gpu-aware-scheduling/pkg/gpuscheduler/node_resource_cache.go:1072-1123 | every bind, rollback and informer step keeps the ledger equal to counted plus leaked contributions, a rollback of a released pod included when it is refused or takes nothing |
| Accounting.RunKeepsAccounts | gpu-aware-scheduling/pkg/gpuscheduler/node_resource_cache.go:1072-1123 | exactly-once accounting in every state of every run, however adds, updates, completions, binds and rollbacks of one pod repeat |
| Accounting.EventsAreFaithful | gpu-aware-scheduling/pkg/gpuscheduler/node_resource_cache.go:601-704 | the work items built by the three informer events meet what the runs rely on if and only if completed pods still carry the annotations they were booked with |
| Accounting.LeaksExactlyOnBareDelete | gpu-aware-scheduling/pkg/gpuscheduler/node_resource_cache.go:695-702 | a step adds a leaked booking if and only if it is a bare delete that drops a counted pod's booking |
| Accounting.LedgerIsTheSum | gpu-aware-scheduling/pkg/gpuscheduler/node_resource_cache.go:601-704 | over runs without such deletes the ledger is exactly the sum of the contributions of the counted pods |
| Accounting.RebookingDoubleCounts | gpu-aware-scheduling/pkg/gpuscheduler/node_resource_cache.go:424-478 | booking a counted pod again breaks the sum if and only if the pod uses something |
| Accounting.ReleasingUncounted | gpu-aware-scheduling/pkg/gpuscheduler/node_resource_cache.go:424-478 | an accepted release of a pod that is not counted keeps the sum if and only if the node has nothing of what it takes |
| Rollbacks.RollbackRestores | gpu-aware-scheduling/pkg/gpuscheduler/scheduler.go:1305-1353 | a rollback right after its booking is never refused and restores every amount, and a tile set exactly when the booked tiles were not in use before |
| Rollbacks.RollbackAmongOthers | gpu-aware-scheduling/pkg/gpuscheduler/scheduler.go:1305-1353 | after steps of other pods, those included that are refused with and without the booking, the rollback of a booking is still accepted, and every amount, the counted pods and the leaked bookings are what those other steps alone would have given |
| Rollbacks.RollbackAmongOthersTiles | gpu-aware-scheduling/pkg/gpuscheduler/scheduler.go:1305-1353 | so is every tile set, when the booked tiles were free and the other steps keep away from them |
| Rollbacks.LateRollbackTakesFromOthers | gpu-aware-scheduling/pkg/gpuscheduler/node_resource_cache.go:424-478 | a rollback after its pod's release is accepted and breaks the sum whenever another pod with the same shares is counted on the node |
| Ordering.SortNames | gpu-aware-scheduling/pkg/gpuscheduler/scheduler.go:407-419 | all card names of the map, each once, in lexicographic order |
| Ordering.LexMeans | gpu-aware-scheduling/pkg/gpuscheduler/scheduler.go:407-419 | one name comes before another if and only if it is its beginning or has the smaller character where they first differ |
| Ordering.ArrangePerAvailability | gpu-aware-scheduling/pkg/gpuscheduler/scheduler.go:391-405 | the same names with the amount of the balanced resource in use never falling along the list, and names in order among equal amounts |
| Ordering.MovePreferredToFront | gpu-aware-scheduling/pkg/gpuscheduler/scheduler.go:378-388 | the preferred card, if present, changes places with the first one; every other card stays where it is |
| Placement.FitsExactly | gpu-aware-scheduling/pkg/gpuscheduler/scheduler.go:1169-1211 | the wrap-around comparison accepts a request exactly when each true sum of used and needed is within capacity and nothing is negative |
| Placement.RoomMeans | gpu-aware-scheduling/pkg/gpuscheduler/scheduler.go:220-258 | a share fits on a card if and only if each amount asked for is one of a GPU resource of the node, nothing is negative, and the number of cards times what would be in use is at most what the node has |
| Placement.EligibleMeans | gpu-aware-scheduling/pkg/gpuscheduler/scheduler.go:682-720 | the cards a share can go to: listed, usable, and with that room |
| Placement.GpusAsked | gpu-aware-scheduling/pkg/gpuscheduler/scheduler.go:275-289 | how many GPUs a request asks for: of the xe plugin if it names any, else of the i915 plugin, else none |
| Placement.ShareAsked | gpu-aware-scheduling/pkg/gpuscheduler/scheduler.go:260-273 | each card is asked for one plugin unit and for the GPU's part of every other amount, rounded down |
| Placement.FittingAddSucceeds | gpu-aware-scheduling/pkg/gpuscheduler/scheduler.go:667-727 | after a card passed the check, the ignored error of adding the request to it cannot occur |
| Placement.NodeStaysWithinAllocatable | gpu-aware-scheduling/pkg/gpuscheduler/scheduler.go:241-258 | cards within the divided capacity together stay within the node's allocatable amount |
| Placement.LinkedGpuIsJoined | gpu-aware-scheduling/pkg/gpuscheduler/utils.go:440-484 | the card and tile found across a link really are the other end of a link in the node's label |
| Placement.LinkedGpuMeans | gpu-aware-scheduling/pkg/gpuscheduler/utils.go:440-462 | from a tile the first link that starts there leads to its other end, and without one there is none |
| Placement.DeviceIdMeans | gpu-aware-scheduling/pkg/gpuscheduler/utils.go:464-474 | the device of a card is the position of the first GPU number that makes its name, or -1 |
| Placement.XeTilesMean | gpu-aware-scheduling/pkg/gpuscheduler/utils.go:364-395 | a tile of a card is linked if and only if some link of the label names it, on either side |
| Placement.UseIsBothParts | gpu-aware-scheduling/pkg/gpuscheduler/scheduler.go:908-973 | a plan's use is the use of its same-GPU containers plus that of the others |
| Placement.PluginUnits | gpu-aware-scheduling/pkg/gpuscheduler/scheduler.go:765-782 | the same-GPU containers together use at most one plugin unit each, and exactly one each if and only if they use one plugin type |
| FirstFit.FirstOfIs | gpu-aware-scheduling/pkg/gpuscheduler/scheduler.go:378-419 | the card that no other candidate precedes is the only first one: the order of names, the swap of the preferred card and the order by use are total orders |
| FirstFit.FirstIsLeastUsed | gpu-aware-scheduling/pkg/gpuscheduler/scheduler.go:391-405 | with a balanced resource the card tried first has the least of it in use, and the least name among those |
| FirstFit.FirstIsPreferredOrLeast | gpu-aware-scheduling/pkg/gpuscheduler/scheduler.go:378-388 | without one it is the preferred card, or else the least name, where the least name of all and the preferred card have changed places |
| FirstFit.SwapArranges | gpu-aware-scheduling/pkg/gpuscheduler/scheduler.go:378-388 | sorting and then exchanging the first name with the preferred card gives the order in which those two have changed places |
| FirstFit.PlaceCardsSucceeds | gpu-aware-scheduling/pkg/gpuscheduler/scheduler.go:667-727 | a container is placed if and only if there are at least as many eligible cards at the start as GPUs requested, whatever the order in which they are taken |
| Leftovers.PlacedExactly | gpu-aware-scheduling/pkg/gpuscheduler/scheduler.go:908-973 | a pod is placed if and only if some card can be shared by the same-GPU containers and every other container finds, on the copy the ones before it left, a group with enough eligible cards after what its failed groups took |
| SharedGpu.ShareableMeans | gpu-aware-scheduling/pkg/gpuscheduler/scheduler.go:975-1021 | a card can be shared if and only if it is listed, usable and has room for as many plugin units as there are containers and for the sum of everything else, no more than that |
| Leftovers.PlaceCardsAdds | gpu-aware-scheduling/pkg/gpuscheduler/scheduler.go:667-727 | an attempt, failed or not, adds exactly the shares of the cards it placed and touches no card outside its group |
| Leftovers.GroupsAdd | gpu-aware-scheduling/pkg/gpuscheduler/scheduler.go:940-970 | the groups of a container together add at least the shares of the cards placed, and exactly those if and only if every group before the first with enough eligible cards has none at all |
| Leftovers.GrowsExactly | gpu-aware-scheduling/pkg/gpuscheduler/scheduler.go:908-973 | for a pod that is placed the copy grows by exactly the planned use if and only if that holds for every container of its own and the same-GPU containers use one plugin type |
| Leftovers.OneGroupIsClean | gpu-aware-scheduling/pkg/gpuscheduler/scheduler.go:940-970 | with one group of cards that is so if and only if the same-GPU containers use one plugin type |
| Leftovers.FirstGroupKeepsAShare | gpu-aware-scheduling/pkg/gpuscheduler/scheduler.go:947-963 | on three empty cards a two-GPU request over the groups {card0}, {card1, card2} is placed and the copy grows by more than its use |
| FirstFit.StartCounts | gpu-aware-scheduling/pkg/gpuscheduler/scheduler.go:851-906 | the copy that planning starts with is nowhere below the amounts read, differs from them in tiles only, and counts every unavailable tile that cannot overflow |
| FirstFit.StartIsExact | gpu-aware-scheduling/pkg/gpuscheduler/scheduler.go:754-763 | the tiles planning starts with on a card are those read plus the unavailable ones, or those read when the sum does not fit in 64 bits |
| Scheduler.Extender.CheckResourceCapacity | gpu-aware-scheduling/pkg/gpuscheduler/scheduler.go:1169-1211 | the loop over the request decides exactly the fit that Placement.FitsExactly characterises |
| Scheduler.Extender.FitOne | gpu-aware-scheduling/pkg/gpuscheduler/scheduler.go:682-720 | picks the first eligible card not yet taken in the order of FirstFit, with a balanced resource one that has the least of it in use, books the request on it, and fails only when none is left |
| Scheduler.Extender.GetCards | gpu-aware-scheduling/pkg/gpuscheduler/scheduler.go:667-727 | the sort, swap and search loops pick exactly the cards that first fit defines and leave the copy it defines, also when they fail; they succeed exactly when there are as many listed, usable, fitting cards as GPUs requested; with a balanced resource no card picked has more of it in use than an eligible one left |
| Scheduler.Extender.CombineSamegpuRequests | gpu-aware-scheduling/pkg/gpuscheduler/scheduler.go:765-782 | fails exactly when a request is negative or a sum overflows; otherwise the pointwise sum whatever the map order, with the plugin amount replaced by 1 |
| Scheduler.Extender.SanitizeSamegpuRequests | gpu-aware-scheduling/pkg/gpuscheduler/scheduler.go:1594-1625 | accepts exactly the requests for one GPU each, of the xe or else the i915 plugin, that name neither tiles nor a monitoring resource |
| Scheduler.Extender.GetCardForSamegpu | gpu-aware-scheduling/pkg/gpuscheduler/scheduler.go:975-1021 | all listed containers get one card, whose plugin use rises by the number of containers and whose other resources by their sum, within capacity, although the search asks for one plugin unit; it succeeds if and only if the requests are of the right kind, can be added up, and some listed card has the room, and then takes the first such card |
| Scheduler.Extender.FindXeLinkedGPUPair | gpu-aware-scheduling/pkg/gpuscheduler/scheduler.go:536-600 | finds two fitting, unused cards if and only if some link of the label, the first one at its starting tile, joins two such cards at tiles on offer |
| Scheduler.Extender.PlacePair | gpu-aware-scheduling/pkg/gpuscheduler/scheduler.go:602-653 | one round of the pair search on a fresh status: the pair starts at the card that comes first in the order of FirstFit among those from which a pair can be had, or there is none |
| Scheduler.Extender.GetXELinkedCards | gpu-aware-scheduling/pkg/gpuscheduler/scheduler.go:602-653 | consecutive pairs of distinct cards, each pair joined by a link, on tiles that are neither used, disabled nor chosen earlier for the pod; it fails only for an odd number, or when after the pairs it picked none is left on a tile status read during the call |
| XeSearch.TwoGpusExactly | gpu-aware-scheduling/pkg/gpuscheduler/scheduler.go:602-653 | two linked GPUs are found in a group if and only if some link of the label joins two fitting cards at clear tiles; a failure leaves the copy as it was |
| XeSearch.PairMeans | gpu-aware-scheduling/pkg/gpuscheduler/scheduler.go:536-600 | a pair exists if and only if a link of the label, the first one at its start, joins two cards that are there, listed, usable, not taken and have room, at tiles not in use, not disabled and not promised |
| XeSearch.BothEndsLinked | gpu-aware-scheduling/pkg/gpuscheduler/utils.go:364-395 | with distinct GPU numbers a link between two devices names both its ends |
| Scheduler.Extender.PlaceContainer | gpu-aware-scheduling/pkg/gpuscheduler/scheduler.go:940-970 | all cards of a container come from one group; without Xe links the groups are tried in turn, each on what the failed ones left in the copy, exactly as first fit defines it, and the copy grows by exactly the shares if and only if no failed group left anything; with Xe links success and failure are outcomes of the search for linked cards over the groups |
| Scheduler.Extender.CheckForSpaceResourceRequests | gpu-aware-scheduling/pkg/gpuscheduler/scheduler.go:908-973 | without Xe links the plan, the refusal and the copy left behind are those of first fit, and the copy grows by exactly the planned use if and only if no failed group left anything and the same-GPU containers use one plugin type; with Xe links plan, refusal and copy are an outcome of the search for linked cards on statuses read during the call; use is never under-estimated and no card exceeds capacity |
| Scheduler.Extender.CreateUnavailableNodeResources | gpu-aware-scheduling/pkg/gpuscheduler/scheduler.go:1139-1166 | counts per card the entries of its disabled list that name one of the GPU's tiles and are not in use, duplicates included |
| Scheduler.Extender.AddUnavailableToUsedResources | gpu-aware-scheduling/pkg/gpuscheduler/scheduler.go:754-763 | adds that count to the used tiles of every card that has an entry, whenever the sum cannot overflow, never lowers anything and leaves all other resources alone; the copy becomes the one first fit starts with |
| Scheduler.Extender.CreateAvailableXeLinkedTilesStat | gpu-aware-scheduling/pkg/gpuscheduler/scheduler.go:1108-1137 | offers exactly the tiles that some link of the label names and that are neither in use, disabled nor promised |
| Scheduler.Extender.CheckForSpaceAndRetrieveCards | gpu-aware-scheduling/pkg/gpuscheduler/scheduler.go:851-906 | an accepted plan gives each container as many distinct, listed, usable cards of one group as requested, fits on every card next to the amounts read, and leaves room for all its tiles beside used and disabled ones; without Xe links a pod is refused if and only if the node has no cards or first fit, on the amounts read plus the tiles found unavailable, does not place it; with Xe links plan and refusal are outcomes of the search for linked cards on that copy |
| Scheduler.Extender.GetFreeTiles | gpu-aware-scheduling/pkg/gpuscheduler/scheduler.go:471-500 | exactly the tiles below the per-GPU count that are neither used nor marked unusable, each once |
| Scheduler.Extender.CreateTileAnnotation | gpu-aware-scheduling/pkg/gpuscheduler/scheduler.go:421-469 | prints the requested number of distinct free tiles, free preferred ones first in preferred order, or nothing when there are too few |
| AnnotationPrinting.EnoughTiles | gpu-aware-scheduling/pkg/gpuscheduler/scheduler.go:443-448 | while an accepted plan is printed, the branch for too few free tiles is never reached |
| Scheduler.Extender.ConvertNodeCardsToAnnotations | gpu-aware-scheduling/pkg/gpuscheduler/scheduler.go:1025-1082 | both strings have one entry per container; every card gets floor(tiles/cards) distinct tiles, disjoint from used and disabled ones and from those of the pod's earlier containers; without Xe links the choice on a card begins with the card's preferred tiles that were free when its status was read |
| Scheduler.Extender.PlanAndPrint | gpu-aware-scheduling/pkg/gpuscheduler/scheduler.go:1312-1340 | what bindNode hands to the cache is the printed form of the plan that first fit defines, or with Xe links of an outcome of the search for linked cards; it decodes to a plan that fits next to the amounts read and to tiles that are free |
| Scheduler.Extender.SanitizeTiles | gpu-aware-scheduling/pkg/gpuscheduler/utils.go:178-196 | keeps, for every card, exactly the indices below the per-GPU count, in order |
| Scheduler.Extender.CombineMappings | gpu-aware-scheduling/pkg/gpuscheduler/utils.go:152-156 | appends each list of the source, in order and with repeats, to the card's list |
| Scheduler.ContainersRequestingSamegpu | gpu-aware-scheduling/pkg/gpuscheduler/scheduler.go:1551-1592 | the listed containers, refusing names the pod does not have and lists with repeats |
| TilePlacement.ReorderPreferredTilesFirst | gpu-aware-scheduling/pkg/gpuscheduler/utils.go:346-362 | in place and always a permutation; without repeats in the preferred list, the preferred tiles that are present come first in preferred order |
| TilePlacement.PreferredInOrder | gpu-aware-scheduling/pkg/gpuscheduler/utils.go:346-362 | of two preferred tiles that are present, the one that is preferred comes first |
| TilePlacement.UnavailableCoversDisabled | gpu-aware-scheduling/pkg/gpuscheduler/scheduler.go:1139-1166 | the tiles in use together with the counted unavailable ones are at least as many as the tiles that are in use or disabled, even if some were released between the two reads |
| TilePlacement.UnavailableIsExact | gpu-aware-scheduling/pkg/gpuscheduler/scheduler.go:1139-1166 | without repeats in the disabled list, tiles in use plus unavailable ones are exactly those in use or disabled |
| TilePlacement.EnoughFree | gpu-aware-scheduling/pkg/gpuscheduler/scheduler.go:443-448 | room for the whole plan on a card leaves enough free tiles at every later card and container |
| TilePlacement.CardsReadBack | gpu-aware-scheduling/pkg/gpuscheduler/scheduler.go:1055-1081 | the printed card annotation splits back into the same card list for every container |
| TilePlacement.BookingReadsThePlan | gpu-aware-scheduling/pkg/gpuscheduler/node_resource_cache.go:424-465 | the cache reads from the annotation exactly the allocations that were planned, requests divided again included |
| TilePlacement.TilesReadBack | gpu-aware-scheduling/pkg/gpuscheduler/node_resource_cache.go:349-412 | the cache reads from the tile annotation exactly the (card, tiles) pairs that were chosen |
| DescheduledTiles.ConvertPodTileAnnotationToCardTileMap | gpu-aware-scheduling/pkg/gpuscheduler/utils.go:515-550 | the set of card.tile names the second reader extracts from any text, and when it slices out of range |
| DescheduledTiles.PartMeans | gpu-aware-scheduling/pkg/gpuscheduler/utils.go:515-550 | which card.tile names a part with one colon gives, and that it is too short exactly with less than four characters before the colon |
| DescheduledTiles.PartNamesNone | gpu-aware-scheduling/pkg/gpuscheduler/utils.go:515-550 | a part without a colon or with several gives none and is never too short |
| DescheduledTiles.ReadersAgree | gpu-aware-scheduling/pkg/gpuscheduler/utils.go:515-550 | for a printed annotation of numbered cards and 16-bit tiles both readers extract the same tiles of the same cards |
| Binding.BindNode | gpu-aware-scheduling/pkg/gpuscheduler/scheduler.go:1288-1356 | without Xe links a bind is refused for lack of space if and only if first fit does not place the pod, books exactly the cards first fit gives, and makes the ledger grow by what the planner's copy grew if and only if no failed group left anything in it; with Xe links plan and refusal are outcomes of the search for linked cards; the booked text is the printed plan, with tiles that were free; success means both API calls succeeded, and any failure leaves every amount of every node as it was |
| Binding.BookAndBind | gpu-aware-scheduling/pkg/gpuscheduler/scheduler.go:1305-1353 | succeeds exactly when both API calls do and the booking is accepted; otherwise the deferred rollback leaves every amount as it was |
| Binding.PlanIsNotRefused | gpu-aware-scheduling/pkg/gpuscheduler/scheduler.go:1339-1342 | booking a printed plan that fits is never refused by the cache |
| Binding.StaleCheckIsSafe | gpu-aware-scheduling/pkg/gpuscheduler/scheduler.go:1317-1340 | a plan made against an older copy is still safe to book if what happened in between only released |
| Binding.BookKeepsCapacity | gpu-aware-scheduling/pkg/gpuscheduler/node_resource_cache.go:424-478 | booking a safe plan keeps every card within per-GPU capacity |
| Binding.BookKeepsTiles | gpu-aware-scheduling/pkg/gpuscheduler/node_resource_cache.go:366-412 | booking a safe plan keeps the booked amount of tiles equal to the number of used tile indices |
| Binding.ReleaseKeepsTiles | gpu-aware-scheduling/pkg/gpuscheduler/node_resource_cache.go:366-412 | releasing a booking keeps that equality, since bookings never share a tile |
| Binding.InformerOnlyLowers | gpu-aware-scheduling/pkg/gpuscheduler/node_resource_cache.go:1072-1123 | in steady state the informer's steps only lower use and shrink tile sets |
| Binding.MoveKeepsInvariant | gpu-aware-scheduling/pkg/gpuscheduler/scheduler.go:1288-1356 | every move of bind or informer keeps capacity, tile agreement, accounting, the safety of a pending decision, and the booking of the pod in flight until its bind call takes effect, so that a rollback finds it; a late error of the bind call is included when its rollback is safe |
| Binding.BeginIsCounted | gpu-aware-scheduling/pkg/gpuscheduler/scheduler.go:876-880 | in every reachable state the tiles in use are exactly the counted ones, which is what planning relies on |
| Binding.PlanningEqualsBooking | gpu-aware-scheduling/pkg/gpuscheduler/scheduler.go:667-727 | booking adds to the ledger, on every card and resource, exactly the planned use; so it adds what the planner added to its copy if and only if that was exact |
| Binding.NodeWithinAllocatable | gpu-aware-scheduling/pkg/gpuscheduler/scheduler.go:241-258 | in a state within per-GPU capacity the node's cards together stay within its allocatable amount |
| Binding.SafeInEveryState | gpu-aware-scheduling/pkg/gpuscheduler/scheduler.go:1288-1356 | in every state of every steady run no card exceeds per-GPU capacity in any resource, and booked tiles equal the number of used tile indices, although bind checks and books under different locks |
| Binding.LateErrorIsSafeIff | gpu-aware-scheduling/pkg/gpuscheduler/scheduler.go:1343-1353 | when a bind call reports an error although it took effect, the rollback keeps the accounts if and only if the pod is still counted, or its release is refused or takes nothing |
| Binding.PlanInRun | gpu-aware-scheduling/pkg/gpuscheduler/scheduler.go:1312-1340 | the planner among other steps, reading the tiles at any moments since the bind began, prints a decision that the run can make |
| Binding.InitialInvariant | gpu-aware-scheduling/pkg/gpuscheduler/node_resource_cache.go:152-217 | an empty cache satisfies the invariant that the runs keep |
| Binding.NothingLeft | gpu-aware-scheduling/pkg/gpuscheduler/node_resource_cache.go:424-478 | in every reachable state without counted pods and leaks, every amount is 0 and no tile is in use |
| Binding.BookTakes | gpu-aware-scheduling/pkg/gpuscheduler/scheduler.go:1339-1342 | booking in a run counts the pod and raises every amount by exactly its booking |
| Binding.FailureGivesBack | gpu-aware-scheduling/pkg/gpuscheduler/scheduler.go:1305-1315 | a failure before the bind call takes effect gives back exactly what was booked |
| Labeling.Violated | telemetry-aware-scheduling/pkg/strategies/labeling/strategy.go:43-108 | reports a node exactly when one rule, or with allOf every rule and at least one, is broken: the node has the metric and it is below, above or equal to the target as the operator says; with all its broken rules |
| Labeling.BrokenCount | telemetry-aware-scheduling/pkg/strategies/labeling/strategy.go:86-98 | comparing the number of results with the number of rules decides whether all rules are broken, repeated rules included |
| Labeling.BrokenRulesMean | telemetry-aware-scheduling/pkg/strategies/labeling/strategy.go:43-83 | broken rules are collected in the order of the policy, each with the node's metric |
| Strategies.OneOperatorViolates | telemetry-aware-scheduling/pkg/strategies/core/operator.go:15-36 | a strategy of one rule is violated exactly as the metric stands to the target: below it for LessThan, above it for GreaterThan, equal to it for Equals; never for another operator or without the metric |
| Labeling.MinMaxFilterViolatedRules | telemetry-aware-scheduling/pkg/strategies/labeling/enforce.go:192-227 | each label name keeps the largest result under GreaterThan, the smallest under LessThan, the earliest on ties or Equals; nothing at all exactly when rules sharing a name differ in operator |
| Labeling.BestIsUnique | telemetry-aware-scheduling/pkg/strategies/labeling/enforce.go:192-227 | the kept result is determined by the results alone, whatever the map order |
| Labeling.BestMeans | telemetry-aware-scheduling/pkg/strategies/labeling/enforce.go:192-227 | of results of one operator the kept one is the first with the largest value for GreaterThan, with the smallest for LessThan, and simply the first otherwise |
| LabelingStatus.CreateLabels | telemetry-aware-scheduling/pkg/strategies/labeling/enforce.go:230-238 | adds all labels of every kept rule, under the policy's prefix, to the policy's list and to the node's set |
| LabelingStatus.NodeStatusForStrategy | telemetry-aware-scheduling/pkg/strategies/labeling/enforce.go:245-271 | lists for every node and policy exactly the labels of rules the filter keeps for violated strategies |
| LabelingEnforcement.AppendViolationPatchValue | telemetry-aware-scheduling/pkg/strategies/labeling/enforce.go:101-124 | replace for a present label with another value, add for an absent one, nothing for an equal one; an error exactly when the label is not one name and one value |
| LabelingEnforcement.AppendNodeLabelCleanups | telemetry-aware-scheduling/pkg/strategies/labeling/enforce.go:126-137 | removes exactly the prefixed labels whose present value is not violated, each with a valid target |
| LabelingEnforcement.NodePayload | telemetry-aware-scheduling/pkg/strategies/labeling/enforce.go:148-176 | every operation of a node's patch has a valid target, together they make one Round, and the patch is empty exactly when the labels already agree; it fails exactly on a malformed last label |
| LabelingEnforcement.UpdateNodeLabels | telemetry-aware-scheduling/pkg/strategies/labeling/enforce.go:141-189 | each node gets at most one patch; an accepted one makes one Round, a refused one changes nothing and is reported; the number returned is that of the policies listed for the nodes, or -1 exactly when a last label is malformed |
| LabelingEnforcement.OneRoundSuffices | telemetry-aware-scheduling/pkg/strategies/labeling/enforce.go:101-137 | one round settles the labels if and only if no wanted label is present with another value |
| LabelingEnforcement.TwoRoundsSuffice | telemetry-aware-scheduling/pkg/strategies/labeling/enforce.go:101-137 | two rounds settle the labels from any starting labels |
| LabelingEnforcement.ChangedLabelVanishesFirst | telemetry-aware-scheduling/pkg/strategies/labeling/enforce.go:101-137 | a label whose value changes is absent after the first round and right after the second |
| LabelingEnforcement.SettledIsFixed | telemetry-aware-scheduling/pkg/strategies/labeling/enforce.go:141-189 | a round changes nothing if and only if the labels under the prefix are exactly the wanted ones |
| LabelingEnforcement.RoundKeepsOthers | telemetry-aware-scheduling/pkg/strategies/labeling/enforce.go:126-137 | labels outside the prefix survive a round unchanged |
| LabelingEnforcement.QuietIsPossible | telemetry-aware-scheduling/pkg/strategies/labeling/enforce.go:141-189 | some labels need no patch if and only if no label name is asked for with two values |
| LabelingConvergence.AskedMeans | telemetry-aware-scheduling/pkg/strategies/labeling/enforce.go:240-271 | with single labels a label is asked for if and only if its strategy is violated, its operators agree and the best broken rule for its name carries it |
| LabelingConvergence.Enforce | telemetry-aware-scheduling/pkg/strategies/labeling/enforce.go:57-76 | one round drives each node towards exactly the labels its violated strategies ask for; with proper labels it is never given up and reports an error exactly when a patch was refused |
| LabelingConvergence.TwoRoundsConverge | telemetry-aware-scheduling/pkg/strategies/labeling/enforce.go:57-189 | when no label name is asked for with two values: from any labels, after two rounds the labels under the prefix are exactly the violated ones, a third round sends no patch, other labels are untouched |
| LabelingConvergence.ConvergesExactly | telemetry-aware-scheduling/pkg/strategies/labeling/enforce.go:57-189 | a node comes to rest after two rounds from any labels if and only if no label name is asked for with two values |
| LabelingConvergence.CompatibleRulesNeverClash | telemetry-aware-scheduling/pkg/strategies/labeling/enforce.go:192-238 | that never happens, whatever the metrics and operators, unless some policy has two rules that give a label name different values and are one rule, or have one operator and do not set the same names |
| LabelingClashes.ClashesExactly | telemetry-aware-scheduling/pkg/strategies/labeling/enforce.go:192-238 | for policies whose rules have metrics of their own, some metrics make a node ask for two values of one label name if and only if there are such rules |
| LabelingConvergence.SingleLabelsAreCompatible | telemetry-aware-scheduling/pkg/strategies/labeling/enforce.go:192-238 | policies whose rules have one label each are of that kind |
| LabelingConvergence.TwoLabelsNeverSettle | telemetry-aware-scheduling/pkg/strategies/labeling/enforce.go:230-238 | a concrete two-label rule with which a node is patched in every round whatever its labels |
| LabelingCleanup.Cleanup | telemetry-aware-scheduling/pkg/strategies/labeling/enforce.go:274-302 | when a policy is deleted, each node loses exactly the labels under its prefix whose patch is accepted |
| LabelingCleanup.CleanupKeepsRest | telemetry-aware-scheduling/pkg/strategies/labeling/enforce.go:274-302 | a node at rest has no label of the deleted policy afterwards and is at rest with respect to the others |
| LabelPatch.UnescapeEscape | telemetry-aware-scheduling/pkg/strategies/labeling/enforce.go:116-120 | replacing each slash in a label name gives a path token that refers back to the same name |
| Deschedule.Violated | telemetry-aware-scheduling/pkg/strategies/deschedule/strategy.go:34-73 | reports a node exactly when one rule, or with allOf every rule and at least one, is broken: the node has the metric and it is below, above or equal to the target as the operator says |
| Deschedule.NodeStatusForStrategy | telemetry-aware-scheduling/pkg/strategies/deschedule/enforce.go:212-225 | lists for each node exactly the policies of registered strategies it violates |
| Deschedule.NodePayload | telemetry-aware-scheduling/pkg/strategies/deschedule/enforce.go:162-197 | every operation has a valid target, the patch makes one Round and is empty exactly when the labels already match |
| Deschedule.UpdateNode | telemetry-aware-scheduling/pkg/strategies/deschedule/enforce.go:162-197 | the number added to the reported total is that of the registered policies the node does not violate |
| Deschedule.Enforce | telemetry-aware-scheduling/pkg/strategies/deschedule/enforce.go:87-106 | one round over all nodes, reporting an error exactly when some patch was refused and otherwise the number of registered policies the nodes do not violate |
| Deschedule.ReportedIsViolatedIff | telemetry-aware-scheduling/pkg/strategies/deschedule/enforce.go:162-197 | the reported number is that of the violations if and only if, over all nodes, half of the registered policies are violated |
| Deschedule.OneViolationReportedAsNone | telemetry-aware-scheduling/pkg/strategies/deschedule/enforce.go:175-183 | a node that violates the only policy is one violation and is reported as none |
| Deschedule.OneRoundSuffices | telemetry-aware-scheduling/pkg/strategies/deschedule/enforce.go:139-209 | a round reaches matching labels from any labels, is idempotent, leaves other labels alone, and changes nothing exactly when they matched |
| Deschedule.OneRoundConverges | telemetry-aware-scheduling/pkg/strategies/deschedule/enforce.go:87-209 | after one accepted round a node is labelled violating for exactly the registered policies it violates and has no label for the others; a second round sends no patch |
| Deschedule.Cleanup | telemetry-aware-scheduling/pkg/strategies/deschedule/enforce.go:50-80 | when a policy is deleted, each node labelled violating for it loses that label if its patch is accepted, and nothing else changes |
| Deschedule.CleanupMatches | telemetry-aware-scheduling/pkg/strategies/deschedule/enforce.go:50-80 | labels that matched all policies match the remaining ones afterwards |
| MetricCache.AddedTwice | telemetry-aware-scheduling/pkg/cache/cache.go:46-82 | the doubled write has the effect of one |
| MetricCache.AutoUpdatingCache.WriteMetric | telemetry-aware-scheduling/pkg/cache/autoupdating.go:131-153 | a write without data leaves what every metric reads as and counts one more user; a write with data makes that metric read as it, changes no other and counts nothing; an empty name is refused |
| MetricCache.AutoUpdatingCache.DeleteMetric | telemetry-aware-scheduling/pkg/cache/autoupdating.go:165-176 | the last user's delete drops count and data together; otherwise the count falls by one, below zero for an uncounted metric |
| MetricCache.AutoUpdatingCache.UpdateAllMetrics | telemetry-aware-scheduling/pkg/cache/autoupdating.go:57-86 | afterwards every counted metric that could be fetched reads as what was fetched and every other one as before; counts stay as they are |
| MetricCache.AutoUpdatingCache.ReadMetric | telemetry-aware-scheduling/pkg/cache/autoupdating.go:90-101 | finds a metric exactly when it is stored with data |
| MetricCache.InterleavedDataOnlyForCounted | telemetry-aware-scheduling/pkg/cache/autoupdating.go:57-176 | however the sends of updater and handler interleave, only counted metrics ever have data |
| MetricCache.Release | telemetry-aware-scheduling/pkg/cache/autoupdating.go:165-176 | exact counts stay exact when a reference goes, and the metric is dropped if and only if that was the last one |
| StrategyRegistry.MetricEnforcer.AddStrategy | telemetry-aware-scheduling/pkg/strategies/core/enforcer.go:97-120 | registers a strategy unless an equal one is there, its type is unknown or it cannot be enforced |
| StrategyRegistry.MetricEnforcer.RemoveStrategy | telemetry-aware-scheduling/pkg/strategies/core/enforcer.go:75-94 | removes exactly the strategies that equal the given one |
| StrategyRegistry.WithoutRulesStays | telemetry-aware-scheduling/pkg/strategies/core/enforcer.go:75-120 | a registered strategy is dropped by its own removal, and not registered twice, if and only if it has rules |
| StrategyRegistry.EqualsMeans | telemetry-aware-scheduling/pkg/strategies/labeling/strategy.go:115-157 | strategies are equal if and only if they have rules and differ at most in the logical operator and in labels; for labeling the labels of one must begin those of the other |
| PolicyController.TelemetryPolicyController.OnAdd | telemetry-aware-scheduling/pkg/controller/controller.go:81-122 | handles each strategy type once in some order, stopping early only for an unknown type or an empty policy name |
| PolicyController.TelemetryPolicyController.OnUpdate | telemetry-aware-scheduling/pkg/controller/controller.go:149-199 | for each type of the new policy replaces the old strategy and its metric references by the new ones |
| PolicyController.TelemetryPolicyController.OnDelete | telemetry-aware-scheduling/pkg/controller/controller.go:202-233 | removes each type's strategy and its metric references |
| PolicyRuns.AddOneConsistent | telemetry-aware-scheduling/pkg/controller/controller.go:98-119 | one strategy added keeps counts, registry and data in step with the live strategies |
| PolicyRuns.RemoveOneConsistent | telemetry-aware-scheduling/pkg/controller/controller.go:206-223 | one live strategy removed keeps them in step |
| PolicyRuns.ComparisonsInBounds | telemetry-aware-scheduling/pkg/strategies/labeling/strategy.go:128-132 | in step, comparing labels never indexes past the other rule's labels |
| PolicyRuns.RegisteredNamesDistinct | telemetry-aware-scheduling/pkg/strategies/core/enforcer.go:97-120 | no two registered strategies of one type belong to the same policy, as convergence of labeling needs |
| PolicyRuns.StartController | telemetry-aware-scheduling/cmd/main.go:95-108 | the four registrations at the start establish the initial state of the runs |
| PolicyRuns.EventKeepsInStep | telemetry-aware-scheduling/pkg/controller/controller.go:81-233 | every add, update, delete and periodic refresh keeps the state in step with the policies alive |
| PolicyRuns.RunKeepsInStep | telemetry-aware-scheduling/pkg/controller/controller.go:81-233 | in every state of every run a metric's count is the number of live rules naming it, only counted metrics have data, and the registry holds exactly the live deschedule and labeling strategies, each once |
| PolicyRuns.RegistryInRuns | telemetry-aware-scheduling/pkg/strategies/core/enforcer.go:75-120 | in every state of every run the deschedule and labeling lists hold exactly the strategies of that type of the policies alive, each once, and the other two lists are empty |
| MetricData.CountedIsUsed | telemetry-aware-scheduling/pkg/cache/autoupdating.go:131-176 | in step, a metric is counted if and only if some rule of a policy alive names it |
| MetricData.EventData | telemetry-aware-scheduling/pkg/controller/controller.go:81-233 | adding a policy loses no metric's data; deleting one loses exactly that of the metrics no policy uses any more; a refresh brings that of the used metrics fetched; an update loses exactly that of the metrics unused at some moment of it |
| MetricData.OneStrategyLosesData | telemetry-aware-scheduling/pkg/controller/controller.go:164-198 | an update of a policy with one strategy loses the data of a metric if and only if no other policy uses it, also when the rules stay the same |
| MetricData.OtherUserKeepsData | telemetry-aware-scheduling/pkg/controller/controller.go:164-198 | no update loses the data of a metric that another policy uses |
| MetricData.UpdateForgets | telemetry-aware-scheduling/pkg/controller/controller.go:164-198 | a policy that is updated by itself, after which its metric has no data |
| PolicyRuns.UpdateIsExactIff | telemetry-aware-scheduling/pkg/controller/controller.go:164-198 | an update leaves the state in step if and only if the new policy keeps every type of the old one |

## Left out

- HTTP and TLS servers, request decoding, flags, client creation, logging, timestamps, event recording.
- The Kubernetes API server, informers, work queues and listers: they appear as arbitrary events and as outcomes passed in as parameters.
- The filter response, prioritisation scores, `dontschedule.Violated`, `scheduleonmetric` and `OrderedList`: easy once the above is done.
- Node descheduling patches on pods (`handleNodeUpdated`): driven by the API server, weak claims.
- Startup replay of pods and capacity changes during a run: the runs of `Binding` keep every node's capacity fixed and start from a consistent ledger.
- The runs of `Accounting` and `Binding` rely on their environment: bind is called for uncounted pods, a completion carries the booking's own annotation and node, pods the informer adds are already counted (`Accounting.Faithful`, `Binding.Enabled`).
- A bind call that reports an error although it took effect is part of the runs of `Binding` only when its rollback is safe (`Binding.LateErrorIsSafeIff`); a pod that is bound but was rolled back is not booked again by the informer in these runs.
- Rollbacks.RollbackAmongOthers: a booking that is refused in between only because the rolled-back one is still counted leaves a different state and is excluded (`Rollbacks.Aside`).
- XeSearch.TwoGpusExactly: the relation of `XeSearch` allows any pair that fits; which card a pair starts at is stated for one round of the search (`Scheduler.Extender.PlacePair`).
- With Xe links the exact growth of the copy is proved for one group of cards only (`Scheduler.Extender.CheckForSpaceAndRetrieveCards`).
- LabelingClashes.ClashesExactly: with `allOf`, with rules that share a metric and with `Equals` the values cannot be chosen freely; for those only `LabelingConvergence.CompatibleRulesNeverClash` is proved.
- Allow and deny lists, disabled cards, PCI groups and NUMA labels: a node has an arbitrary fixed set of usable cards, and a pod an arbitrary non-empty list of card sets. An empty list, which a malformed NUMA label gives, is not modelled.
- A pod that asks for Xe links and the same GPU at once is refused before planning (`checkPod`); the planner's methods take that as given.
- Xe links from a device to itself are excluded (`Placement.NoSelfLinks`): with one, a pair would not be two cards.
- Labels are taken as parsed: the links before the first malformed part of the Xe-link label, tile lists, and card numbers without leading zeros.
- Sharing of inner Go maps: `Cache` stores resource maps as values, and code that changes one in place loads it into a `ResourceMap` object and stores it back.
- Lists of used tiles are sets in the cache and the planner; their order is never observed.
- Tile guarantees for Xe-linked pods hold for containers that ask for at most one tile per GPU (`PodPlans.OneTileRequests`), as the link search picks one tile per card.
- Binding.BeginIsCounted: assumes that per-GPU tile capacity plus the length of a card's disabled list fits in 64 bits.
- Label and policy names with `~`, and policy names with `/` or `=`, are excluded in the convergence results: Kubernetes does not admit them.
- Metric values are reals; the parsing and comparison of resource quantities is not modelled.
- A fetch that answers with no node at all is excluded, as the metrics client reports an error for it.
- The policies stored next to the metrics in the metric store have keys of their own and are left out.
- StrategyRegistry.MetricEnforcer.RemoveStrategy: states the registry only; the `Cleanup` it calls is `Deschedule.Cleanup` and `LabelingCleanup.Cleanup`. Comparing labels beyond the end of the other rule's labels counts as different where the source would panic; PolicyRuns.ComparisonsInBounds shows that this does not occur in runs.
