# A verified model of the VPC route controller

The controller keeps one route per node in a VPC route table: from the node's IPv4 pod CIDR to the
node's instance. Two activities do this. A periodic pass lists the nodes and the routes, deletes the
routes that conflict with a node, and adds what the listing lacked. A worker handles one node event at a
time: it looks the node's route up and creates it, or deletes the cached destination of a node that is
gone. This project models both, in the form the program has, down to the CIDR text and bit arithmetic
that decide what a conflict is, and proves what they achieve.

## How the model is laid out

| modules | what they hold |
|---|---|
| `Wrappers`, `Decimal`, `IpText`, `Cidr` | text and mask arithmetic of the net package as far as the program uses it, and what a block of addresses is |
| `NodeUtils`, `Nodes`, `Conflicts` | node conditions, what is read off a node, and when a route conflicts with the nodes |
| `Routes`, `Waiting`, `Faults`, `Ksyun` | the route table, the availability wait, what calls can meet, and the operations on the cloud under faults |
| `Interleaving`, `Simulation` | pass and worker side by side as a state machine with stale snapshots; its paths |
| `NodeStatus`, `Passes`, `RouteController` | the NetworkUnavailable condition; what a pass does as a function of what its calls meet; `syncRoutes` and `Reconcile` |
| `Convergence`, `Progress` | fault-free passes and what they converge to; passes under arbitrary faults |
| `Runs`, `Settling` | progress and convergence over whole interleaved runs |
| `Removal`, `Losses` | node removal, and when a pass can undo it; which routes the calls under way can delete |
| `Scenarios` | runs without faults in which a tempting claim fails |
| `Ipnet`, `IpnetText` | the 32-bit network type, the tiling by `Next`, octets, text and JSON |
| `Attempts`, `EventFilter` | timed attempts against any clock; the node event filter |

The objects that the program updates in place are classes: `Ksyun.Cloud` (the table behind its API),
`NodeStatus.ApiServer` (the node objects), `RouteController.ReconcileRoute` (with its `nodeCache`),
`Attempts.Attempt`, and the receivers of the two `UnmarshalJSON` methods. Their methods are proved
against functions and predicates on values (`Routes.OnePass`, `Faults.Creation`, `Faults.Deletion`,
`Faults.Adding`, `Passes.PassUnder`, `Routes.AllLegal`, `NodeStatus.Updated`, `Attempts.Do`), and the
theorems are about those.

Calls to the cloud and to the API server are counted, and a script (`Faults.Weather`,
`Faults.ServerWeather`), which is any function of the count, says what each call would meet: a refusal, an
effect that is not reported, a version conflict, a wait that never sees the route. So every combination of
faults is some script, and what an operation does under faults is a function of the script: its error, its
retries, its writes and the marks it asks for.

The state machine of `Interleaving` makes its steps from the same predicates, and it is not a second
opinion about the program: every uninterrupted call of `ReconcileForCluster` and of `Reconcile`, whatever
fails in it, is proved to be a path of the machine.

## What is assumed of the surroundings

- The cloud keeps one route per destination, answers a create for a taken destination with the "same
  with a route" error, filters exactly by CIDR, and gives each route its own id. Unless the script is calm
  any call may fail, and a write may take effect and still be reported as failed. Nothing but the
  controller writes to the table.
- Every route of the table is of the type "Host", by which the listings and lookups filter
  (pkg/ksyun/ksyun.go:83-84, 137-141). A route of another type at a node's pod CIDR would answer every
  create with "same with a route" and never be found; convergence assumes that there is none.
- A call that polls for a new route gets an error or a non-empty reply; `GetRoute` would panic on an
  empty one (pkg/ksyun/openstack_client/neutron/route.go:387).
- `routeLock` makes each create (with its retries) and each delete (with its lookup) one step: each
  changes the table at most once and nothing else changes it meanwhile. There is one worker
  (pkg/controller/route/route_controller.go:72). Everything else is a step of its own and can be
  interleaved, in particular the listings of nodes and of routes, live lookups, the worker's read of the
  node and its later read of the cache, and every change of the cache.
- Patching a node's status replaces it in one step or fails, possibly after taking effect.
- Readings of the clock and the order of listings are nondeterministic.

## Main results

- **Two passes, exactly.** A fault-free pass is the function `OnePass` of the table, which consults the
  listing made before the deletions. Applying it twice converges from every table if and only if the
  nodes are compatible (no eligible node's route is the hidden default route or conflicts with a node),
  which pairwise disjoint pod CIDRs are. One pass is enough if and only if no eligible node's
  destination has another owner; those that have one are left without a route and marked as routed all
  the same.
- **Delivery.** In a converged table longest-prefix match (section 5.1 of RFC 4632) sends every address
  of an eligible node's pod CIDR to that node's instance, whatever else the table holds.
- **A pass under any faults.** What a pass leaves in the table, whom it marks and how many calls it makes
  is a function of the listing and of what its calls meet. A listed route is gone if and only if it
  conflicts and no call of its own deletion was refused; an eligible node is tried whatever became of
  those before it, and marked if and only if its own attempt reports no error; a creation gives up only
  after three ordinary failures or a failed lookup of a route said to be there.
- **Progress under faults.** Every write that takes effect brings the table strictly closer, so writes
  are bounded by the initial distance and a correct route is never touched. This holds for sequences of
  passes over fixed nodes. It also holds for every interleaving of pass and worker with stale snapshots,
  from any point of any run on at which no deleting loop is under way, whatever nodes, faults and removals
  came before, as long as from there on what the stored and held nodes ask for stays the same and no
  route they ask for is removed for a node that seemed gone. Removals of other routes may go on.
- **Settling.** Under the same two provisos two complete passes whose own calls work leave the table
  converged for good, whatever the worker does before, between and under them and whatever of its calls
  fail.
- **Losses.** Without any proviso: which routes the pass and the worker can delete with the call that each
  has under way is decided exactly, and in every run no other route is ever lost.
- **Frame.** In every interleaved run, under any faults and any changes to the nodes, a route that does
  not lie within a pod CIDR some node has had is never removed or altered, and every route added is
  exactly some node's own.
- **Removal.** Over one life of a node name, whatever nodes bore it before, what is cached and removed for
  it is its pod CIDR. A removed node's route and cache entry are gone unless the pass under way can bring
  them back, and when it can bring back the one or the other is decided exactly.
- **Blocks.** The two-endpoint test of `containsRoute` decides proper containment; the mask and shift
  code of `IP4Net` means aligned intervals that are nested or disjoint, and `Next` tiles all 2^32
  addresses.

## Where the obvious claim is false

- One pass does not converge: a route deleted in the first loop is still found in the listing by the
  second (`Convergence.LeftWithoutRoute`, `Convergence.OnePassSuffices`).
- A nil error of `addRouteForNode` does not mean that the route exists: a failed live lookup is no error,
  and neither is a listing that still has a destination the table lacks.
  `Routes.NilErrorWithoutRoute` says exactly when the two come apart, and the contract of
  `ReconcileRoute.AddRouteForNode` ties each call to it.
- A node's correct route can be deleted while the node is there, without any fault, in two ways. A pass
  may have listed the node before its instance was known, so that the route that the worker has created
  since looks like another instance's (`Scenarios.EarlySnapshotDeletesCorrectRoute`). Or the node may
  come back, and be cached by a pass, between the worker's reads of the node and of the cache
  (`Scenarios.LateLookDeletesCorrectRoute`). `Losses.PassDeletes` and `Losses.WorkerDeletes` are the
  exact conditions, and `Losses.LossIsForeseen` says that there is no other way.
- A successful removal can be undone by a pass that had listed the node before
  (`Scenarios.StaleSnapshotResurrects` builds such a run without any fault; `Removal.PassRestores` says
  exactly when it can happen).
- The event filter drops an update that rewrites an instance annotation
  (`EventFilter.RewrittenInstanceIsMissed`; `EventFilter.DroppedIsHarmless` is the exact condition).
- `AttemptStrategy.Min` is documented as a number of retries (pkg/util/attempt.go:15), but the code counts
  attempts, the first one included. `Attempts.MinIsNotRetries` proves that Min retries are promised only
  if Min is zero or less, by a burst of Min late attempts for every other Min.
- `WaitForAllRouteEntriesAvailable` speaks of all entries and an Available status; the code polls one
  route until it has an id, and so does the model.

## Model

| member | source | states |
|---|---|---|
| `Convergence.TwoPassConvergence` | pkg/controller/route/manager.go:76-112 | for IPv4 pod CIDRs: two fault-free passes converge from every table if and only if no eligible node's route is the default one or conflicts with a node |
| `Convergence.DisjointIsCompatible` | pkg/controller/route/manager.go:114-137 | pairwise disjoint pod CIDRs, none the default route, meet that condition |
| `Convergence.OnePassSuffices` | pkg/controller/route/manager.go:82-107 | from a given table one pass converges if and only if no eligible node's destination has another owner |
| `Convergence.LeftWithoutRoute` | pkg/controller/route/manager.go:82-107 | after one pass the eligible nodes without a route are exactly those whose destination had another owner; they are marked as routed all the same |
| `Convergence.OnePassNoConflicts` | pkg/controller/route/manager.go:82-90 | after one pass no visible route conflicts with a node |
| `Convergence.PassFromNoConflicts` | pkg/controller/route/manager.go:92-110 | a pass that begins without conflicts ends with every eligible node owning the route at its CIDR |
| `Convergence.ConvergedIsStable` | pkg/controller/route/manager.go:76-112 | a further pass leaves a converged table's destinations and owners as they are |
| `Convergence.ClaimsMeaning` | pkg/controller/route/manager.go:92-102 | every route a pass asks for is some eligible node's own, and every eligible node's destination is asked for |
| `Convergence.ConflictMeaning` | pkg/controller/route/manager.go:114-137 | a canonical IPv4 route conflicts with a node if and only if the node's block strictly encloses it, or equals it with another instance |
| `Convergence.OwnRoute` | pkg/controller/route/manager.go:129-130 | a route at a node's own CIDR conflicts with that node if and only if its owner differs, a node without an instance included |
| `Convergence.NoMoreSpecific` | pkg/controller/route/manager.go:156-178 | in a converged table no route other than a node's own matches an address of its CIDR with an equal or longer prefix |
| `Convergence.Delivery` | pkg/controller/route/manager.go:114-178 | in a converged table longest-prefix match routes every address of an eligible node's pod CIDR to that node's instance |
| `Progress.DistanceZero` | pkg/controller/route/manager.go:82-110 | the number of conflicting routes plus nodes lacking their route is zero if and only if the table is converged |
| `Progress.DeleteIsCloser` | pkg/controller/route/manager.go:82-90 | deleting a conflicting route strictly lowers that number |
| `Progress.CreateIsCloser` | pkg/controller/route/manager.go:92-110 | creating an eligible node's missing route strictly lowers it |
| `Progress.LegalIsCloser` | pkg/controller/route/manager.go:82-110 | every write a pass may make strictly lowers it and leaves every correct route alone |
| `Progress.WritesAreBounded` | pkg/controller/route/manager.go:82-110 | over any sequence of such writes: writes made plus distance left never exceed the distance at the start, and no write concerns a node's correct route |
| `Progress.PeriodicalSync` | pkg/controller/route/route_controller.go:295-297 | any number of passes over fixed nodes, each with its listing: the bound on writes whatever fails, and convergence after two rounds if nothing fails |
| `RouteController.ReconcileRoute.SyncRoutes` | pkg/controller/route/manager.go:76-112 | the table, the marks and the number of calls are exactly `PassUnder` of the listing and the script; a listed route is gone if and only if it conflicts and no call of its own deletion was refused; the writes are legal ones and replaying them gives the new table; the cache only gains the nodes' own entries; without faults the table becomes `OnePass` of the old one; a failed listing changes nothing; and the whole call is a path of the state machine |
| `Passes.OwnDeletionDecides` | pkg/controller/route/manager.go:82-90 | after any part of the deleting loop, a listed route is gone if and only if the loop has come to it, it conflicts, and neither of the two calls of its own deletion was refused |
| `Passes.ListedSurvives` | pkg/controller/route/manager.go:82-110 | the same after a whole pass: no other failure saves a conflicting route, and nothing brings it back within the pass |
| `Passes.AddKeeps` | pkg/controller/route/manager.go:92-110 | the adding loop deletes nothing, adds no listed destination and takes no mark back |
| `Passes.EachNodeIsTried` | pkg/controller/route/manager.go:92-110 | whatever became of the nodes before it, an eligible node is marked if and only if its own attempt reports no error, and then has a route unless it was found listed or its live lookup failed |
| `RouteController.ReconcileRoute.DeleteConflicts` | pkg/controller/route/manager.go:82-90 | exactly `DeleteAll` of the script: one deletion is tried for every listed conflicting route, and such a route stays if and only if a call of its own deletion was refused; without faults all of them are gone |
| `RouteController.ReconcileRoute.DeleteIfConflicting` | pkg/controller/route/manager.go:83-89 | makes the calls of one deletion if the route conflicts and none if not; deletes it exactly if none of them was refused |
| `RouteController.ReconcileRoute.AddAllMissing` | pkg/controller/route/manager.go:92-110 | exactly `AddAll` of the script, table, marks and calls; without faults it completes what the deletions left to `OnePass` of the table that was listed |
| `RouteController.ReconcileRoute.AddMissing` | pkg/controller/route/manager.go:92-110 | an eligible node is tried with exactly the calls, addition and error of `EffortFor`, and its status updated to routed exactly if there is no error; for any other node no call is made; marks only nodes whose destination was listed or is in the table, an empty listing aside |
| `RouteController.ReconcileRoute.AddRouteForNode` | pkg/controller/route/route_controller.go:189-242 | without an instance an error and no call; otherwise error, addition and calls are exactly those of `Adding`: a live lookup counts as failed if and only if its call was refused, and otherwise, with no route found, the error is that of the creation; no error means that the route was listed, is there, or the live lookup failed; the cache gains this node's entry exactly if a route is in hand |
| `Faults.AddingMeaning` | pkg/controller/route/route_controller.go:202-241 | when adding reports an error, when its lookup failed, and when it adds a route, in terms of the listing, the table and the creation |
| `Routes.NilErrorWithoutRoute` | pkg/controller/route/route_controller.go:202-215 | a nil error without a route is possible if and only if the route is missing beforehand and the listing is empty, so that the live lookup may fail, or has the destination although the table does not |
| `RouteController.ReconcileRoute.FindRoute` | pkg/controller/route/manager.go:139-154 | empty CIDR is an error; a non-empty listing alone decides; an empty one falls back to the live table |
| `RouteController.ReconcileRoute.NodeList` | pkg/controller/route/manager.go:222-237 | exactly the stored nodes without an exclude label |
| `RouteController.ReconcileRoute.ReconcileForCluster` | pkg/controller/route/route_controller.go:299-318 | nothing if the nodes cannot be listed; else one pass over all stored nodes that are not excluded, with exactly the outcome of `PassUnder`; legal writes only, and `OnePass` without faults; from an idle pass to an idle pass the call is a path of the state machine |
| `RouteController.ReconcileRoute.SyncCloudRoute` | pkg/controller/route/route_controller.go:162-187 | an eligible node is tried with a live lookup and exactly the outcome of `EffortFor`; its status is updated once, to routed if and only if that reports no error, so only if the route is there or the lookup call itself was refused; the error is that of adding, or else that of the update; an unparsable pod CIDR and a missing instance are errors and marked as not routed |
| `RouteController.ReconcileRoute.Reconcile` | pkg/controller/route/route_controller.go:113-160 | nothing but an error if the node cannot be read; for a node that is gone exactly the outcome of deleting the cached destination, whose entry is dropped on success and kept with the error on failure; for a present node exactly the outcome of `EffortFor` and the status update, and no error; every call is a path of the state machine's worker |
| `Interleaving.StepKeepsInv` | pkg/controller/route/route_controller.go:113-145 | every step of pass, worker or node changes, the worker's reads of the node and of the cache being two, keeps the invariant: each cached destination, and each one about to be cached, created or removed, is a pod CIDR that the node has had |
| `Interleaving.InvHolds` | pkg/controller/route/route_controller.go:189-242 | the invariant holds in every state of every run |
| `Interleaving.ConflictMeansWithin` | pkg/controller/route/manager.go:114-137 | a route that conflicts with a node is the node's pod CIDR or has all its addresses inside it, for either address family |
| `Interleaving.StepFrame` | pkg/controller/route/manager.go:70-112 | a step removes a route only within a pod CIDR some node has had, adds only an eligible node's own route, and alters none |
| `Interleaving.WholeRunFrame` | pkg/controller/route/manager.go:70-112 | the same between any two consecutive states of every run, under any faults and interleaving |
| `Simulation.DeletionBecomes` | pkg/controller/route/manager.go:82-90 | one iteration of the deleting loop, with any outcome of the deletion, is a step of the machine in any surroundings |
| `Simulation.AdditionBecomes` | pkg/controller/route/manager.go:92-106 | one iteration of the adding loop, lookup, creation and caching with any outcomes, is a path of the machine |
| `Simulation.WholePass` | pkg/controller/route/manager.go:76-112 | the loops of a pass join to a path from the listing to the end |
| `Simulation.PassFromIdle` | pkg/controller/route/route_controller.go:299-318 | with the listing of the nodes, to one from idle to idle |
| `Simulation.ReconcileAdds` | pkg/controller/route/route_controller.go:147-159 | the addition for a present node is a path of the worker |
| `Simulation.ReconcileRemoves` | pkg/controller/route/route_controller.go:121-143 | so is the removal for a node that is gone, failed or not, when nothing comes between its reads of the node and of the cache |
| `Simulation.RunGoesOn` | pkg/controller/route/route_controller.go:113-160 | a path continues a run of the machine to a longer run, to which the results on runs apply |
| `Losses.PassDeletes` | pkg/controller/route/manager.go:76-90 | the pass under way can delete a route if and only if it is yet to list the routes and the visible route conflicts with the nodes it has listed, or its deleting loop is yet to come to it, listed with an owner that conflicts with them |
| `Losses.WorkerDeletes` | pkg/controller/route/route_controller.go:119-126 | the worker's call under way can delete a route if and only if it is removing it, or has read that a node is gone whose cached destination it is |
| `Losses.LossIsForeseen` | pkg/controller/route/manager.go:70-90 | in every run a step takes a route away only if one of those two conditions held before it |
| `Runs.QuietStep` | pkg/controller/route/manager.go:76-112 | while the stored and held nodes have the given desires, the listing is current and no route they ask for is being removed, every interleaved step makes at most one write: a legal one, or, if it is the worker's removal, of a route that no node asks for |
| `Runs.QuietInv` | pkg/controller/route/manager.go:76-90 | from any state without a deleting loop under way, as long as those desires stay and no claimed route is removed: every route yet to be looked at by the deleting loop is in the table as it was listed, or gone and asked for by no node |
| `Runs.InterleavedProgress` | pkg/controller/route/manager.go:82-110 | from there on, whatever came before, whatever fails and however pass and worker interleave: changes other than removals plus distance left never exceed the distance before, removals are at most the routes no node asks for, and a node that owns its route keeps it |
| `Scenarios.LateLookDeletesCorrectRoute` | pkg/controller/route/route_controller.go:119-126 | for every eligible node a run without faults and with only this node, in which no cached node is ever gone, and the worker deletes the stored node's correct route all the same |
| `Scenarios.EarlySnapshotDeletesCorrectRoute` | pkg/controller/route/manager.go:129-130 | for every eligible node with an IPv4 non-default pod CIDR a run without faults and without removals, in which a pass that listed the node before its instance was known deletes its correct route |
| `Settling.PassClears` | pkg/controller/route/manager.go:82-90 | under the provisos of `Runs.Quiet`, through a complete pass with a concurrent worker, every visible conflicting route is still ahead of the deleting loop, and after the loop there is none |
| `Settling.PassFills` | pkg/controller/route/manager.go:92-110 | under the same provisos, through a complete pass that begins without conflicts, every eligible node dealt with has a route at its pod CIDR |
| `Settling.TwoPassesSettle` | pkg/controller/route/manager.go:76-112 | from any state of any run without a deleting loop under way, whatever came before, as long as the desires of the stored and held nodes stay and no claimed route is removed: two complete passes whose own calls work leave the table converged from then on, whatever the worker does |
| `Removal.CachedDestination` | pkg/controller/route/route_controller.go:119-145 | over one life of a node name, from a state at which nothing else is cached or being removed for it, while the stored and held nodes of that name have one pod CIDR or none as yet: that CIDR is what is cached for it and what its removal deletes |
| `Removal.RemovalOutcome` | pkg/controller/route/route_controller.go:126-139 | a failed removal keeps the entry, so the next attempt from that cache has the same destination; a successful one leaves no route there |
| `Removal.PassRestores` | pkg/controller/route/manager.go:92-106 | in every state that satisfies the invariant: the pass under way can bring an absent route back if and only if it still holds an undealt-with eligible node with that CIDR and its listing lacks it, or is about to create it |
| `Removal.PassRecaches` | pkg/controller/route/route_controller.go:238-240 | likewise it can put an absent cache entry back if and only if it still holds an undealt-with eligible node of that name, or is about to create or cache its route |
| `Removal.RemovalIsComplete` | pkg/controller/route/route_controller.go:122-145 | a successful removal leaves neither a route nor a cache entry, provided that at the removal the pass under way cannot bring the route back and no stored eligible node has that pod CIDR until the entry is dropped |
| `Scenarios.StaleSnapshotResurrects` | pkg/controller/route/manager.go:92-106 | for every eligible node a run in which no step is a fault: the worker deletes this node's route, drops its entry, and at the end the node is gone, uncached, and its route is there |
| `Ksyun.Cloud.ListRoutes` | pkg/ksyun/ksyun.go:76-129 | each visible route once, with its first gateway as owner; the default route is hidden |
| `Ksyun.Cloud.FindRoute` | pkg/ksyun/ksyun.go:131-180 | the route at the CIDR if there is one, unless the call fails |
| `Ksyun.Cloud.DeleteRoute` | pkg/ksyun/ksyun.go:182-215 | exactly the outcome of `Deletion`: success leaves no route at the CIDR, failure leaves the table as it was or without that route |
| `Ksyun.Cloud.CreateRoute` | pkg/ksyun/ksyun.go:217-256 | adds the route exactly if the destination is free and the call is not refused; the reply is a success only if that is reported and the wait sees the route, and the "same with a route" error for a taken destination |
| `Ksyun.Cloud.CreateRouteForInstance` | pkg/controller/route/manager.go:31-68 | error, route in hand, addition and calls are exactly those of `Creation`, and each reply is the one its call meets; over all retries and lost replies at most one route is added; a nil error means a route at the CIDR, the given instance's if there was none; at most 36 availability polls |
| `Ksyun.Cloud.ExponentialBackoff` | pkg/controller/route/manager.go:41-61 | its retry loop, up to the final lookup |
| `Faults.CreationMeaning` | pkg/controller/route/manager.go:41-67 | by its last attempt, creating fails if and only if that was a further ordinary failure, or the answer was that the route is there and looking it up failed; when a route is added and in hand, and how many calls were made |
| `Faults.RetryWorks` | pkg/controller/route/manager.go:41-57 | after up to two refusals, a create that gets through adds the route and there is no error |
| `Faults.RepliesMeaning` | pkg/controller/route/manager.go:42-55 | only an ordinary failure leads to another attempt, and it is reported only after the third |
| `Faults.CreationOutcome` | pkg/controller/route/manager.go:31-68 | at most one route is added, only where there was none, and success means that there is one |
| `Ksyun.Cloud.DeleteRouteForInstance` | pkg/controller/route/manager.go:70-74 | the outcome of `DeleteRoute` |
| `Waiting.WaitForAllRouteEntriesAvailable` | pkg/ksyun/openstack_client/neutron/route.go:391-413 | succeeds if and only if one of the first ceil(T/5) polls does, stops at the first, and sleeps less than T seconds in all; T <= 0 counts as 60 |
| `Conflicts.ContainsRoute` | pkg/controller/route/manager.go:156-178 | refines the function `Containing` that the theorems are about, including the error and the missing outside network |
| `Conflicts.FillLastIP` | pkg/controller/route/manager.go:170-173 | the array ends up holding the address with every host bit set |
| `Conflicts.ConflictWithNodes` | pkg/controller/route/manager.go:114-137 | true if and only if some node conflicts with the route |
| `Conflicts.ConflictWithNode` | pkg/controller/route/manager.go:116-133 | one iteration: nodes without a usable CIDR and unparsable routes are skipped |
| `Conflicts.EndpointTest` | pkg/controller/route/manager.go:156-178 | for any IPv4 route text: containment is reported if and only if the text is not the network's own and all its addresses are in the network |
| `Conflicts.EndpointTestCanonical` | pkg/controller/route/manager.go:156-178 | for canonical texts the three verdicts are proper subset, equal sets, and neither |
| `Conflicts.ProperSubsetByPrefix` | pkg/controller/route/manager.go:174-177 | a block is properly inside another if and only if its prefix is longer and the two overlap |
| `Conflicts.ContainmentIsReal` | pkg/controller/route/manager.go:170-177 | for either address family a reported containment is one of address sets |
| `Conflicts.ShortEnds` | pkg/controller/route/manager.go:170-174 | the ends that `Contains` looks at are those of the block in its short form, IPv4-mapped networks included |
| `Cidr.ParseCIDR` | pkg/controller/route/manager.go:161 | a parsed network has four or sixteen bytes and no host bits |
| `Cidr.ParseText` | pkg/controller/route/manager.go:208-214 | printing an IPv4 network and parsing the text gives it back (notation of section 3.1 of RFC 4632) |
| `Cidr.ParseAddressText` | pkg/util/ip/ipnet.go:174 | the text of an address and a prefix length parses to the network they lie in |
| `Cidr.ParseIPv6Network` | pkg/controller/route/manager.go:208 | so does that of an IPv6 address |
| `IpText.ParseFullIPv6` | pkg/controller/route/manager.go:208 | an IPv6 address written in full parses to its bytes |
| `IpText.ParseGapFirst` | pkg/controller/route/manager.go:208 | so does one whose leading zeros are left out |
| `IpText.ParseGapLater` | pkg/controller/route/manager.go:208 | and one whose zeros are left out after some groups |
| `Cidr.EndpointsSuffice` | pkg/controller/route/manager.go:170-176 | a network that holds both ends of a block holds all of it |
| `Cidr.Laminar` | pkg/controller/route/manager.go:174-177 | with an address in common, the shorter prefix's block includes the longer one's |
| `Cidr.SubsetPrefix` | pkg/controller/route/manager.go:174-177 | a block inside another has at least as long a prefix |
| `Cidr.SameBlock` | pkg/controller/route/manager.go:166-168 | networks with the same addresses are the same network |
| `Nodes.NeedSyncRoute` | pkg/controller/route/manager.go:180-198 | excluded, unknown or deleting nodes take no route, all others do |
| `Nodes.NeedsSyncMeans` | pkg/controller/route/manager.go:180-198 | in the API's words: neither exclude label, no deletion mark, and no latest Ready condition with status "Unknown" |
| `Nodes.InstanceIdMeans` | pkg/controller/route/manager.go:239-266 | the first annotation, else the second, else the ProviderID |
| `Nodes.GetIPv4RouteForNode` | pkg/controller/route/manager.go:200-220 | the loop computes the answer that the following lemmas explain from the node's fields |
| `Nodes.PodCIDRsDecide` | pkg/controller/route/manager.go:206-217 | the first of `podCIDRs` that is an IPv4 network's text or does not parse decides: that network, or an error |
| `Nodes.PodCIDRDecides` | pkg/controller/route/manager.go:206-219 | if none does, `podCIDR` decides, and if that is empty the last of `podCIDRs` that is not; with all empty there is none |
| `Nodes.DualStackNode` | pkg/controller/route/manager.go:206-217 | a node whose IPv6 pod CIDR comes first gets its route for the IPv4 one |
| `Nodes.ScanMeaning` | pkg/controller/route/manager.go:200-220 | the first entry that is an IPv4 network or unparsable decides; with neither, the last non-empty one; an error if and only if an unparsable entry comes first |
| `Nodes.ScanByEntry` | pkg/controller/route/manager.go:200-220 | the scan is what its one deciding entry parses to |
| `Nodes.PodCIDRIsUsed` | pkg/controller/route/manager.go:206-219 | a node whose only pod CIDR is an IPv4 network's text gets its route for that network at that text |
| `NodeUtils.FindCondition` | pkg/controller/helper/node_utils.go:82-97 | the loop finds the condition that `Find` does: latest heartbeat, earliest among equals |
| `NodeUtils.Find` | pkg/controller/helper/node_utils.go:82-97 | the condition of the kind with the latest heartbeat, the earliest in the list among equals; none only if there is none |
| `NodeStatus.PatchedIsFound` | pkg/controller/route/route_controller.go:261-280 | with a clock not behind the stored heartbeats, the written condition is the one found afterwards, all others keep place and value, at most one is appended, and asking again is a no-op |
| `NodeStatus.ApiServer.Diff` | pkg/controller/route/route_controller.go:261-280 | rewrites the found condition in place or appends one, and changes nothing else of the node |
| `NodeStatus.ApiServer.PatchM` | pkg/controller/helper/node_utils.go:28-80 | answered as its call meets; the stored node gets exactly the diff, once, or nothing; a version conflict means nothing |
| `NodeStatus.ApiServer.UpdateNetworkingCondition` | pkg/controller/route/route_controller.go:244-293 | nothing exactly if the latest NetworkUnavailable condition of the given object is "False" for a created route or "True" for a missing one already; else the node's latest such condition gets that status with the matching reason and message; each try is answered as its call meets, a version conflict and nothing else leads to another, three in all, and the error is that of the last |
| `NodeStatus.ApiServer.PatchUntilTaken` | pkg/controller/route/route_controller.go:257-292 | its retry loop |
| `NodeStatus.WhatIsWritten` | pkg/controller/route/route_controller.go:263-278 | with a clock not behind the stored heartbeats, the latest NetworkUnavailable condition afterwards is "False" with reason RouteCreated, or "True" with reason NoRouteCreated |
| `NodeStatus.WhatIsSet` | pkg/controller/route/route_controller.go:245-254 | the early exit is taken if and only if the latest such condition has that status |
| `Faults.TriesMeaning` | pkg/controller/route/route_controller.go:258-290 | all tries but the last are version conflicts, and the last is none unless it is the third |
| `Ipnet.ShlIsShift` | pkg/util/ip/ipnet.go:153-156 | the one-bit-at-a-time shift of the proofs is the machine's shift, zero from width 32 on |
| `Ipnet.MasksNest` | pkg/util/ip/ipnet.go:153-156 | the mask of a shorter prefix is part of that of a longer one |
| `Ipnet.BlockIsRange` | pkg/util/ip/ipnet.go:158-160 | the words that agree with a network address under its mask are an interval |
| `Ipnet.LastBySize` | pkg/util/ip/ipnet.go:153-160 | its last address is the network address plus 2^(32-p) - 1 |
| `Ipnet.ContainsIsInterval` | pkg/util/ip/ipnet.go:158-160 | `Contains` is membership in [network, network + 2^(32-p) - 1] |
| `Ipnet.NetworkKeepsBlock` | pkg/util/ip/ipnet.go:110-115 | `Network` is idempotent and keeps `Contains` |
| `Ipnet.Includes` | pkg/util/ip/ipnet.go:139-160 | of two blocks with a common address the one with the shorter prefix includes the other |
| `Ipnet.OverlapsMeans` | pkg/util/ip/ipnet.go:139-147 | `Overlaps` is true if and only if some address is in both blocks |
| `Ipnet.IterateMeans` | pkg/util/ip/ipnet.go:117-122 | k applications of `Next` add k block sizes, modulo 2^32 |
| `Ipnet.IterateReturns` | pkg/util/ip/ipnet.go:117-122 | 2^p applications of `Next` lead back to the start |
| `Ipnet.IterateCovers` | pkg/util/ip/ipnet.go:117-122 | every address lies in one of the blocks visited on the way |
| `Ipnet.VanishingCount` | pkg/util/ip/ipnet.go:117-122 | no fewer than 2^p steps, except none, lead back |
| `Ipnet.IterateDisjoint` | pkg/util/ip/ipnet.go:117-122 | no two of those blocks have an address in common |
| `Ipnet.Tiling` | pkg/util/ip/ipnet.go:110-122 | the three together, for every prefix length up to 32, p = 0 and p = 32 included |
| `IpnetText.FromBytesOctets` | pkg/util/ip/ipnet.go:26-56 | `FromBytes` undoes `Octets` |
| `IpnetText.OctetsFromBytes` | pkg/util/ip/ipnet.go:26-56 | and the other way round |
| `IpnetText.ParseString` | pkg/util/ip/ipnet.go:37-73 | parsing the text of any address gives it back |
| `IpnetText.JSONRoundTrip` | pkg/util/ip/ipnet.go:80-94 | decoding the JSON form of any address gives it back |
| `IpnetText.NetJSONRoundTrip` | pkg/util/ip/ipnet.go:166-180 | decoding the JSON form of any network with prefix up to 32 yields exactly its `Network` |
| `IpnetText.MaskOctets` | pkg/util/ip/ipnet.go:153-156 | the octets of the word mask are the net package's mask bytes |
| `IpnetText.ContainsIsMember` | pkg/util/ip/ipnet.go:158-160 | the word test and the byte test agree on which addresses a network holds |
| `IpnetText.IP4Variable.UnmarshalJSON` | pkg/util/ip/ipnet.go:86-94 | assigns the decoded value through the receiver, or leaves it |
| `IpnetText.IP4NetVariable.UnmarshalJSON` | pkg/util/ip/ipnet.go:172-180 | the same for networks; an address without a four-byte form panics |
| `IpText.ParseFormatIPv4` | pkg/util/ip/ipnet.go:37-73 | the dotted quad of four octets reads back as those octets |
| `Decimal.ReadFormat` | pkg/util/ip/ipnet.go:102-104 | reading a printed number stops exactly at its end with its value |
| `Attempts.Attempt.constructor` | pkg/util/attempt.go:27-35 | a sequence starts forced, with nothing counted |
| `Attempts.Attempt.Next` | pkg/util/attempt.go:39-53 | refines the step function of the run theorems, for any readings of the clock |
| `Attempts.Attempt.HasNext` | pkg/util/attempt.go:66-76 | the same |
| `Attempts.CountIsSuccesses` | pkg/util/attempt.go:39-53 | the counter is the number of calls of `Next` that returned true |
| `Attempts.AttemptBound` | pkg/util/attempt.go:27-76 | for Delay > 0 and any calls, `Next` returns true at most max(1, Min, ceil(Total/Delay)) times |
| `Attempts.AttemptSpacing` | pkg/util/attempt.go:39-61 | consecutive successes are at least Delay apart, with any calls in between |
| `Attempts.AttemptPromise` | pkg/util/attempt.go:63-76 | after `HasNext` has returned true the following `Next` returns true |
| `Attempts.FirstAttempts` | pkg/util/attempt.go:39-53 | the first max(1, Min) calls of `Next` return true, whatever the clock shows |
| `Attempts.MinIsNotRetries` | pkg/util/attempt.go:12-16 | that Min retries follow the first attempt holds, for all calls and clocks, if and only if Min is zero or less |
| `Attempts.WhenNextStops` | pkg/util/attempt.go:37-53 | after any calls, `Next` returns false if and only if no attempt is owed, Min have been made, and the next one, due Delay after the last, would come once Total has elapsed |
| `Attempts.ForceIsOwed` | pkg/util/attempt.go:45-73 | an attempt is owed at the start and after `HasNext` has returned true, until the next success |
| `Attempts.NextGoesOn` | pkg/util/attempt.go:37-53 | `Next` goes on returning true as long as the next attempt is due before Total has elapsed |
| `EventFilter.FilterIsSound` | pkg/controller/route/predicate.go:18-62 | in annotation mode, with no ProviderID and annotations set once, a dropped update leaves the desired route as it was or the node has no instance |
| `EventFilter.DroppedIsHarmless` | pkg/controller/route/predicate.go:22-59 | without those provisos and in either mode, exactly when a dropped update is harmless: for each way the two instance annotations can be present in the old and new node, which annotation values or ProviderIDs must agree or be empty, and in the one case where pod CIDRs have not been compared, that the deciding entries parse alike |
| `EventFilter.SameEntryMeans` | pkg/controller/route/manager.go:200-220 | two nodes' scans agree if and only if their deciding entries are both missing or parse to the same |
| `EventFilter.RewrittenInstanceIsMissed` | pkg/controller/route/predicate.go:22-59 | rewriting an instance annotation is dropped although the desired route changes; the annotator itself never rewrites one (pkg/annotation/node.go:106-109) |
| `EventFilter.StatusChangesAreDropped` | pkg/controller/route/predicate.go:40-59 | updates of only labels, conditions or the deletion mark are dropped, in either mode |
| `EventFilter.RecreatedNodePasses` | pkg/controller/route/predicate.go:27-43 | a node with a new uid passes if and only if annotation mode is off or it has an instance annotation |
| `EventFilter.ChangedSpecPasses` | pkg/controller/route/predicate.go:27-57 | so does one with another ProviderID or other pod CIDRs |

## Left out

- HTTP, signing, tracing, credential reload and alarms: network plumbing; on the table operations they appear as calls that may fail or lose their reply.
- The building of patches, their JSON and the API server's storage: one atomic replacement or failure; patching two conditions of one type by merge key is not modelled.
- Logging, events, metrics, flags, leader election, start-up and the work queue; `configRoutes` is taken to be true.
- `Route.Name`, which is only logged.
- Back-off durations and jitter between create attempts: only their number matters here.
- Other writers to the route table, and restarts of the controller with an empty cache.
- `Convergence.TwoPassConvergence`: states convergence for IPv4 pod CIDRs, because the program routes those; for IPv6 ones the frame results hold (`Interleaving.WholeRunFrame`), but completeness of the endpoint test for them is not stated, nor that printed IPv6 text, as opposed to written forms in general, parses.
- `Removal.RemovalIsComplete`: says nothing of a removal during which a stored eligible node has the removed node's pod CIDR; such a node may rightly ask for the route.
- `Runs.InterleavedProgress`: says nothing of spans in which what the nodes ask for changes, or a claimed route is removed for a node that seemed gone; there a correct route can be deleted (the two runs of `Scenarios`), and `Losses.LossIsForeseen` says which.
- `Attempts.AttemptBound`: times are unbounded integers, so an overflow of a duration is not modelled.
- `EventFilter.FilterIsSound`: treats a nil and an empty list of pod CIDRs as equal, where the program passes such an event on; the model therefore drops no fewer events. Objects that are not nodes, which the program passes on, are not modelled.
- The status patches that the controller makes are, in the state machine of `Interleaving`, among the arbitrary changes of nodes; their exact effect is in `NodeStatus` and in the methods.
- `ToIPNet`, `StringSep`, `NetworkOrder`, `Equal`, `Empty` and `MustParseIP4`: they would only add easy members.
- Node zone and instance annotators, the notifier, encoding helpers and the tunnel and interface code.
