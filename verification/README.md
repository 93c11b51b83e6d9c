# ote-stack: a verified model

OTE-Stack is a tree of cluster controllers that manages edge clusters from one centre. This project models
the parts of it that have to agree with each other over time, and proves what they promise:

- **Routing** (`RouteTable`, `ClusterRouter`, `ClusterHandler`, `ClusterTree`, `Uplinks`, `Convergence`,
  `Tightness`, `Membership`, `Churn`, `LateUnregist`, `Neighbours`). Every controller keeps a table from subtree
  clusters to children. Registrations, unregistrations, disconnects and periodic subtree reports change it, each handled
  hop by hop. Main results: from stale tables, a tree of height h has exact tables after h + 1 rounds of reports, and h
  rounds do not suffice; after any interleaving of connects, closes and messages, once nothing is on the way and no
  table points upwards, rounds of reports make the tables exact exactly if every child got its self-route from its
  parent since it connected last, and was not cut off since by its own unregistration coming up through itself; and
  neighbour information pushed down the tree is the real one once nothing is in flight.
- **Delivery** (`Selector`, `Delivery`). A message is split per child, and its selector is rewritten at every
  hop. Main result: every selected cluster handles it, none gets two copies, and nobody else handles it exactly
  if no selected name, read as a pattern, matches an unselected name of the same child's subtree.
- **Central replica** (`Optimistic`, `Retries`, `PodReplica`, `Naming`, `PodReports`). Concurrent read-check-write
  handlers against a store with optimistic concurrency, the renaming of edge resources, and the edge-side batching that
  feeds it. Main results: versions never go back under any interleaving; a report leaves the centre alone under every
  interleaving exactly if its version is too old when it comes in; a conflict is retried, and ends a handler exactly if
  it is the last of the tries of its phase; a flushed batch gives what the event stream gives exactly if no pod was
  deleted and came back within the window, or was created and then scheduled in it.
- **Edge store** (`EdgeStore`, `EdgeStoreRuns`). An in-memory cache over a flat key-value store. Main result: in
  every run of connecting, syncing, disconnecting, local writes in any mode and crashes, the store rebuilds the live
  cache exactly if no notification was dropped, or is outstanding, that says something else than what is stored, and
  no local write went to the store alone.
- **Load balancer** (`LoadBalancer`). A rotation over a shuffled list. Main results: complete scans, and shares
  that differ by at most one.
- **Smaller protocols** (`BlackList`, `ResendTunnel`, `ResponseMerge`, `StatusPatch`): parent failover, ordered
  resending, last-writer-wins merging of responses, and the status merge patch of section 2 of RFC 7396.

Objects that the source updates in place are classes; protocols between goroutines or machines are state
machines whose runs are all interleavings of their steps. `Options`, `Collections` and `Clusters` hold what the
modules share.

## What is taken from outside

The regular expression engine is a parameter `matches(pattern, name)`; JSON encoding is a codec whose decoder
inverts its encoder for the supported types; the Kubernetes API server is a map of objects with a resource
version and an identity that refuses a write with a stale version; LevelDB is a map; the clock, the random
shuffle, dialling, and the iteration order of Go maps are parameters or left open. Each router method is one step
because it holds the router's lock; each method of the blacklist, and each scan of the balancer, because a single
goroutine calls it. Links between controllers are in order, messages take any
time on them, and one handler is one step.

## Where the code falls short of its promise

Each of these is stated as the exact condition under which the promise holds, or as a failing example, or both.

- Delivery is said to be accurate, but a rewritten selector holds names that are matched as unanchored regular
  expressions: publishing for `^a$` also reaches `ab` below `a` (`Delivery.RewrittenSelectorStrays`,
  `Delivery.ExactDeliveryIff`).
- A child whose self-route is refused when it connects never gets it later
  (`RouteTable.RefusedAtConnect`, `RouteTable.SelfRouteIffAcceptedAtConnect`, `Convergence.RefusedNeverConverges`,
  `Convergence.ConvergesIffSelfRouted`, `Churn.ConnectKeepsSoundIff`).
- A late unregistration of a cluster that comes up through that cluster itself cuts it off, and no reports bring its
  routes back (`LateUnregist.LateUnregistCutsOff`, `Churn.HandlingKeepsSoundIff`). It cannot happen unless a cluster
  connects below one whose unregistration it still has on the way (`Churn.RunNeverCuts`).
- An unregistration removes the closed cluster from the tables above its parent, but not what was below it; a
  registration announces only the joining cluster. Reports make up for both
  (`Membership.LeaveIsExactIff`, `Membership.JoinIsExactIff`, `Churn.ConvergesAfterChurn`).
- One round of reports does not repair a table in general, since a standing route refuses the right one
  (`RouteTable.OneRoundFallsShort`); it does exactly if the child that holds the stale route reports before the right
  one (`RouteTable.OneRoundIff`).
- A pod report that fails the version check may have written before, when a newer report comes between its two writes
  (`PodReplica.RejectedReportMayHaveWritten`). It writes nothing for certain exactly if its version is too old when it
  comes in (`PodReplica.ReportWritesNothingIff`).
- The message of the version check speaks of "less than or equal"; the check accepts equal versions, and so does
  the model (`PodReplica.CheckEdgeVersion`).
- A pod deleted and recreated between two flushes is lost at the centre (`PodReports.RecreatedPodIsLost`). A pod
  created and scheduled between two flushes gets its node from the flush, but would not from the events one by one,
  since the centre never updates that part of a spec (`PodReports.ScheduledPodDiffers`). Apart from these two cases
  flushing and streaming agree (`PodReports.FlushRefinesStreamIff`). Updates in the wrong order also make a difference
  (`PodReports.StaleUpdateWins`); informers do not deliver such updates.
- A cluster that starts without pods sends no full list (`PodReports.PodReporter.FirstReport`), and a report without
  a list leaves the pods alone that it does not mention, so pods that are gone at the edge stay at the centre
  (`PodReports.WindowKeepsStale`, `PodReports.FullReportSynchronisesIff`).
- A disconnect drops the notifications that the syncer has not handled, while the cache already holds them
  (`EdgeStoreRuns.DisconnectLoses`, `EdgeStoreRuns.DisconnectAgreesIff`).
- The balancer turns requests to the local store before the store leaves connected mode. A write in between is stored
  and not cached (`EdgeStoreRuns.ConnectedWriteDiffers`).
- A held message of the controller tunnel waits for the health flag and not for the connection. A send that fails just
  before a reconnect is complete can leave the flag down over a working connection, and nothing is sent until the next
  reconnect (`ResendTunnel.HeldUntilRaised`).
- Central names of two clusters can coincide exactly if one cluster's name is the other's with a prefix ending
  in `-`; every resource then has a name it can be confused with (`Naming.CollideIff`, `Naming.OverlapCollides`).
- A status patch carries the whole merged document instead of a difference, so a field the new status sets to
  null stays at the server (`StatusPatch.DeletionIsLost`, `StatusPatch.PatchTwiceIff`).
- A disconnected update of an uncached type, or of data that does not decode to an object of that key, makes
  cache and store differ (`EdgeStore.OfflineUpdateAgreesIff`, `EdgeStoreRuns.OfflineWriteKeptIff`). After a restart a
  type is cached exactly if it has an entry (`EdgeStore.RebuiltTypes`).
- A report that loses the race to create its pod fails without updating it (`Retries.CreateRace`).

## Model

| member | source | states |
|---|---|---|
| `RouteTable.ReportAnyOrder` | pkg/clusterhandler/clusterhandler.go:707-729 | the two loops of a subtree report give the same table in every order of map iteration |
| `RouteTable.ReportLocal` | pkg/clusterhandler/clusterhandler.go:707-729 | a report of p leaves other ports and all self-routes alone, and what remains behind p was reported |
| `RouteTable.PortChangesOnlyThroughDeletion` | pkg/clusterrouter/router.go:166-211 | in any run of registrations, unregistrations and reports, a destination changes port only after being absent |
| `RouteTable.NewRoutesAreAnnounced` | pkg/clusterrouter/router.go:166-181 | a route that was not there before a run was announced by its own port during the run |
| `RouteTable.ClosedPortStaysClosed` | pkg/clusterhandler/clusterhandler.go:556-619 | after closing p and any run without messages from p, nothing is routed through p, and p itself only if another child announced it |
| `RouteTable.TwoRoundsGiveExactTable` | pkg/clusterhandler/clusterhandler.go:707-729 | from any stale table with current ports and self-routes, two rounds of truthful reports in any order give exactly the children's subtrees |
| `RouteTable.RoutedIff` | pkg/clusterhandler/clusterhandler.go:707-729 | a cluster is routed through its own child after a round if and only if it was before, or was unknown, or the child of its stale route reports before its own |
| `RouteTable.OneRoundIff` | pkg/clusterhandler/clusterhandler.go:707-729 | one round gives the exact table if and only if every child whose cluster is routed through another child reports after that other child |
| `RouteTable.OneRoundFallsShort` | pkg/clusterhandler/clusterhandler.go:707-729 | when the right child reports first, one round leaves the table inexact |
| `RouteTable.OneRoundGivesExactTable` | pkg/clusterhandler/clusterhandler.go:707-729 | one round is enough if no child has children |
| `RouteTable.RunKeepsPortsCurrent` | pkg/clusterhandler/clusterhandler.go:516-619 | in every run from an empty controller all next hops are connected children |
| `RouteTable.SelfRouteIffAcceptedAtConnect` | pkg/clusterhandler/clusterhandler.go:392-426 | a child has its self-route for as long as it stays if and only if the route was accepted when it connected |
| `RouteTable.RefusedAtConnect` | pkg/clusterhandler/clusterhandler.go:516-548 | a run in which a connecting child is refused because its route through another child still stands |
| `ClusterRouter.Router.AddChild` | pkg/clusterrouter/router.go:110-131 | a used name is refused without change; otherwise the child is added and the new view is broadcast |
| `ClusterRouter.Router.DelChild` | pkg/clusterrouter/router.go:135-150 | the child is gone and the view is broadcast, even if there was no such child |
| `ClusterRouter.Router.AddRoute` | pkg/clusterrouter/router.go:166-181 | an existing route is never overwritten, and success means exactly that the route is there afterwards |
| `ClusterRouter.Router.DelRoute` | pkg/clusterrouter/router.go:188-211 | only a matching route is deleted; deleting a child deletes exactly the entries to it and through it; in any table every other route keeps its next hop |
| `ClusterRouter.Router.SubTreeOfPort` | pkg/clusterrouter/router.go:251-259 | exactly the destinations behind a port other than itself, each once |
| `ClusterRouter.Router.SubTreeClusters` | pkg/clusterrouter/router.go:262-273 | exactly the destinations, each once |
| `ClusterRouter.Router.PortsToSubtreeClusters` | pkg/clusterrouter/router.go:229-248 | clusters grouped by next hop in their order, unrouted ones left out, no empty group |
| `ClusterRouter.Router.UpdateRouter` | pkg/clusterrouter/router.go:360-371 | the parent's children become the neighbours and its neighbours the parent-neighbours; children are notified exactly if the neighbours changed |
| `ClusterHandler.HandleRegist` | pkg/clusterhandler/clusterhandler.go:516-548 | a registration adds the route and goes on to the parent, or is stored at the root, exactly if the route stands |
| `ClusterHandler.HandleUnregist` | pkg/clusterhandler/clusterhandler.go:588-619 | an unregistration deletes nothing but routes of its sender, and always goes on to the parent or is marked at the root |
| `ClusterHandler.CloseChild` | pkg/clusterhandler/clusterhandler.go:556-580 | a closed child is neither listed nor routed, to it or through it; every other route stays, and the unregistration goes on |
| `ClusterHandler.UpdateRouteToSubtree` | pkg/clusterhandler/clusterhandler.go:707-729 | the loops over router calls compute the report: what is behind the child is what it reported, and other routes stand; an undecodable report changes nothing |
| `ClusterHandler.SelectChild` | pkg/clusterhandler/clusterhandler.go:274-292 | a child gets a message exactly if a selected cluster is behind it, with a selector listing exactly those |
| `Uplinks.TableIsHeard` | pkg/clusterhandler/clusterhandler.go:435-483 | a table changes by exactly the messages its controller handles, in their order |
| `Uplinks.SentIsHeard` | pkg/edgehandler/edgehandler.go:292-299 | what a child sends has been handled by its parent once nothing is left on the way |
| `Convergence.DoKeepsSound` | pkg/clusterhandler/clusterhandler.go:435-483 | no registration, unregistration or report, in whatever order they arrive, makes a next hop stale or removes a self-route |
| `Convergence.ExactTablesStay` | pkg/clusterhandler/clusterhandler.go:707-729 | exact tables stay exact at every moment, whatever is reported and however long it takes |
| `Convergence.KidsReport` | pkg/edgehandler/edgehandler.go:292-299 | while the tables below are right, a controller hears only honest reports, and truthful ones if they are complete |
| `Convergence.SubtreeCleans` | pkg/clusterhandler/clusterhandler.go:707-729 | after as many rounds as a subtree is high, none of its tables holds anything wrong |
| `Convergence.TreeConverges` | pkg/clusterhandler/clusterhandler.go:707-729 | in a tree of height h, h + 1 rounds of reports, sent and received in any interleaving within a round, make every table exact |
| `Tightness.HeightIsNotEnough` | pkg/clusterhandler/clusterhandler.go:707-729 | for every height of at least two a tree, sound tables and as many rounds as the height after which the tables are not exact |
| `Convergence.NextHopsReach` | pkg/clusterrouter/router.go:229-248 | with exact tables, following next hops reaches a descendant in exactly as many hops as it is deep |
| `Convergence.MovesKeepUnrouted` | pkg/clusterrouter/router.go:166-181 | no run of reports restores a self-route that was refused |
| `Convergence.ConvergesIffSelfRouted` | pkg/clusterhandler/clusterhandler.go:707-729 | the rounds make all tables exact if and only if every child had its self-route |
| `Convergence.RefusedNeverConverges` | pkg/clusterhandler/clusterhandler.go:707-729 | a tree of three clusters that no number of rounds repairs after a refused self-route |
| `Membership.RegistClimbs` | pkg/clusterhandler/clusterhandler.go:516-548 | a registration nobody refuses reaches the root and adds one route, through the right child, to each table on the way |
| `Membership.JoinIsExactIff` | pkg/clusterhandler/clusterhandler.go:516-548 | registration alone keeps all tables exact if and only if the joining cluster has nothing below it |
| `Membership.UnregistClimbs` | pkg/clusterhandler/clusterhandler.go:588-619 | an unregistration reaches the root and acts on each table through the right child |
| `Membership.LeaveIsExactIff` | pkg/clusterhandler/clusterhandler.go:556-619 | unregistration alone keeps all tables exact if and only if the cluster left the root or had nothing below it |
| `Churn.RegistIsHops` | pkg/clusterhandler/clusterhandler.go:516-548 | the climb of a registration is what its hops do when nothing comes between |
| `Churn.UnregistIsHops` | pkg/clusterhandler/clusterhandler.go:588-619 | the same for an unregistration |
| `Churn.ConnectKeepsSoundIff` | pkg/clusterhandler/clusterhandler.go:392-426 | a connecting subtree keeps ports current and self-routes in every table of the grown tree if and only if it has them itself and its new parent accepts it, whatever controllers further up do |
| `Churn.CloseKeepsSound` | pkg/clusterhandler/clusterhandler.go:556-580 | a closing child keeps ports current and self-routes in every table of the remaining tree |
| `Churn.ConnectSendsUp` | pkg/clusterhandler/clusterhandler.go:516-548 | an accepted connect sends one registration up from the new parent unless that is the root, a refused one nothing, and nobody else's messages change |
| `Churn.CloseSendsUp` | pkg/clusterhandler/clusterhandler.go:556-619 | a close sends one unregistration up from the parent unless that is the root, and drops what the closed child had on the way |
| `Churn.HandlingKeepsSoundIff` | pkg/clusterhandler/clusterhandler.go:588-619 | handling a message keeps them if and only if it is not the unregistration of its own sender |
| `Churn.NextKeepsFine` | pkg/clusterhandler/clusterhandler.go:435-483 | every step of any interleaving of connects, accepted or refused, closes, sends and single hops keeps all next hops current children |
| `Churn.StepSelfRouteIff` | pkg/clusterrouter/router.go:166-211 | a connected child has its self-route after a step if and only if the step gives it, or it had it and its own unregistration does not come up through itself |
| `Churn.SelfRouteIff` | pkg/clusterhandler/clusterhandler.go:392-426 | in every run a connected child has its self-route if and only if it got it at some time while connected and was not cut off since |
| `Churn.RunNeverCuts` | pkg/clusterhandler/clusterhandler.go:588-619 | nobody is cut off in a run in which no connecting subtree brings an unregistration of a cluster it is now below |
| `Churn.RunKeepsGood` | pkg/clusterhandler/clusterhandler.go:435-483 | in a run in which every connect is accepted and brings a sound subtree with nothing unsafe, every child has its self-route from when it connected |
| `Churn.ConvergesAfterChurn` | pkg/clusterhandler/clusterhandler.go:707-729 | after any run in which every child of the final tree got its self-route and was not cut off since, with nothing unsafe on the way, one round more than a quiet tree needs makes every table exact |
| `Churn.ConvergesIffAccepted` | pkg/clusterhandler/clusterhandler.go:707-729 | after any run that ends with nothing on the way and no table naming its own cluster or one above, rounds make every table exact if and only if every child got its self-route and was not cut off since |
| `LateUnregist.LateUnregistCutsOff` | pkg/clusterhandler/clusterhandler.go:588-619 | a run with an accepted connect in which a late unregistration empties the root's table, and no number of rounds repairs it |
| `Neighbours.NextKeepsSynced` | pkg/clusterrouter/router.go:110-150 | attaching, detaching, losing a connection and delivering keep every link in step with its parent's view |
| `Neighbours.DeliverLink` | pkg/clusterrouter/router.go:360-371 | a delivery is passed on, with the children and the new neighbours, exactly if it changes the neighbours, and touches no other link |
| `Neighbours.LostHearsNothing` | pkg/clusterrouter/router.go:277-293 | a controller that lost its connection gets nothing more while its parent still lists it |
| `Neighbours.RunKeepsInv` | pkg/clusterrouter/router.go:277-293 | in every run the last undelivered message of a link carries the parent's current view, or the child already holds it |
| `Neighbours.QuietMeansGrandparent` | pkg/clusterrouter/router.go:360-371 | with nothing in flight, a controller's parent-neighbours are its grandparent's children, at every depth |
| `Neighbours.DeliveriesEnd` | pkg/clusterrouter/router.go:360-371 | without attaching and detaching, deliveries come to an end within a bound set by what is in flight |
| `Selector.NewSelector` | pkg/clusterselector/selector.go:41-47 | the patterns are the comma-separated parts, each without the spaces around it and nothing else missing |
| `Selector.TrimSpaceCuts` | pkg/clusterselector/selector.go:41-47 | trimming takes off spaces at both ends and nothing else |
| `Selector.SpacesDoNotMatter` | pkg/clusterselector/selector.go:41-47 | valid names with any spaces around them and the commas are exactly the patterns of the selector |
| `Selector.Has` | pkg/clusterselector/selector.go:49-56 | true exactly if some pattern matches the name |
| `Selector.SplitJoin` | pkg/clusterselector/selector.go:59-61 | joining comma-free parts and splitting gives them back |
| `Selector.JoinSplit` | pkg/clusterselector/selector.go:41-61 | splitting and joining gives any selector back |
| `Selector.SelectorCarriesNames` | pkg/clusterselector/selector.go:41-61 | a selector built from valid names has exactly those names as patterns and is never empty |
| `Delivery.AtMostOneCopy` | pkg/clusterhandler/clusterhandler.go:274-292 | whatever the tables hold, no cluster of the tree gets two copies and no other cluster gets one |
| `Delivery.SelectedIs` | pkg/clusterhandler/clusterhandler.go:274-292 | with exact tables, a child is sent exactly the matching names of its subtree as patterns |
| `Delivery.RewrittenIsSelected` | pkg/clusterhandler/clusterhandler.go:274-292 | the selectors of the delivery model are ones that selectChild can produce |
| `Delivery.EveryTargetHandles` | pkg/edgehandler/edgehandler.go:163-181 | every cluster the original selector matches handles the message, through any number of rewritings |
| `Delivery.StrayIsHandled` | pkg/edgehandler/edgehandler.go:163-181 | an unselected cluster that a selected name of the same subtree matches handles it too |
| `Delivery.ExactDeliveryIff` | pkg/edgehandler/edgehandler.go:163-181 | exactly the selected clusters handle the message if and only if there is no such stray match |
| `Delivery.DeliversAfterRounds` | pkg/clusterhandler/clusterhandler.go:274-292 | from stale tables, after the rounds the tree needs, delivery is complete, without duplicates, and exact if and only if nothing strays |
| `Delivery.RewrittenSelectorStrays` | pkg/clusterselector/selector.go:49-56 | the selector `^a$` matches only `a`, but `ab` below it handles the message |
| `Optimistic.NextKeepsInv` | pkg/controllermanager/pod_processor.go:160-237 | every step of any handler, deletion or other writer keeps what was read under an unchanged resource version valid |
| `Optimistic.AcceptedWritesAdvance` | pkg/controllermanager/pod_processor.go:160-237 | in every interleaving the accepted writes of one object are ordered by version |
| `Optimistic.StoredIsNewest` | pkg/controllermanager/pod_processor.go:160-237 | a live object is at least as new as every report accepted for it |
| `Optimistic.VersionNeverDecreases` | pkg/controllermanager/upstream_processor.go:152-192 | between creation and deletion of an object its version never decreases |
| `Optimistic.WritesNothingIff` | pkg/controllermanager/pod_processor.go:160-237 | a handler whose object is there when it starts writes nothing in any continuation in which the object stays, if and only if its report fails the check when it starts |
| `Optimistic.OvertakenAfterWriting` | pkg/controllermanager/pod_processor.go:160-215 | a run in which a handler is rejected after its first write |
| `Optimistic.AloneFinishes` | pkg/controllermanager/pod_processor.go:160-215 | without interference a handler finishes, leaves the merged value under the same identity and touches no other object |
| `Retries.RetriesAlone` | pkg/controllermanager/pod_processor.go:160-215 | a handler about to write over a newer object, with tries left and nothing coming between from then on, leaves the merge over that newer object under the same identity |
| `Retries.ConflictEndsIff` | pkg/controllermanager/pod_processor.go:160-215 | in every run a conflict ends a handler if and only if it is the last of the tries of its phase; otherwise it reads again in the same phase |
| `Retries.EndsBefore` | pkg/controllermanager/pod_processor.go:160-237 | in every run a handler is rejected only by the check, and fails only on an error, when its object is gone, after losing the race to create, or after as many conflicts in one phase as it has tries |
| `Retries.DoneWroteAll` | pkg/controllermanager/pod_processor.go:160-237 | in every run a handler that ends as done has written once for each phase, and once more if it created the object |
| `Retries.CreateRace` | pkg/controllermanager/pod_processor.go:218-237 | a handler that found no object creates it under a fresh identity, or fails having written nothing if somebody else was faster |
| `PodReplica.AtoiItoa` | pkg/controllermanager/upstream_processor.go:163-173 | parsing reads back the decimal form of exactly the 64-bit numbers |
| `PodReplica.AtoiSigned` | pkg/controllermanager/upstream_processor.go:163-173 | digits with a sign are read as the number with that sign, and nothing but digits after an optional sign is a number |
| `PodReplica.CheckEdgeVersion` | pkg/controllermanager/upstream_processor.go:152-183 | true exactly if both versions are readable and the report is not older |
| `PodReplica.EdgeVersionNeverDecreases` | pkg/controllermanager/pod_processor.go:160-237 | under every interleaving of pod report handlers the edge version of a central pod never decreases while it exists |
| `PodReplica.UidChangesOnlyByDeletion` | pkg/controllermanager/upstream_processor.go:186-192 | no step that leaves the pod there changes its identity |
| `PodReplica.ReportWritesNothingIff` | pkg/controllermanager/pod_processor.go:160-237 | a report for a stored pod changes nothing under every interleaving in which the pod stays, if and only if its edge version is missing, unreadable or older when it comes in |
| `PodReplica.RejectedReportMayHaveWritten` | pkg/controllermanager/pod_processor.go:160-215 | for any three increasing versions there is a run in which the middle report is rejected after it has written its metadata and spec, and no status was written |
| `PodReplica.TwoPhasesMerge` | pkg/controllermanager/pod_processor.go:160-215 | the two writes together store labels, status and the mutable spec fields, or nothing if the check fails |
| `PodReplica.WritesByPhase` | pkg/controllermanager/pod_processor.go:160-215 | the first write leaves the status and the second the spec as stored; both store the reported labels |
| `PodReplica.UpdatedFields` | pkg/controllermanager/pod_processor.go:160-215 | a report that is not too old leaves its labels, status, deadline and tolerations, and the rest of the stored spec |
| `PodReplica.FivePerWrite` | pkg/controllermanager/pod_processor.go:160-215 | in every run a conflict ends a pod report if and only if it is the fifth in one of its two writes |
| `PodReplica.HandlerRetries` | pkg/controllermanager/pod_processor.go:160-215 | a report that finds the pod changed at its first write ends with the update of the changed pod |
| `PodReplica.HandlerAloneUpdates` | pkg/controllermanager/pod_processor.go:218-237 | an undisturbed handler on an existing pod leaves that update, the identity, and all other pods |
| `PodReplica.HandlerAloneCreates` | pkg/controllermanager/pod_processor.go:143-157 | on a missing pod it leaves the reported pod without service account under a fresh identity |
| `Naming.Meta.UniqueResourceName` | pkg/controllermanager/upstream_processor.go:142-149 | renaming and then keying equals keying and then suffixing; without cluster label nothing changes |
| `Naming.MetaKeyInjective` | pkg/controllermanager/upstream_processor.go:142-149 | keys of slash-free namespaces and names tell both apart |
| `Naming.OverlapCollides` | pkg/controllermanager/upstream_processor.go:195-197 | if one cluster's name is a dash-separated suffix of the other's, every resource has a name it is confused with |
| `Naming.CollideIff` | pkg/controllermanager/upstream_processor.go:195-197 | non-empty keys of two clusters can coincide if and only if one cluster's name is a dash-separated suffix of the other's |
| `Naming.UniqueInjective` | pkg/controllermanager/upstream_processor.go:195-197 | with dash-free cluster names the central key determines cluster and edge key |
| `PodReports.WindowHolds` | pkg/reporter/pod_reporter.go:148-164 | over any window a key is to be updated exactly if its last event was an update, and deleted exactly if it was ever deleted |
| `PodReports.PodReporter.SetUpdateMap` | pkg/reporter/pod_reporter.go:148-153 | records the update and keeps an earlier delete |
| `PodReports.PodReporter.SetDelMap` | pkg/reporter/pod_reporter.go:156-164 | records the delete and drops a pending update |
| `PodReports.PodReporter.Flush` | pkg/reporter/pod_reporter.go:98-145 | sends all that is pending, or nothing if nothing is, and starts over |
| `PodReports.PodReporter.Collect` | pkg/reporter/pod_reporter.go:148-164 | recording events one by one leaves the batch of the window pending |
| `PodReports.PodReporter.FirstReport` | pkg/reporter/pod_reporter.go:267-276 | the first report carries the window and the keys of all pods; a cluster without pods and events sends nothing |
| `PodReports.Centre.HandlePodFullList` | pkg/controllermanager/pod_processor.go:57-87 | deletes exactly the pods labelled with the cluster whose key is not the image of a listed key; pods with another label or none stay as they were |
| `PodReports.Centre.HandlePodUpdateMap` | pkg/controllermanager/pod_processor.go:107-121 | applies every update once, in some order |
| `PodReports.Centre.HandlePodDelMap` | pkg/controllermanager/pod_processor.go:89-105 | applies every delete once, in some order |
| `PodReports.Centre.HandlePodReport` | pkg/controllermanager/pod_processor.go:33-53 | a non-empty full list first, then updates, then deletes |
| `PodReports.PodFlushIff` | pkg/controllermanager/pod_processor.go:33-53 | for one pod, flushing equals streaming if and only if it was not deleted and brought back alive, nor new and changed where the centre does not follow |
| `PodReports.ScheduledPodDiffers` | pkg/controllermanager/pod_processor.go:160-215 | a pod created and then scheduled in one window differs |
| `PodReports.RecreatedPodIsLost` | pkg/reporter/pod_reporter.go:148-164 | a pod deleted and recreated in one window is there when streamed and missing when flushed |
| `PodReports.StaleUpdateWins` | pkg/reporter/pod_reporter.go:148-153 | updates in the wrong order leave the newer pod when streamed and the older one when flushed |
| `PodReports.FlushRefinesStreamIff` | pkg/controllermanager/pod_processor.go:33-121 | for the whole centre and every visiting order, flushing equals streaming if and only if no key is of these two kinds |
| `PodReports.OtherClustersUntouched` | pkg/controllermanager/pod_processor.go:33-121 | a report never changes a pod of a cluster whose names cannot collide with its own |
| `PodReports.UnlabelledUntouched` | pkg/controllermanager/pod_processor.go:33-121 | in any centre a report changes a pod without the cluster's label only if one of its updates or deletes is about it |
| `PodReports.AboutOurs` | pkg/controllermanager/pod_processor.go:89-121 | a cluster's updates and deletes are about exactly the central keys of the keys they list |
| `PodReports.ReportLeaves` | pkg/controllermanager/pod_processor.go:33-121 | for any list, updates and deletes, the pods with the cluster's label afterwards are those the report brings and those that were there, listed unless the list is empty, and not taken |
| `PodReports.FullReportSynchronisesIff` | pkg/controllermanager/pod_processor.go:33-121 | any report leaves the cluster's pods exactly those it brings if and only if it brings or takes every labelled pod that its list does not remove |
| `PodReports.FullReportSynchronises` | pkg/controllermanager/pod_processor.go:33-87 | a report with a list does if it brings or takes every pod on the list |
| `PodReports.BroughtPods` | pkg/controllermanager/pod_processor.go:107-121 | each pod a report brings is created as reported without service account, left alone if the report is older, or else has the reported labels, status, deadline and tolerations |
| `PodReports.WindowKeepsStale` | pkg/controllermanager/pod_processor.go:33-53 | a report without a list leaves a pod alone that it does not mention, and so does not synchronise |
| `EdgeStore.SplitForm` | pkg/storage/storage.go:196-208 | splitting inverts forming for every key of a dash-free type |
| `EdgeStore.FormSplit` | pkg/storage/storage.go:196-208 | forming inverts splitting, and splitting fails exactly without a separator |
| `EdgeStore.PrefixIsType` | pkg/storage/persistent_storage.go:34-49 | the names under a type's prefix are exactly the names of that type |
| `EdgeStore.EdgehubStorage.constructor` | pkg/storage/storage.go:31-46 | a store opens with the cache rebuilt from its data |
| `EdgeStore.EdgehubStorage.Update` | pkg/storage/storage.go:85-100 | the persistent store always follows, the cache only when disconnected, for a cached type and decodable data |
| `EdgeStore.EdgehubStorage.Delete` | pkg/storage/storage.go:103-118 | the persistent store always follows, the cache only when disconnected |
| `EdgeStore.EdgehubStorage.MergeDelete` | pkg/storage/storage.go:123-153 | exactly the uncached entries go, in one batch; a name without separator aborts it |
| `EdgeStore.EdgehubStorage.RefreshStorage` | pkg/syncer/syncer.go:306-321 | the indexers become the cache and the store is cut down to them |
| `EdgeStore.EdgehubStorage.RebuildCache` | pkg/storage/storage.go:160-193 | one pass over all entries in iterator order |
| `EdgeStore.EdgehubStorage.List` | pkg/storage/persistent_storage.go:34-49 | the data of exactly the entries under the prefix, each once |
| `EdgeStore.RebuiltAt` | pkg/storage/storage.go:160-193 | rebuilding caches exactly the decodable entries, in any iteration order |
| `EdgeStore.RebuiltTypes` | pkg/storage/storage.go:160-193 | rebuilding makes a cache for exactly the types with an entry, decodable or not |
| `EdgeStore.AgreeIffRebuilt` | pkg/storage/storage.go:160-193 | cache and store agree if and only if rebuilding gives the cache's contents |
| `EdgeStore.MergeThenRebuild` | pkg/storage/storage.go:123-193 | if the store covered the cache, MergeDelete and rebuilding give the cache back |
| `EdgeStore.OfflineUpdateAgreesIff` | pkg/storage/storage.go:85-100 | a disconnected update keeps cache and store in agreement if and only if the type is cached and the data decodes to that key, or neither side shows anything |
| `EdgeStoreRuns.HandleKeepsEventually` | pkg/syncer/syncer.go:324-345 | handling a notification does not change what the store will hold in the end |
| `EdgeStoreRuns.RefreshKeepsInv` | pkg/syncer/syncer.go:306-321 | a refresh with notifications outstanding drops nothing that the informers hold |
| `EdgeStoreRuns.DisconnectAgreesIff` | pkg/syncer/syncer.go:193-204 | a disconnect leaves cache and store in agreement if and only if every last unhandled notification says what is stored already and nothing was lost before |
| `EdgeStoreRuns.DisconnectLoses` | pkg/syncer/syncer.go:193-204 | an object announced just before a disconnect is cached and not stored |
| `EdgeStoreRuns.ConnectedWriteDiffers` | pkg/server/handler/updater.go:92-111 | a local write in connected mode makes cache and store differ, also after the disconnect |
| `EdgeStoreRuns.OfflineWriteKeptIff` | pkg/storage/storage.go:85-118 | a local write in disconnected mode is stored, and kept by a restart if and only if it is a delete or its type has a cache; nothing else is touched |
| `EdgeStoreRuns.NextKeepsInv` | cmd/edgehub/app/app.go:258-281 | every step of connecting, syncing, disconnecting at any moment, local writes in any mode and crashing keeps track of exactly where cache and store differ |
| `EdgeStoreRuns.RestartRestoresCacheIff` | pkg/storage/storage.go:160-193 | in every run, when disconnected or connected, a restart rebuilds the live cache if and only if no dropped or outstanding notification says something else than what is stored, and no local write went to the store alone, without being made up for |
| `EdgeStoreRuns.RestartAgrees` | pkg/storage/storage.go:31-46 | a restart from any state, also while syncing, leaves cache and store in agreement |
| `LoadBalancer.SortServers` | pkg/loadbalancer/util.go:68-86 | the non-blank addresses, each once, sorted, and whether the searched one is among them |
| `LoadBalancer.Shuffle` | pkg/loadbalancer/util.go:29-31 | any sequence of swaps permutes the list |
| `LoadBalancer.Balancer.SetServers` | pkg/loadbalancer/util.go:15-40 | the rotation restarts exactly if the set of addresses changed, with each address and the original server once, the original last if it is not one of them |
| `LoadBalancer.Balancer.NextServer` | pkg/loadbalancer/util.go:43-64 | the cursor moves one step round exactly if the failed server is the current one |
| `LoadBalancer.Balancer.GetAvailableBackend` | pkg/loadbalancer/loadbalancer.go:241-274 | the loop is the scan from the cursor; what it returns is healthy and dialable, and it returns none only if no server of the list is; then the rotation stands where it began |
| `LoadBalancer.ScanIsComplete` | pkg/loadbalancer/loadbalancer.go:241-274 | a scan returns the first usable server in cyclic order and fails if and only if none is usable |
| `LoadBalancer.RotationIsFair` | pkg/loadbalancer/loadbalancer.go:241-274 | over any k requests the shares of two usable servers differ by at most one |
| `BlackList.CloudBlackList.Push` | pkg/tunnel/edgetunnel.go:266-274 | a new address goes to the end with its time; a listed one changes nothing |
| `BlackList.CloudBlackList.Pop` | pkg/tunnel/edgetunnel.go:277-291 | the oldest address comes off exactly if it was listed for longer than the limit |
| `BlackList.CloudBlackList.Clear` | pkg/tunnel/edgetunnel.go:300-306 | list and map are both empty |
| `BlackList.EdgeTunnel.FirstUnlisted` | pkg/tunnel/edgetunnel.go:223-231 | the search over the parent neighbours ends with one that is not blacklisted, or empty exactly if all are |
| `BlackList.EdgeTunnel.ChooseParentNeighbor` | pkg/tunnel/edgetunnel.go:219-243 | the failed parent is listed, then an unlisted neighbour is taken, or else the front of the list |
| `BlackList.EdgeTunnel.OnFailure` | pkg/tunnel/edgetunnel.go:151-171 | a redirected tunnel first returns to its own parent; otherwise the next parent is chosen |
| `BlackList.RunKeepsOrder` | pkg/tunnel/edgetunnel.go:266-306 | in every run with a monotone clock the list is duplicate-free and sorted by time, and addresses leave it in the order they came |
| `BlackList.EntryFailedSince` | pkg/tunnel/edgetunnel.go:151-176 | in every run a listed address is a parent that failed at that time, not after a redirect, since the last successful connection |
| `BlackList.RedirectReturns` | pkg/tunnel/edgetunnel.go:151-163 | a redirected tunnel that fails returns to where it was redirected from, without listing anything |
| `BlackList.FailoverRules` | pkg/tunnel/edgetunnel.go:219-291 | a switch never picks the failed parent, only when all neighbours are listed it goes to the longest-listed address, if that is over the limit, and takes it off the list, and staying put means no entry is over the limit |
| `ResendTunnel.SentInOrder` | pkg/tunnel/controller_tunnel.go:197-239 | in every run what was queued is what was put in, what was sent is an in-order duplicate-free subsequence of it, and every serializable message is in exactly one place |
| `ResendTunnel.LostIffDownAndFull` | pkg/tunnel/controller_tunnel.go:220-239 | a message is given up in a run if and only if the sender looked while it was held with the health flag down and the channel full; it is then never sent |
| `ResendTunnel.FailedSendHolds` | pkg/tunnel/controller_tunnel.go:197-239 | a send that fails lowers the flag and leaves the message held |
| `ResendTunnel.NothingOvertakes` | pkg/tunnel/controller_tunnel.go:220-239 | while a message is held for resending nothing else is sent |
| `ResendTunnel.HeldUntilRaised` | pkg/tunnel/controller_tunnel.go:220-239 | until the health flag is raised, or the channel is full when the sender looks, a held message stays held and nothing is sent |
| `ResendTunnel.DrainSendsAll` | pkg/tunnel/controller_tunnel.go:197-239 | with the health flag up and sends that succeed, the held message and then the whole channel are sent in order |
| `ResendTunnel.ReconnectSendsAll` | pkg/tunnel/controller_tunnel.go:170-239 | after a reconnect raises the flag, sends that succeed empty the held message and the channel in order |
| `ResponseMerge.ControllerRequests.MergeToApiserver` | pkg/clusterhandler/clusterhandler.go:625-655 | each cluster's entry is replaced exactly if missing or older; an unknown request is ignored |
| `ResponseMerge.NewestWins` | pkg/clusterhandler/clusterhandler.go:625-655 | after any sequence of responses every cluster that answered has its newest answer, the first one among equals |
| `ResponseMerge.OrderDoesNotMatter` | pkg/clusterhandler/clusterhandler.go:625-655 | with distinct timestamps per cluster the result does not depend on order or repetition |
| `ResponseMerge.FirstOfEqualsStays` | pkg/clusterhandler/clusterhandler.go:642-650 | with equal timestamps the order does matter |
| `StatusPatch.MergeSelfIff` | pkg/k8sclient/cluster.go:122-138 | merging a document onto itself changes nothing if and only if it has no null fields |
| `StatusPatch.PatchTwiceIff` | pkg/k8sclient/cluster.go:98-138 | for documents of any shape, the server stores the computed merge if and only if no present field is nulled and no untouched field holds a null |
| `StatusPatch.DeletionIsLost` | pkg/k8sclient/cluster.go:122-138 | a field the new status sets to null stays at the server |
| `StatusPatch.CleanIsStable` | pkg/k8sclient/cluster.go:98-138 | null-free documents always meet that condition |
| `StatusPatch.OmittedSurvives` | pkg/k8sclient/cluster.go:98-138 | what a patch leaves out survives, at any depth |
| `StatusPatch.PatchedIsThere` | pkg/k8sclient/cluster.go:98-138 | every value in a patch that is no object is there afterwards, at any depth, and a null removes what was there |
| `StatusPatch.ReportedIsStored` | pkg/k8sclient/cluster.go:79-138 | updating and patching both store every reported status value, at any depth, over any document |
| `StatusPatch.OtherFieldsStay` | pkg/k8sclient/cluster.go:79-138 | every field of the document other than the status keeps its value, also with nulls inside |
| `StatusPatch.StoredTimestamp` | pkg/k8sclient/cluster.go:79-120 | updating and patching both store the reported timestamp |
| `StatusPatch.TimestampsStrictlyIncrease` | pkg/k8sclient/cluster.go:79-142 | under every interleaving of status writers the timestamps of accepted writes strictly increase |
| `StatusPatch.OneTryForPatch` | pkg/k8sclient/cluster.go:79-120 | in every run PatchStatus fails on its first conflict, and UpdateStatus exactly on its fifth |
| `StatusPatch.WriterAlone` | pkg/k8sclient/cluster.go:79-142 | an undisturbed writer stores its report if and only if its timestamp is newer, and touches no other cluster |
| `StatusPatch.PatchedStatus` | pkg/k8sclient/cluster.go:98-138 | an accepted patch of null-free documents stores the merge, and omitted status fields keep their values; a replaced status has exactly the reported fields |

## Left out

- Goroutine reordering of sends, and messages of a closed child that arrive after it closed: links are in order, and what a closed child had on the way is dropped.
- WebSocket, HTTP and TLS plumbing, REST servers, flags, generated code, and the engines behind the parameters.
- The reporters, processors and syncers of resources other than pods: they have the same shape.
- The edge node controller and the summation of cluster resources: simple folds.
- Chains of redirects inside one connection attempt; a redirect is one step of the failover model.
- A failing StartSyncer, after which the store's mode need not match the last health signal.
- "cert" entries as cached objects: they have no decoder; they only appear as entries that are stored beside the cache.
- A control response whose body cannot be decoded, and failing writes of the merged status.
- Failing list and delete calls in full-list reconciliation.
- Serialization of the subtree and neighbour messages, apart from the case that a report cannot be decoded.
- Null elements inside arrays of a merge patch: arrays are replaced as a whole.
- ResendTunnel.DrainSendsAll: stated by the health flag, since the source decides by it; the model does not say when the connection itself is back, so the flag may go up and down at any step.
- ResendTunnel.SentInOrder: the sender is a state machine and not a class, because its steps interleave with the reconnecting goroutine; a send that fails after the peer received the message counts as not sent.
- Optimistic.VersionNeverDecreases: the handlers are a state machine and not methods, because the claim is about their interleavings; other writers are taken to leave the version label alone.
- Churn.ConvergesAfterChurn: the condition on what is on the way in the end is one way only; where nothing is, Churn.ConvergesIffAccepted gives both directions.
- Churn.ConvergesIffAccepted: a table that names its own cluster or one above it could bring back a lost self-route by a report; such tables are outside the if-and-only-if, not outside Churn.ConvergesAfterChurn.
- EdgeStoreRuns.RestartRestoresCacheIff: types are compared by their objects, since rebuilding does not create a cache for a type without entries, and while syncing the cache is still the one from before.
- PodReports.FlushRefinesStreamIff: updates of a key without a delete between them do not go back in version, as informers deliver them, and handlers run one after the other.
- PodReports.FullReportSynchronisesIff: what the centre holds under the keys a report brings is labelled with the cluster.
- Delivery.ExactDeliveryIff: cluster names are non-empty, trimmed and comma-free, and match themselves as patterns.
- BlackList.FailoverRules: parents and neighbours have non-empty addresses.
