# Reconciliation in the Azure cloud provider, modelled and proved in Dafny

The Kubernetes cloud provider for Azure keeps load balancers, backend pools, public IPs and routes in step
with a cluster while other writers and many services use the same resources. This project models the state
it keeps for that, and the code that changes it, and proves what the code promises over whole runs.

`dafny verify dfyconfig.toml` checks everything. Files build on each other in this order.

| files | what they hold |
|---|---|
| `Text`, `Lists`, `OwnedLists` | case folding, filtering by backward deletion, reconciling owned elements of a shared list |
| `LeaseLock`, `LeaseSafety`, `LeaseFreshness`, `LeaseOverstay`, `LeaseDuration`, `ResourceLocker` | the lease lock as interleaved API calls, mutual exclusion, freshness of the cache, how long leases last, and the sequential code |
| `TimedCache`, `CacheSafety`, `CacheObject` | the two-level-locked cache as interleaved threads, and as an object |
| `BackendPool`, `PoolUpdater`, `PoolRuns`, `PoolHistory`, `PoolNames`, `SharedPools`, `LocalServices` | pool edits inside shared arrays, the batch updater, its runs, pool names, and its use by local services |
| `Placement`, `PlacementSafety`, `PlacementTargets`, `PlacementRuns`, `PlacementObject` | nodes over multiple standard load balancers: at most one place each, which one, over runs, and the code in place |
| `HostsInPool`, `NodeIndex`, `NodeCaches`, `ClusterPools` | pools that follow active nodes, node indexes, and all of it together |
| `LbRules`, `RuleContents`, `SharedProbe`, `ProbeContents`, `LoadBalancers`, `RuleNames`, `ServiceTags`, `PublicIPs` | rules and probes and what they hold field by field, names, and public IPs shared by services |
| `Routes`, `RouteUpdater`, `RouteContents` | the delayed route updater, and what the table holds after an update |

Protocols with concurrency (the lock, the cache) are machines whose steps are single accesses to shared state;
theorems quantify over every list of steps. Code that changes fields is a class whose methods are proved equal
to functions on values, and the theorems are about those functions. Where a theorem speaks of a decision of the
code (which configuration takes a node, when two rules are equal, who owns an address, which routes are
outdated), a lemma says in fields, texts and numbers what that decision is, and the theorem is stated with those.

## Hypotheses

- Kubernetes node and service names are lower case; case folding is ASCII.
- Lease: an update is applied only to the resourceVersion that was read, as "Concurrency Control and
  Consistency" in the Kubernetes API Conventions says. The clock is common to all components and does not go
  back. Freshness of the controller's cache assumes one controller process and others that sign their releases
  with another name; the version about whole tenures also assumes that they release in time, and
  `LeaseOverstay.OverstayLeavesOldReads` shows that it fails otherwise.
- Load balancer and pool names have no ":"; `PoolUpdater.KeyRoundTrip` shows that this is exactly what the
  group key needs. In runs of the updater a pool belongs to one service, which
  `PoolNames.PoolsTellServicesApart` gives for namespaces without a dash.
- Placement: node lists have distinct names and fewer than 2^31 - 1 nodes. A mark stays when a node merely
  leaves the list, so completeness is stated separately for marked nodes.
- Pool addresses have their properties where the Go code dereferences them without a check.
- Live nodes have disjoint addresses; `NodeIndex.SharedAddressIsLost` says exactly when a deletion needs it.
- Rules and probes: prefixes have equal length and the shared probe's name carries none of them; expected rules
  carry the prefix and are not named like the shared probe, expected probes carry it or are the shared one.
- Route names are unique without regard to case, and a route table has its properties. Nobody else writes the
  table. Reading a table that does not exist gives none, as the updater expects of its repository.

## What is false of the code

- A nil set of active nodes counts as all nodes, so two cluster pools can share a node
  (`HostsInPool.NilActiveNodesShareANode`); `HostsInPool.NoIPInTwoPools` and `HostsInPool.ExactWithMultiple`
  give the exact condition.
- The length test in the local service code can skip a pool that is wrong when lists have duplicates
  (`LocalServices.SkipCanBeWrong`, exact condition in `LocalServices.SkipIsRight`). A skipped pool also ends
  the call for the pools behind it (`LocalServices.PoolBehindIsForgotten`, exact condition for every pool in
  `LocalServices.PoolRightExactlyWhen`).
- An unreadable rule reference makes the shared probe go although others use it
  (`SharedProbe.UnreadableReferenceDropsProbe`, exact condition in `SharedProbe.SharedProbeSurvives`).
- A failed write of the route table is reported as success (`RouteUpdater.FailedWriteIsNotReported`, exact
  condition in `RouteUpdater.RightExactlyWhen`). A write that is applied but reported as failed leaves a stale
  copy behind (`RouteUpdater.StaleCopyKeepsRoute`, exact condition in `RouteUpdater.CoherentExactlyWhen`).
- Rule equality is not transitive (`LbRules.NotTransitive`, exact condition in `LbRules.TransitiveExactlyWhen`).
- Unbinding removes one occurrence of a service only (`PublicIPs.BoundTwice`, exact condition in
  `PublicIPs.GoneExactlyWhen`). A tag that lists a service twice comes from one call that binds it twice, which
  no caller makes, or from an edit outside; runs of single bindings from a good tag never give one
  (`PublicIPs.TagListsBound`).
- Adding IPs can put an IP into a pool twice (`BackendPool.AddedTwice`, exact condition in
  `BackendPool.AddKeepsDistinct`).
- A service that still wants its load balancer can release an address that only another service is bound to
  (`PublicIPs.ReleasesAnothersAddress`, exact condition of a release in `PublicIPs.ReleasedWhileWanted`).
- Local services can have one pool name (`PoolNames.OnePoolForTwoServices`), and then the order of operations
  can break (`SharedPools.SharedPoolBreaksOrder`); `SharedPools.RedoPartExactlyWhen` is the exact condition under
  which redoing the operations of the services that are left does no harm.

- The IP family of a pool is read off its name, which is wrong for the IPv4 pool of a cluster whose name ends
  like an IPv6 pool's (`PoolNames.FamilyMisread`, exact condition in `PoolNames.FamilyExactlyWhen`).

## Model

| member | source | states |
|---|---|---|
| `LeaseSafety.MutualExclusion` | pkg/provider/azure_lock.go:59-244 | over every interleaving of Lock and Unlock calls, with refused writes and writes applied but reported as failed, an acquire replaces only an empty, expired or own lease, a release clears only an own one, and two open windows belong to one identity |
| `LeaseSafety.OneIdentityInside` | pkg/provider/azure_lock.go:124-195 | two components whose Lock succeeded and whose windows are neither expired nor released have the same identity |
| `LeaseSafety.InvRun` | pkg/provider/azure_lock.go:84-244 | an invariant over all interleavings: reads are snapshots of a version, open windows are what the stored lease says, windows of different identities follow each other |
| `LeaseSafety.NotTakenOver` | pkg/provider/azure_lock.go:136-150 | whoever passes the expiry check on the current lease has the identity of every open window |
| `LeaseSafety.AcquireStep` | pkg/provider/azure_lock.go:152-180 | the acquiring write keeps the invariant, whether it is applied, refused, out of date or only reported as failed |
| `LeaseSafety.ReleaseStep` | pkg/provider/azure_lock.go:197-244 | the releasing write keeps the invariant in the same cases |
| `LeaseFreshness.FreshInsideWindow` | pkg/provider/azure_lock.go:152-176 | inside the controller's window its load balancer cache holds nothing read before another component's release, over every run |
| `LeaseFreshness.NothingCachedFromAnothersTenure` | pkg/provider/azure_lock.go:152-176 | if others release in time, every earlier tenure of another component ended with a release, and nothing cached is older than it |
| `LeaseOverstay.OverstayLeavesOldReads` | pkg/provider/azure_lock.go:165-176 | a run in which another component lets its lease expire, and the controller, inside its own open window, keeps a read from before that tenure |
| `LeaseDuration.LockTakesTheLease` | pkg/provider/azure_lock.go:124-180 | an undisturbed Lock of a lease that is empty, its own or past its time holds it under its own name for the lease's seconds, to the microsecond, and keeps its annotations |
| `LeaseDuration.LockLeavesOthers` | pkg/provider/azure_lock.go:136-150 | and leaves any other lease, and the log of windows, as they are |
| `LeaseDuration.NewLeaseLasts` | pkg/provider/azure_lock.go:84-122 | where there is no lease Lock creates one and holds it for the configured number of seconds |
| `LeaseDuration.ConfiguredSeconds` | pkg/provider/azure_lock.go:84-122 | over every run from no lease, with one configured duration, every lease has that duration and no window is longer |
| `LeaseDuration.UnlockGivesBack` | pkg/provider/azure_lock.go:197-244 | an undisturbed Unlock of an own lease that still runs empties the holder, signs the annotation, and keeps all else |
| `LeaseDuration.UnlockLeavesOthers` | pkg/provider/azure_lock.go:216-228 | and leaves a lease alone that is another's or has run out |
| `ResourceLocker.AzureResourceLocker.Lock` | pkg/provider/azure_lock.go:59-71 | the sequential code, with any actions of others between its calls, is a run of the machine; success means holding a window, which lasts the lease's number of seconds from a time of the call on, and any other open window is of the same identity |
| `ResourceLocker.AzureResourceLocker.Unlock` | pkg/provider/azure_lock.go:74-82 | is a run of the machine that ends outside and keeps the invariant; without an error the window that Lock opened is over, however others interfere |
| `ResourceLocker.AzureResourceLocker.CreateLeaseIfNotExists` | pkg/provider/azure_lock.go:84-122 | ends at the acquire or outside, and takes only steps of the machine, however others interfere |
| `ResourceLocker.AzureResourceLocker.AcquireLease` | pkg/provider/azure_lock.go:124-180 | without an error ends holding the lease for its number of seconds from a time of the call on, with one outside, and takes only steps of the machine |
| `ResourceLocker.AzureResourceLocker.ReleaseLease` | pkg/provider/azure_lock.go:197-244 | ends outside by steps of the machine; each way to return without an error (no lease, another holder, expired, cleared) means that the window is over |
| `ResourceLocker.Cluster.Update` | pkg/provider/azure_lock.go:156-162 | a write succeeds only on the version that was read, and may be applied although it is reported as failed |
| `CacheSafety.DeleteIsRespected` | pkg/cache/azure_cache.go:120-247 | under any interleaving, a Get that starts after a Delete returns only data from a getter call begun, or an Update that looked its entry up, after that Delete, and honours its read type |
| `CacheSafety.OneFetchPerEntry` | pkg/cache/azure_cache.go:120-208 | at most one getter call per entry is in flight; two for one key are on entries separated by a Delete; a new entry never overwrites another |
| `CacheSafety.InvRun` | pkg/cache/azure_cache.go:120-247 | the invariant behind both, over every list of steps |
| `CacheSafety.InsertPhases` | pkg/cache/azure_cache.go:132-151 | the second lookup under the store lock makes the insertion safe for every other thread |
| `CacheSafety.FetchesExactlyWhen` | pkg/cache/azure_cache.go:174-193 | among threads, a Get that holds the entry's lock calls the getter if and only if there are no data, a refresh is forced, or a default read finds data that are not younger than the time to live |
| `CacheSafety.FetchIsKept` | pkg/cache/azure_cache.go:194-208 | what a getter call returns is in the entry with the time at which it was stored |
| `CacheSafety.UpdateIsKept` | pkg/cache/azure_cache.go:234-247 | what Update brings is in the entry with the time at which it was stored |
| `CacheObject.CacheIsTransparent` | pkg/cache/azure_cache.go:155-219 | when writes drop the cached entry, then whatever the read types, clock, time to live and failures of the getter, a cached client gets the data that an uncached one gets, and only data that the cloud has |
| `CacheObject.CacheStore.GetInternal` | pkg/cache/azure_cache.go:120-152 | returns the entry of the key, creating an empty one only when there is none |
| `CacheObject.CacheStore.Get` | pkg/cache/azure_cache.go:174-208 | answer and new contents are those of the read rule that the four lemmas below spell out for every read type, age and getter |
| `CacheObject.YoungDataIsServed` | pkg/cache/azure_cache.go:181-193 | a default read of data younger than the time to live is answered from the cache and changes nothing, whatever the getter would say |
| `CacheObject.AnyDataIsServedUnsafe` | pkg/cache/azure_cache.go:183-186 | an unsafe read of any data is answered from the cache and changes nothing |
| `CacheObject.OtherwiseFetched` | pkg/cache/azure_cache.go:194-208 | without data, with data at or over the time to live, or when a refresh is forced, the getter answers; its data are stored with the time of the call, other keys stay, an error keeps the old data |
| `CacheObject.FetchedIsServedAgain` | pkg/cache/azure_cache.go:174-208 | what a read fetched answers every default read until the time to live is over |
| `CacheObject.CacheStore.Delete` | pkg/cache/azure_cache.go:211-215 | exactly the key's entry goes |
| `CacheObject.CacheStore.Update` | pkg/cache/azure_cache.go:234-247 | exactly the key's data and time change |
| `BackendPool.BackendAddressPool.AddNodeIPAddresses` | pkg/provider/azure_loadbalancer_backendpool.go:815-854 | appends exactly the IPs that the old list lacks, with their node names, and reports whether there were any; a virtual network that is set stays, otherwise it is the given one; whoever shares the array still sees the old list, whether spare capacity is used or not |
| `BackendPool.BackendAddressPool.RemoveNodeIPAddresses` | pkg/provider/azure_loadbalancer_backendpool.go:872-924 | backward deletion in the shared array equals filtering; a pool that may not become empty is left unchanged element by element |
| `BackendPool.BackendAddressPool.HasIPAddress` | pkg/provider/azure_loadbalancer_backendpool.go:856-870 | finds an address with that IP if and only if there is one |
| `Lists.FilterInPlace` | pkg/provider/azure_loadbalancer_backendpool.go:888-910 | deleting backwards inside an array leaves the filtered list in front, and moves nothing when nothing remains |
| `BackendPool.IPsAfterAdd` | pkg/provider/azure_loadbalancer_backendpool.go:837-852 | adding puts the listed IPs into the pool's set of IPs and nothing else |
| `BackendPool.IPsAfterRemove` | pkg/provider/azure_loadbalancer_backendpool.go:887-911 | removing takes the listed IPs out and nothing else |
| `BackendPool.RemovedExactly` | pkg/provider/azure_loadbalancer_backendpool.go:887-911 | an address stays if and only if it has no properties, or has no IP and the list is not one of node IPs, or has an IP that is not listed up to case and not all are to go |
| `BackendPool.AddKeepsDistinct` | pkg/provider/azure_loadbalancer_backendpool.go:837-852 | a pool without duplicates stays so if and only if no absent IP is listed twice |
| `BackendPool.AddedTwice` | pkg/provider/azure_loadbalancer_backendpool.go:837-852 | a list with a new IP twice, as two endpoints on one node give, puts it into the pool twice |
| `PoolUpdater.KeyRoundTrip` | pkg/provider/azure_local_services.go:190-199 | the group key leads back to load balancer and pool if and only if neither name has a colon |
| `PoolUpdater.LoadBalancerBackendPoolUpdater.AddOperation` | pkg/provider/azure_local_services.go:125-138 | appends to the queue |
| `PoolUpdater.LoadBalancerBackendPoolUpdater.RemoveOperation` | pkg/provider/azure_local_services.go:141-157 | the queue loses exactly the operations of the service and keeps its order |
| `PoolUpdater.LoadBalancerBackendPoolUpdater.GroupOperations` | pkg/provider/azure_local_services.go:173-192 | the groups are the live operations of each key in queue order |
| `PoolUpdater.LoadBalancerBackendPoolUpdater.ApplyGroup` | pkg/provider/azure_local_services.go:206-219 | a group's edits of the pool object equal its operations applied one after the other, and the flag says whether one of them changed something |
| `PoolUpdater.LoadBalancerBackendPoolUpdater.Process` | pkg/provider/azure_local_services.go:164-233 | one round gives the pools and the queue of handling the groups in some order, each once, with any failures |
| `PoolUpdater.LoadBalancerBackendPoolUpdater.ProcessError` | pkg/provider/azure_local_services.go:237-254 | a retriable failure queues the group again, others do not |
| `PoolUpdater.NoChange` | pkg/provider/azure_local_services.go:221-231 | when no operation changed anything, and so nothing is written, the pool is what its operations ask for |
| `PoolRuns.OrderOfGroupsIsIrrelevant` | pkg/provider/azure_local_services.go:197-232 | whatever order the map is iterated in, a pool and its queued operations end as if its own group were handled alone |
| `PoolRuns.BatchEqualsOneByOne` | pkg/provider/azure_local_services.go:164-233 | a batch without failures leaves every pool as its live operations applied one at a time in queue order |
| `PoolHistory.EffectsInArrivalOrder` | pkg/provider/azure_local_services.go:125-254 | over every run with failures and ambiguous writes, a pool's IPs are the initial ones with the effective operations applied once each; these arrived, are in arrival order, and what is queued arrived later |
| `PoolHistory.EveryArrivalAccounted` | pkg/provider/azure_local_services.go:125-254 | over every run each arrival is exactly one of settled, queued, or dropped because it was withdrawn, because its service is gone or has moved, or because a call failed for good |
| `PoolHistory.NothingIsLost` | pkg/provider/azure_local_services.go:125-254 | if the service stays and failures are retriable, an empty queue means that everything that arrived took effect |
| `PoolHistory.AllAccountedFor` | pkg/provider/azure_local_services.go:125-254 | in such runs the settled and queued operations together are the arrivals, in order |
| `PoolHistory.FailedExactlyWhen` | pkg/provider/azure_local_services.go:237-254 | pending operations are dropped for a failure if and only if the service is on this load balancer and the read failed for good, or there was something to write and the write failed for good and was not applied |
| `PoolHistory.LastWordOnIP` | pkg/provider/azure_local_services.go:125-254 | when nothing is pending after such a run, the pool has an IP if and only if the last arrival that names it adds it, or none names it and it was there before |
| `PoolHistory.RedoIsHarmless` | pkg/provider/azure_local_services.go:221-231 | redoing a batch after an ambiguous write gives the same IPs |
| `SharedPools.SharedPoolBreaksOrder` | pkg/provider/azure_local_services.go:164-254 | two services with one pool: after an ambiguous write and the loss of one service, the pool has IPs that no selection of the arrivals in order gives |
| `SharedPools.RedoPartExactlyWhen` | pkg/provider/azure_local_services.go:173-192 | redoing a part of an applied batch keeps the IPs if and only if part and whole decide alike about every IP that the part mentions |
| `PoolNames.PoolsTellServicesApart` | pkg/provider/azure_local_services.go:400-406 | for namespaces without a dash, two services have one pool name if and only if they are the same service |
| `PoolNames.OnePoolForTwoServices` | pkg/provider/azure_local_services.go:400-406 | namespace a-b with service c, and namespace a with service b-c, have one pool name |
| `PoolNames.FamilyExactlyWhen` | pkg/provider/azure_standard.go:276-282 | the IP family that a pool was named for is the one read off its name if and only if it is IPv6 or the IPv4 name does not end like an IPv6 one |
| `PoolNames.FamilyMisread` | pkg/provider/azure_standard.go:276-282 | the IPv4 pool of any cluster whose name ends in the suffix is taken for an IPv6 one |
| `LocalServices.CompareNodeIPs` | pkg/provider/azure_local_services.go:393-397 | the IPs of the first list that the second lacks, each once |
| `LocalServices.ReconcileIPs` | pkg/provider/azure_local_services.go:590-608 | queues removals then additions for each pool up to the first that is skipped, and nothing for the rest |
| `LocalServices.PoolRightExactlyWhen` | pkg/provider/azure_local_services.go:590-608 | processing all that one call queues for its pools leaves a pool with exactly the expected IPs if and only if neither it nor a pool in front of it passes the skip test, or it had them before |
| `LocalServices.PoolBehindIsForgotten` | pkg/provider/azure_local_services.go:597-600 | a pool that needs nothing ends the call, and a pool behind it without the expected IP gets nothing |
| `LocalServices.SkipIsRight` | pkg/provider/azure_local_services.go:596-600 | a skipped pool is right if and only if the two lists have equally many different IPs, so always when the current list has no duplicates |
| `LocalServices.SkipCanBeWrong` | pkg/provider/azure_local_services.go:597-600 | two equal current IPs against two different expected ones are skipped |
| `PlacementSafety.ArrangeKeeps` | pkg/provider/azure_loadbalancer.go:2263-2300 | one call, also a failing one, leaves each node on at most one configuration, and only listed nodes |
| `PlacementSafety.PlacedExactlyWhen` | pkg/provider/azure_loadbalancer.go:2095-2233 | after a successful call an unmarked listed node is on exactly one configuration if and only if it has a primary or an eligible one; a marked one if and only if it already was somewhere |
| `PlacementSafety.PrimaryPassMarks` | pkg/provider/azure_loadbalancer.go:2095-2138 | exactly the unmarked nodes with an available primary configuration get a mark |
| `PlacementSafety.FewestIsLeast` | pkg/provider/azure_loadbalancer.go:2202-2213 | the chosen configuration is eligible and has no more nodes than any other eligible one |
| `PlacementTargets.PlacedByVMSet` | pkg/provider/azure_loadbalancer.go:2095-2138 | after a successful call an unmarked listed node is on exactly the first configuration whose primary VM set is its own up to case and whose load balancer exists or is being reconciled, and it is marked |
| `PlacementTargets.PlacedByLabels` | pkg/provider/azure_loadbalancer.go:2141-2233 | if there is none it gets no mark and is on exactly one configuration, available and matching its labels, or without selector if none matches; nowhere if there is no such configuration |
| `PlacementTargets.MarkedStays` | pkg/provider/azure_loadbalancer.go:2103-2105 | a listed node that was marked before stays where it is and stays marked, also in a failing call |
| `PlacementTargets.NamesExactly` | pkg/provider/azure_loadbalancer.go:2236-2245 | a load balancer belongs to a configuration if and only if it has its name up to case, with the internal suffix or without, the latter unless the name itself ends in it |
| `PlacementTargets.FewestIsFirst` | pkg/provider/azure_loadbalancer.go:2202-2213 | of the eligible configurations with the fewest nodes the first is chosen |
| `PlacementTargets.DeletionEmpties` | pkg/provider/azure_loadbalancer.go:732-744 | deleting a load balancer empties the first configuration that it belongs to, unmarks exactly its nodes, and leaves the others |
| `PlacementRuns.OnePlacePerNode` | pkg/provider/azure_loadbalancer.go:2055-2331 | over every run of calls, failing calls, restarts that begin empty and read the pools, load balancer deletions and node deletions, each node is on at most one configuration |
| `PlacementRuns.RestartIsReady` | pkg/provider/azure_loadbalancer.go:2304-2331 | restoring from pools that hold each listed node under one configuration is a state from which calls keep the invariant |
| `PlacementRuns.ArrangeAgain` | pkg/provider/azure_loadbalancer.go:2263-2300 | a second call with the same inputs changes nothing and ends in an error exactly when the first did |
| `PlacementRuns.StaysBalanced` | pkg/provider/azure_loadbalancer.go:2141-2233 | a pass over any nodes that are marked, stay, share one list of eligible configurations, or only move outside it keeps the node counts in that list within one of each other |
| `PlacementRuns.CallStaysBalanced` | pkg/provider/azure_loadbalancer.go:2263-2300 | the same for a whole call, from what its first pass leaves |
| `PlacementObject.IsLBInList` | pkg/provider/azure_loadbalancer.go:2236-2245 | a load balancer of the configuration's name, with or without the internal suffix, is in the list |
| `PlacementObject.EligibleFor` | pkg/provider/azure_loadbalancer.go:2157-2194 | the loops that collect, fall back and delete backwards give the available matching configurations, or the available ones without selector; an error if and only if some selector is malformed |
| `PlacementObject.SlbPlacement.RemoveNodeFromLBConfig` | pkg/provider/azure_loadbalancer.go:2055-2063 | takes the node out of the configuration that the index names, and changes nothing else |
| `PlacementObject.SlbPlacement.RemoveDeletedNodes` | pkg/provider/azure_loadbalancer.go:2067-2092 | unlisted nodes go from every configuration, and the index says where the others are |
| `PlacementObject.SlbPlacement.AccommodateNodesByPrimaryVMSet` | pkg/provider/azure_loadbalancer.go:2095-2138 | equals the first pass on values, with its early error; without an error every unmarked listed node is on exactly the first available configuration whose primary VM set is its own up to case, if there is one |
| `PlacementObject.SlbPlacement.LeastLoaded` | pkg/provider/azure_loadbalancer.go:2202-2213 | equals the first configuration with the fewest nodes |
| `PlacementObject.SlbPlacement.AccommodateNodesByNodeSelector` | pkg/provider/azure_loadbalancer.go:2141-2233 | equals the second pass on values, with its early error |
| `PlacementObject.SlbPlacement.ReconcileBackendNodes` | pkg/provider/azure_loadbalancer.go:2263-2300 | equals one arrangement on values, at a start of the process from the state restored from the pools; without an error marked nodes stay, the others are on the first configuration for their VM set, or else on one for their labels |
| `PlacementObject.SlbPlacement.RecordExistingNodes` | pkg/provider/azure_loadbalancer.go:2304-2331 | every configuration gains the nodes that the pools of its load balancers hold |
| `PlacementObject.SlbPlacement.ForgetLoadBalancer` | pkg/provider/azure_loadbalancer.go:732-744 | the first configuration of that name loses its nodes and they lose their marks |
| `HostsInPool.EnsureHostsInPool` | pkg/provider/azure_loadbalancer_backendpool.go:406-514 | pools that are not the service's by name and family, of another load balancer, or with NIC members stay as they are; with multiple load balancers a local service's pool then holds exactly the IPs of its endpoints' nodes, any other pool those of the nodes active on the first configuration that the load balancer belongs to; the list is sent unless it was there already, and an error means a failed write |
| `HostsInPool.ExactWithMultiple` | pkg/provider/azure_loadbalancer_backendpool.go:406-514 | with multiple load balancers the pool's IPs are exactly those of its active non-control-plane nodes if and only if the active set is not nil or no node has an IP |
| `HostsInPool.ExactWithOne` | pkg/provider/azure_loadbalancer_backendpool.go:436-500 | with one load balancer they are exactly the node IPs if and only if there is a node IP or there was no IP before |
| `HostsInPool.SkippedWriteIsRight` | pkg/provider/azure_loadbalancer_backendpool.go:502-511 | when nothing is written, the list already was the wanted one |
| `HostsInPool.NoIPInTwoPools` | pkg/provider/azure_loadbalancer_backendpool.go:461-500 | given the placement invariant, two cluster pools have no node IP in common if and only if neither active set is nil, unless the other pool is empty |
| `HostsInPool.NilActiveNodesShareANode` | pkg/provider/azure_loadbalancer_backendpool.go:466-471 | with a nil active set any node of another configuration is in both pools |
| `HostsInPool.ActiveNodes` | pkg/provider/azure.go:1175-1186 | the active nodes of the first configuration whose name, with or without the internal suffix, is the load balancer's up to case; the empty set if there is none |
| `HostsInPool.ActiveOfFirst` | pkg/provider/azure.go:1175-1186 | the same about the function on values, for all configurations and names |
| `HostsInPool.SelectedHolds` | pkg/provider/azure_loadbalancer_backendpool.go:414-428 | with the nodes that a service and a load balancer select, the pool holds exactly the listed non-control-plane endpoints' or active nodes' IPs |
| `HostsInPool.ScanForNIC` | pkg/provider/azure_loadbalancer_repo.go:383-396 | some address has no IP |
| `ClusterPools.NodeIPInOnePool` | pkg/provider/azure_loadbalancer_backendpool.go:406-514 | after any run of node events and any run of placement events, the cluster pools of two load balancers that belong to different configurations, with the nodes that each name selects, are disjoint and each holds exactly its configuration's active nodes' IPs |
| `ClusterPools.IndexServesPools` | pkg/provider/azure_loadbalancer_backendpool.go:490-494 | the address index kept over node events is the one that aligning pools relies on |
| `NodeIndex.IndexesAgree` | pkg/provider/azure.go:921-1022 | after every run of node additions, updates and deletions the name, zone, resource group, unmanaged and both address indexes equal their recomputation from live nodes, and the excluded nodes are the live excluded ones and the deleted ones that have not come back |
| `NodeIndex.StepRight` | pkg/provider/azure.go:921-1022 | one event keeps every index equal to its recomputation |
| `NodeIndex.MarksStay` | pkg/provider/azure.go:962-967 | over every run of events a node has the placement's mark if and only if it had it before and was not deleted |
| `NodeIndex.SharedAddressIsLost` | pkg/provider/azure.go:955-967 | deleting a live node keeps all other live addresses leading to a node that has them if and only if no other live node shares one with it |
| `NodeIndex.AddKeepsCover` | pkg/provider/azure.go:1010-1019 | adding a node keeps that, shared addresses or not |
| `NodeIndex.GivenUpAddressIsLost` | pkg/provider/azure.go:921-1022 | updating a live node keeps that if and only if it gives up no address that another live node has |
| `NodeCaches.Caches.UpdateNodeCaches` | pkg/provider/azure.go:921-1022 | the field updates equal taking the previous node out and putting the new one in |
| `NodeCaches.Caches.HandleEvent` | pkg/provider/azure.go:876-908 | an event of the informer keeps every index equal to its recomputation |
| `NodeCaches.Caches.GetActiveZones` | pkg/provider/azure.go:1054-1072 | an error without a synchronised informer, otherwise the zones that have nodes |
| `NodeCaches.ActiveZonesAreLive` | pkg/provider/azure.go:1054-1072 | a zone has nodes if and only if a live node is in it and it is an availability zone of the location |
| `LbRules.LatestCallsMatch` | pkg/provider/azure_loadbalancer.go:2398-2442 | after any sequence of calls for services with equal-length prefixes, every service's rules match the expected rules of its own latest call, in both directions |
| `LbRules.ForeignRulesKept` | pkg/provider/azure_loadbalancer.go:2398-2442 | rules owned by nobody in the sequence keep their content and order |
| `RuleContents.RulesAfterCalls` | pkg/provider/azure_loadbalancer.go:2398-2442 | after any sequence of calls every rule that carries a service's prefix has a rule in that service's latest call with the name equal up to case, equal protocol, distribution, ports and floating IP, equal SNAT and, for TCP, reset flags, references equal up to case, and set timeouts equal if the load balancer is wanted; and the other way round |
| `RuleContents.ComparesExactly` | pkg/provider/azure_loadbalancer.go:3534-3584 | two rules count as equal if and only if all of this holds |
| `RuleContents.OwnsExactly` | pkg/provider/azure_loadbalancer_repo.go:374-381 | a service owns a name if and only if it starts with its prefix up to case, or is exactly the shared probe's and the traffic policy is not local |
| `RuleContents.OthersStay` | pkg/provider/azure_loadbalancer.go:2406-2422 | rules that belong to no call of a sequence are still there after it |
| `RuleContents.KeepsWhatAgrees` | pkg/provider/azure_loadbalancer.go:2406-2422 | a rule that agrees with an expected one is not replaced |
| `LoadBalancers.LoadBalancer.ReconcileRules` | pkg/provider/azure_loadbalancer.go:2398-2442 | rules with the service's prefix agree field by field with expected ones and all expected ones have one that agrees; a change is reported if and only if there is one; a repeat changes nothing; probes stay |
| `LbRules.SettledKept` | pkg/provider/azure_loadbalancer.go:2408-2422 | a call for one service leaves another service's rules matching its own call |
| `LbRules.TransitiveExactlyWhen` | pkg/provider/azure_loadbalancer.go:3547-3574 | the comparison is symmetric, and carries over from two pairs to the third if and only if the outer two timeouts are not set and different |
| `LbRules.NotTransitive` | pkg/provider/azure_loadbalancer.go:3570-3573 | timeouts 4, unset and 5 show that it is not transitive |
| `OwnedLists.ReconciledMatches` | pkg/provider/azure_loadbalancer.go:2406-2435 | owned elements match expected ones, and expected ones are found, for any comparison that is reflexive on what is expected |
| `OwnedLists.ReconciledTwice` | pkg/provider/azure_loadbalancer.go:2398-2442 | reconciling again changes nothing, although the comparison need not be transitive |
| `OwnedLists.DeletionShows` | pkg/provider/azure_loadbalancer.go:2436-2441 | deletions and additions never cancel out, so the reported change is real |
| `Lists.FilterBackwards` | pkg/provider/azure_loadbalancer.go:2406-2422 | deleting backwards from a slice is filtering, and the flag says whether something was deleted |
| `OwnedLists.AddMissing` | pkg/provider/azure_loadbalancer.go:2424-2435 | appends expected elements that the growing list lacks |
| `SharedProbe.SharedProbeSurvives` | pkg/provider/azure_loadbalancer.go:2352-2396 | deleting a service leaves a probe with the shared name if and only if a reference of another service comes before any unreadable one, or the service does not own such a probe |
| `SharedProbe.NeededIsKept` | pkg/provider/azure_loadbalancer_healthprobe.go:296-332 | a probe that another service needs is there after the call, whatever else was expected |
| `SharedProbe.UnreadableReferenceDropsProbe` | pkg/provider/azure_loadbalancer_healthprobe.go:315-319 | an unreadable reference in front drops a probe that others use |
| `SharedProbe.KeepSharedProbe` | pkg/provider/azure_loadbalancer_healthprobe.go:296-332 | the expected probes with the shared one added when needed, emptied on an unreadable reference |
| `ProbeContents.ProbesAfterCalls` | pkg/provider/azure_loadbalancer.go:2352-2396 | after any sequence of calls, with references changing in between, every probe that carries a service's prefix has a probe in that service's latest call with equal port, interval and threshold and with name, protocol and path equal up to case; and the other way round unless that call met an unreadable reference |
| `ProbeContents.FoundIsMatch` | pkg/provider/azure_loadbalancer_healthprobe.go:281-293 | a probe is found if and only if one agrees with it in these fields |
| `ProbeContents.NeedExactly` | pkg/provider/azure_loadbalancer_healthprobe.go:296-332 | the shared probe is asked for if and only if the service leaves or probes are not shared, and a reference of another service comes before any unreadable one |
| `ProbeContents.SharedProbeIsBuilt` | pkg/provider/azure_loadbalancer_healthprobe.go:33-44 | then an HTTP probe with the shared name, the configured port and path, interval 5 and threshold 2 is there after the call |
| `ProbeContents.SharedProbeGoes` | pkg/provider/azure_loadbalancer.go:2352-2396 | otherwise a service with the cluster policy leaves no probe of the shared name that it does not expect |
| `ProbeContents.ForeignExactly` | pkg/provider/azure_loadbalancer_healthprobe.go:313-327 | a reference is another service's if and only if the text after its last slash is not empty and not owned |
| `LoadBalancers.LoadBalancer.ReconcileProbes` | pkg/provider/azure_loadbalancer.go:2352-2396 | the probes are reconciled with those expected, a change is reported if and only if there is one, and a needed shared probe is kept; rules stay |
| `SharedProbe.LastSegment` | pkg/provider/azure_standard.go:158-166 | what follows the last slash |
| `RuleNames.NameFitsAndIsOwned` | pkg/provider/azure_standard.go:284-301 | for every subnet, protocol and port the name has at most 80 characters and is owned by its service |
| `RuleNames.NamesDiffer` | pkg/provider/azure_standard.go:284-301 | within one service and IP family two names are equal up to case, as the rule search compares them, if and only if protocol and port are equal |
| `RuleNames.FamiliesDiffer` | pkg/provider/azure_utils.go:394-399 | the names of the two families of a dual-stack service differ even up to case, for any protocols and ports |
| `RuleNames.NameSays` | pkg/provider/azure_standard.go:284-301 | the name is prefix, subnet, protocol, port and family suffix; the subnet is whole, or cut so that the name has exactly 75 characters without the suffix |
| `ServiceTags.ParseJoin` | pkg/provider/azure_loadbalancer.go:3757-3799 | writing a list of names to a tag and reading it back gives the list |
| `ServiceTags.ParseAppend` | pkg/provider/azure_loadbalancer.go:3757-3770 | appending a name to any tag appends it to the parsed list |
| `ServiceTags.ParseSpaced` | pkg/provider/azure_loadbalancer.go:3757-3770 | white space around a name is not part of it |
| `PublicIPs.TagListsBound` | pkg/provider/azure_loadbalancer.go:3779-3861 | over any run of bindings and unbindings, from no tag, a current or a legacy one, the parsed tag lists exactly the bound services, each once |
| `PublicIPs.BindParses` | pkg/provider/azure_loadbalancer.go:3801-3821 | binding any list of names appends exactly those not yet listed |
| `PublicIPs.GoneExactlyWhen` | pkg/provider/azure_loadbalancer.go:3845-3854 | after an unbinding the service is off the list if and only if it was listed at most once; all other names stay |
| `PublicIPs.BoundTwice` | pkg/provider/azure_loadbalancer.go:3807-3820 | one call that binds a new name twice lists it twice, and an unbinding then leaves it listed |
| `PublicIPs.ReleasedExactlyWhenLast` | pkg/provider/azure_loadbalancer.go:3378-3435 | after any run, a deleted service releases an address if and only if it owns it, the system created it and no other service is bound to it |
| `PublicIPs.ReleasedWhileWanted` | pkg/provider/azure_loadbalancer.go:3153-3198 | after any run, a service that wants a load balancer releases an address if and only if it owns it, the system created it, at most one service is bound to it and it is not the wanted one |
| `PublicIPs.ReleasesAnothersAddress` | pkg/provider/azure_loadbalancer.go:3181-3185 | the one bound service can be another than the one that releases |
| `PublicIPs.PublicIP.OwnedBy` | pkg/provider/azure_loadbalancer.go:3689-3731 | who owns an address and who created it: nobody owns one without an IP; its user created it if there is no service tag; otherwise ownership is by tag and cluster, or by selecting it |
| `PublicIPs.OwnsExactly` | pkg/provider/azure_loadbalancer.go:3689-3731 | a listed service owns the address if and only if the cluster tag, or the legacy one in its absence, is absent, empty or its cluster's up to case; any other if and only if it selects it; its user created it if and only if no service tag says anything |
| `PublicIPs.UnboundTags` | pkg/provider/azure_loadbalancer.go:3828-3843 | unbinding clears the DNS label if it is the service's and keeps it if not; cluster tags stay |
| `PublicIPs.PublicIP.BindServices` | pkg/provider/azure_loadbalancer.go:3779-3824 | the tags are those of binding or replacing on values, and a new name is reported if and only if the list changed |
| `PublicIPs.PublicIP.UnbindService` | pkg/provider/azure_loadbalancer.go:3828-3861 | an error without tags; otherwise the last match goes and the DNS label if it is the service's; only the latter for an address created by its user |
| `PublicIPs.PublicIP.Reconcile` | pkg/provider/azure_loadbalancer.go:3398-3415 | tags and release decision for one address, as the theorems above use them, for any tagging as configured |
| `PublicIPs.IsListed` | pkg/provider/azure_loadbalancer.go:3745-3755 | some parsed name equals the service's up to case |
| `Routes.BatchEqualsOneByOne` | pkg/provider/azure_routes.go:99-240 | a batch gives the name-to-route map of its operations applied one by one after cleanup, and names stay unique |
| `Routes.UntouchedRoutesKept` | pkg/provider/azure_routes.go:144-192 | routes neither named nor outdated keep their content and order |
| `Routes.SkippedWriteIsRight` | pkg/provider/azure_routes.go:157-196 | if nothing is written, the table already had the wanted names, and their prefixes and next hops up to case |
| `Routes.OnlyTagsKeepsRoutes` | pkg/provider/azure_routes.go:196-200 | if only tags are written, the routes written with them are the ones the batch asks for |
| `RouteContents.UpdateAnswers` | pkg/provider/azure_routes.go:99-210 | after an update that could read and write the table, every operation that no later one of that name follows has its route there with prefix and next hop up to case, or no route of that name |
| `RouteContents.OthersAfterBatch` | pkg/provider/azure_routes.go:144-192 | a route whose name no operation has is there after a batch, unchanged, if and only if it is not outdated |
| `RouteContents.OutdatedExactly` | pkg/provider/azure_routes.go:214-240 | with dual stack a route is outdated if and only if its name has no separator and is a node's; without it if and only if its name has exactly one and a node's in front |
| `RouteContents.OutdatedByMode` | pkg/provider/azure_routes.go:506-511 | the routes that were named for nodes of the cluster are outdated if and only if they were named in the other mode, and the node can be read off the name |
| `RouteContents.TagsAfterUpdate` | pkg/provider/azure_routes.go:157-160 | the table gets the tags of the last operation that sets any, and keeps its own if there is none |
| `RouteContents.NoNeedlessWrite` | pkg/provider/azure_routes.go:162-196 | a batch that asks for what is there, on a table without outdated routes, is not written |
| `RouteContents.ReadFailureIsTold` | pkg/provider/azure_routes.go:109-129 | a failed read is told to every waiter, and table and copy stay |
| `RouteContents.CreateFailureIsTold` | pkg/provider/azure_routes.go:131-143 | so is a failed creation, or a failed read of the table created, which is then there |
| `RouteUpdater.OneResultEach` | pkg/provider/azure_routes.go:99-119 | over every run each operation gets exactly one result, in arrival order, unless it still waits |
| `RouteUpdater.NamesStayUnique` | pkg/provider/azure_routes.go:99-210 | route names stay unique over every run, with failing and ambiguous calls |
| `RouteUpdater.RightExactlyWhen` | pkg/provider/azure_routes.go:99-210 | after an update that read what the table says, or created it, all waiters are told of success, and the table has the wanted routes if and only if the write was applied or they were there before |
| `RouteUpdater.RunRightExactlyWhen` | pkg/provider/azure_routes.go:99-210 | the same for the next update after every run without an ambiguous write |
| `RouteUpdater.CoherentExactlyWhen` | pkg/provider/routetable/repo.go:75-87 | the cached copy agrees with the table after an update if and only if there was no write that changed it and was reported as failed |
| `RouteUpdater.ReadsAreFresh` | pkg/provider/azure_routes.go:121-141 | over every run without such a write each update works on what the remote table says |
| `RouteUpdater.StaleCopyKeepsRoute` | pkg/provider/routetable/repo.go:80-85 | after such a write of a route, deleting the route is skipped and reported as done while the copy has not expired |
| `RouteUpdater.FailedWriteIsNotReported` | pkg/provider/azure_routes.go:201-205 | a failed write of any new route: its waiter is told of success and the table does not have it |
| `RouteUpdater.DelayedRouteUpdater.UpdateRoutes` | pkg/provider/azure_routes.go:99-210 | queue, table, cached copy and results after one round, for every way the calls can end |
| `RouteUpdater.DelayedRouteUpdater.Get` | pkg/provider/routetable/repo.go:66-73 | a copy that has not expired is returned, otherwise the table is read and cached; a failure leaves the copy |
| `RouteUpdater.DelayedRouteUpdater.CreateOrUpdate` | pkg/provider/routetable/repo.go:75-87 | the copy is dropped only after a write that is reported as successful |
| `RouteUpdater.DelayedRouteUpdater.AddOperation` | pkg/provider/azure_routes.go:267-273 | appends to the queue |
| `RouteUpdater.BatchRoutes` | pkg/provider/azure_routes.go:144-192 | the loop over cleaned-up routes equals the batch on values, with its flags |

## Left out

- ResourceLocker.Cluster.Update: the API server is a counter of versions; other fields of the Lease object and several namespaces are not modelled.
- CacheObject.CacheStore.Get: deep copies of cached data are not modelled, data are values.
- PoolHistory.RedoIsHarmless: compares pools as sets of IPs; as lists a redone batch can differ in order.
- PlacementObject.SlbPlacement.ReconcileBackendNodes: the lock around active nodes is not modelled, because service reconciliations are serialised by their own lock; looking up a node's VM set is an input.
- HostsInPool.EnsureHostsInPool: how the virtual network ID is made is left out; the nodes are given with their address of the pool's family.
- PublicIPs.PublicIP.Reconcile: tagging as configured is any function on tags, and whether IP tags are equivalent is an input, because the comparison that sorts them is not an order; the loop over addresses treats each like this.
- RouteUpdater.DelayedRouteUpdater.Get: whether the copy has expired is an input; the type assertion that the repository makes on a missing table is not modelled.
- LoadBalancers.LoadBalancer.ReconcileProbes: the references that the platform fills in are given with the probes; `ProbeContents.ProbesAfterCalls` lets them change between calls.
- Results that the pool updater sends to its waiters, and the events it emits.
- Label selectors: any predicate on labels stands for one.
- Retries inside API clients, metrics, logging and tracing: I/O plumbing.
- Security groups, disks, private links, instance metadata, IP address management and VM scale set caches: separate parts of the repository.
- Choosing the load balancer of a service, and removing frontend configurations.
- `TimedCache.Set`, which the source reserves for its own tests.
