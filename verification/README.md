# Facade operator: a verified model

The facade operator watches two kinds of custom resource, `FacadeService` and `Gateway`, and keeps gateway
Deployments, Services, ConfigMaps, autoscalers, PodMonitors, ingresses and routes in step with them. Several
workers reconcile at once against one API server that numbers every write and refuses stale ones. This project
models that behaviour over an abstract versioned store and proves what it is for. Source paths below are relative
to the root of the operator's repository.

The API server (`object_store.dfy`) is a class with one map of versioned objects per kind. Two switches say how it
behaves: `quiet` (nobody else writes it, and reads are fresh; otherwise a read may answer with any version that was
ever stored, and others may write between two calls) and `reliable` (no call fails except for the state of the
objects). The server keeps a trace of the calls of this client: what each read and listing answered, the stores just before and
after each accepted write, and each refused write with the version it named. A client's contract says, whoever else
writes in between, which calls the operation made and what its caller is told for them (`client_calls.dfy`): one
read, one write over the version that was read, no second try. It also says what happens exactly on a quiet and
reliable server, error cases included. `ApplyProtocol.ApplyIsCommit`, `ApplyProtocol.EditIsCommit` and
`ServiceProtocol.DeleteIsRemove` show that such calls are the steps of the machines whose runs are reasoned about.

| file | about |
|---|---|
| `wrappers.dfy`, `texts.dfy` | result types; the string operations the parsers use |
| `owner_references.dfy` | merging owner references, and the move-to-front list it makes |
| `object_store.dfy`, `client_calls.dfy` | the API server and its trace; each operation as the calls it makes |
| `object_clients.dfy`, `deployments.dfy` | get, merge and write |
| `apply_protocol.dfy` | any number of such calls in every interleaving: they equal a sequential run in commit order |
| `custom_resources.dfy`, `cr_priority.dfy` | the resources; which of them configures a shared gateway, over whole runs |
| `named_lock.dfy` | the two-level lock: mutual exclusion, release on every exit, deadlock |
| `cleanup_rules.dfy`, `gateway_lifecycle.dfy`, `facade_reconciler.dfy` | the cleanup pass and the reconciler, step by step, and what a run of reconciles keeps |
| `gateway_runs.dfy` | one gateway over a run of reconciles: its type, its owners, its configuration |
| `service_client.dfy`, `service_protocol.dfy` | Services: one call; deletions in every interleaving |
| `ingress_templates.dfy`, `ingress_client.dfy`, `httproute_client.dfy` | declared names, orphan removal, routes and policies |
| `ingress_protocol.dfy` | orphan removals in every interleaving |
| `status.dfy` | the status phase of a Gateway over its reconciles |
| `image_sync.dfy` | the image of the gateway Deployments, with conflicts and retries |
| `names.dfy`, `annotations.dfy`, `semver.dfy` | shortened names and label values; two parsers |

Classes stand where the source changes objects in place (`facade_reconciler.dfy` follows the effect of a reconcile
on the cluster, `status.dfy` follows the same method's handling of outcomes); the whole-run theorems are about
state machines over the same steps, and the loops of the source are loops here.

## Hypotheses

* Owner merging holds however old the reads are. Priority between resources assumes fresh reads, a fixed set of
  resources, and a cleanup pass that takes effect at once (its listing and its writes run outside the gateway lock).
* Rank and convergence start from a settled Deployment: none, one with a readable annotation and no master label, or
  one whose label and annotation name the same live master that uses the gateway. Any other readable start is under
  the label of a live master, which `CRPriority.MovedMasterStarves` decides, or becomes settled by the next cleanup
  pass (`CRPriority.SweepSettles`).
* Ownership of names by orphan removal assumes a fixed set of resources.
* No resource without a gateway of its own is called x while another one uses the gateway `x-gateway`: that path
  writes the Deployment without lock or priority check.

## What turned out not to hold

* **Deadlock.** A gateway name may contain `/` as far as the code is concerned, and a lock name is `namespace/name`.
  A set of requests can deadlock exactly when their gateways form a cycle through their own lock names
  (`NamedLock.DeadlockIsCycle`, `NamedLock.CycleDeadlocks`); the shortest is one resource whose gateway is spelled
  like its own lock (`NamedLock.OwnLockIsCycle`). Names without a slash exclude it, and without a cycle every run
  without new requests ends with nothing locked (`NamedLock.EveryRunEnds`).
* **Convergence.** From a settled start it fails exactly when the annotation names a live resource of another gateway
  which outranks all resources of this one (`CRPriority.Convergence`; `CRPriority.MovedOwnerOutranks` gives such a
  start). Under the label of a live master that does not go with the owner, such as one that moved to another
  gateway, no run ever applies anything exactly if every resource of the gateway is shut out: all but those of the
  labelled name and the last applied kind, and the masters of a kind above the last applied one
  (`CRPriority.MovedMasterStarves`; `CRPriority.MovedMasterExists` gives a start). If one is let through, it gets in,
  and a further round over all resources converges (`CRPriority.AdmittedThenConverges`). One round is enough in every
  order exactly if a resource of highest rank is among those let through (`CRPriority.OneRoundConvergesExactly`;
  `CRPriority.OneRoundCanFail` gives a start where it is not).
* **PodMonitors.** Two gateways whose names agree on the first 51 characters share a PodMonitor, and deleting one, as a
  facade gateway or in a cleanup pass, takes it from the other (`GatewayLifecycle.SharedPodMonitorIsLostByReconcile`,
  `GatewayLifecycle.SharedPodMonitorIsLostByCleanup`). For any two such names some run does
  (`GatewayLifecycle.SharedStemLosesPodMonitor`).
* **One bad annotation.** A composite gateway in use whose last-applied annotation is malformed or of an unknown
  kind fails every cleanup pass before it deletes or unlabels anything, and with it every reconcile but the egress
  no-op; the text `null` does so by a panic, since it decodes to a nil pointer that the cleanup marks as deleted
  (`FacadeReconciler.FacadeCommonReconciler.CleanupDeployments`). A blocked reconcile leaves the next one blocked
  (`FacadeReconciler.BlockedStays`); `FacadeReconciler.NullAnnotationBlocks` gives a cluster.
* **Status.** Resources are read through a cache. A reconcile that reads Updating for its generation skips that patch,
  and if it then asks to come again, the stored status stays what it is. The phase is that of the ending exactly
  unless this happens on an out-of-date read (`GatewayStatuses.PhaseFollowsEnding`,
  `GatewayStatuses.LastPhaseFollowsEnding`); a retry soon after a failure can leave BackingOff in place while it waits
  for readiness (`GatewayStatuses.StaleReadMisleads`).
* **Policies.** Orphaned policies are not looked at when no managed route is left
  (`HTTPRouteClients.HTTPRouteClient.DeleteOrphaned`; `HTTPRouteClients.OrphanPolicyCanStay` gives a cluster).
* **Names taken over.** The deletes of orphan removal name no version. An ingress of somebody else can be lost to a
  pass exactly if nobody declares its name and the operator had one of that name before
  (`IngressProtocol.ForeignIsLostExactly`); that foreign ones stay in any case needs a server nobody else writes.
* **Marks.** Configured annotations can override the mark by which the operator knows its ingresses. The managed names
  become the declared ones in every order exactly if no resource of the public or private gateway has its mark
  overridden (`IngressClients.ManagedAreDeclaredExactly`).
* **Ingress names.** Port names that differ need not be enough to tell two specs of one resource apart: a gRPC one for
  a port called x and another one for a port called `x-grpc` give one ingress (`IngressTemplates.GrpcNamesCollide`).
  `IngressTemplates.SameNameExactly` says which specs collide, and all are served exactly if those that do ask for the
  same host and port (`IngressClients.AllServedExactly`).
* **Ingresses.** An ingress that only a resource named `egress-gateway` declares is listed as declared, but never
  applied (`IngressClients.EgressIngressNeverApplied`).
* **Image sync.** A pass over an old listing can report success and leave a gateway behind: exactly one that the
  listing shows on the wanted image while the store has another (`ImageSync.NoConflictMeansSynced`).
* **Short names.** A suffix over 63 characters is sliced out of range; for instance labels this means a namespace
  over 62 characters (`Names.InstanceLabel`).
* **Annotations.** A configured text stops the operator at start-up exactly if it is nonempty and one of its lines
  lacks a colon or two quotes (`IngressAnnotations.PanicsExactly`), so every text that ends with a newline does
  (`IngressAnnotations.TrailingNewlinePanics`).

## Model

| member | source | states |
|---|---|---|
| OwnerReferences.MergeOwnerReferences | facade-operator-service/pkg/utils/utils.go:111-130 | the nested loops compute the merge whose algebra the next rows prove |
| OwnerReferences.MergeKeepsOwners | facade-operator-service/pkg/utils/utils.go:111-130 | a merge keeps its first argument as a prefix, loses no owner of either side and adds no UID twice |
| OwnerReferences.MergeAssociative | facade-operator-service/pkg/utils/utils.go:111-130 | merging is associative |
| OwnerReferences.MergeIdempotent | facade-operator-service/pkg/utils/utils.go:111-130 | merging the same owners again changes nothing |
| OwnerReferences.AppliedMostRecentFirst | facade-operator-service/pkg/services/deployment_client.go:116-118 | applies one after another leave the distinct appliers as owners, most recent first |
| OwnerReferences.LatestAppliesInOrder | facade-operator-service/pkg/services/deployment_client.go:116-118 | every listed owner carries the data of the latest apply of its UID, the order is that of those latest applies reversed, and nobody is missing |
| ApplyProtocol.StepKeepsInv | facade-operator-service/pkg/services/deployment_client.go:98-153 | in every interleaving each stored object is the accepted write its version names, and what a worker holds was once stored |
| ApplyProtocol.CommitIsAtomic | facade-operator-service/pkg/services/generic_client.go:40-88 | an accepted write, computed from a read of any age, is what the operation gives on the objects stored at that very instant, and touches nothing else |
| ApplyProtocol.StepRefines | facade-operator-service/pkg/services/config_map_client.go:56-104 | every step of a concurrent run is the atomic change it is logged as, or no change |
| ApplyProtocol.RunEqualsSequentialRun | facade-operator-service/pkg/services/deployment_client.go:98-153 | a concurrent run stores what its changes store when run one after another in commit order |
| ApplyProtocol.OwnerNeverLost | facade-operator-service/pkg/services/deployment_client.go:98-153 | over every run a recorded owner is lost only when the object is deleted |
| ApplyProtocol.ConcurrentOwnersMostRecentFirst | facade-operator-service/pkg/services/deployment_client.go:98-153 | in every interleaving the owners of an object are its distinct appliers, latest committer first |
| ApplyProtocol.ConflictMeansProgress | facade-operator-service/pkg/services/deployment_client.go:137-153 | an apply that read the current object is refused only if another write or deletion of it got in between |
| ApplyProtocol.ApplyIsCommit | facade-operator-service/pkg/services/deployment_client.go:98-153 | the calls of an apply that returns nil with an accepted write are a read and a commit of this machine, with the very store the write left |
| ApplyProtocol.EditIsCommit | facade-operator-service/pkg/services/deployment_client.go:59-96 | so are those of an edit that keeps the owners |
| Deployments.DeploymentClient.Get | facade-operator-service/pkg/services/deployment_client.go:40-57 | one read: a Deployment some accepted write produced, a missing one as none, an error only when the server fails |
| Deployments.DeploymentClient.Apply | facade-operator-service/pkg/services/deployment_client.go:98-135 | whoever else writes: one read, then one write of the template with the owners read, over the version read; Ok exactly if it was accepted, and then it is one atomic merge into the store just before it; conflict and already-exists, and only they, are the muted race |
| Deployments.DeploymentClient.Update | facade-operator-service/pkg/services/deployment_client.go:137-153 | writes only over the version that was read; a race, a missing object and a failing server are told apart |
| Deployments.DeploymentClient.SetLastAppliedCR | facade-operator-service/pkg/services/deployment_client.go:59-77 | whoever else writes: one read, then one write over the version read that changes the annotation and nothing else, owners included; no write exactly if nothing was found or there is nothing to set, and a panic exactly if the Deployment found has no annotations at all |
| Deployments.DeploymentClient.DeleteMasterCRLabel | facade-operator-service/pkg/services/deployment_client.go:79-96 | whoever else writes: one read, then one write over the version read that removes the master label from the Deployment and its pods and nothing else; no write exactly if nothing was found or there is no label |
| Deployments.DeploymentClient.Delete | facade-operator-service/pkg/services/deployment_client.go:155-178 | one read, then one removal of what is stored under that name; nothing found, before or at the removal, is Ok |
| Deployments.DeploymentClient.IsFacadeGateway | facade-operator-service/pkg/services/deployment_client.go:197-223 | true exactly for a stored Deployment labelled as a gateway and not as a composite one, on either label map |
| Deployments.DeploymentClient.GetMeshRouterDeployments | facade-operator-service/pkg/services/deployment_client.go:180-195 | every composite gateway, once each, as stored |
| ObjectClients.MergeIngressesIsOwnerMerge | facade-operator-service/pkg/services/ingress_client.go:100-103 | the callback keeps to the protocol: the version that was read and the owners that were stored |
| ObjectClients.GenericClient.Apply | facade-operator-service/pkg/services/generic_client.go:40-88 | for every callback that keeps to the protocol the calls, the atomic merge and the error classes of an apply, whoever else writes |
| ObjectClients.GenericClient.Delete | facade-operator-service/pkg/services/generic_client.go:90-117 | one read, then one removal of what is stored under that name; nothing found is Ok |
| ObjectClients.ConfigMapClient.Apply | facade-operator-service/pkg/services/config_map_client.go:56-104 | the calls, the atomic merge and the error classes of an apply, whoever else writes |
| ObjectClients.ConfigMapClient.Delete | facade-operator-service/pkg/services/config_map_client.go:106-134 | one read, then one removal of what is stored under that name; nothing found is Ok, any error leaves a quiet server as it was |
| ObjectClients.MonitorClient.Create | facade-operator-service/pkg/services/hpa_client.go:35-80 | the calls of an apply, with other error classes: an object somebody else created first is left to them, a conflict is an error |
| ObjectClients.MonitorClient.Delete | facade-operator-service/pkg/services/pod_monitor_client.go:82-110 | one read, then one removal of what is stored under that name; nothing found is Ok, any error leaves a quiet server as it was |
| CRPriority.DecisionByRank | facade-operator-service/pkg/services/cr_priority_service.go:31-109 | on a settled Deployment the decision tree is a comparison of (is master, kind priority): strictly higher against a master, at least equal otherwise, and the owner always |
| CRPriority.DecisionExactly | facade-operator-service/pkg/services/cr_priority_service.go:31-84 | the decision on every Deployment, settled or not, by ranks, names and liveness: an error exactly at an unreadable annotation; no label, a label that some live resource bears, master or not, and one that none bears, are told apart |
| CRPriority.DeadLabelLetsIn | facade-operator-service/pkg/services/cr_priority_service.go:66-73 | under the label of a resource that is gone, a resource is let in exactly if its kind is not below that of the last applied one, or that one is gone |
| CRPriority.LastAppliedExactly | facade-operator-service/pkg/services/common_cr_client.go:147-172 | the annotation yields the live resource it names, nothing exactly if it names no live one, and an error exactly if it is malformed, without a code, or of an unknown kind, with one |
| CRPriority.MasterLabelExactly | facade-operator-service/pkg/services/cr_priority_service.go:111-117 | the label of the Deployment, or for want of one that of its pods |
| CRPriority.WriteTakesOwnership | facade-operator-service/pkg/templates/mesh_router_deployment.go:80-177 | what an apply writes makes the resource the owner, at its own rank, with the master label exactly for a master |
| CRPriority.SweepKeepsSettled | facade-operator-service/controllers/facade_common_controller.go:452-534 | a cleanup pass leaves owner, label and decisions of a settled Deployment alone |
| CRPriority.StepKeepsInv | facade-operator-service/controllers/facade_common_controller.go:561-602 | every step of interleaved reconciles keeps one decision maker at a time, decisions that still hold when acted on, and a settled Deployment |
| CRPriority.RankNeverFalls | facade-operator-service/pkg/services/cr_priority_service.go:31-109 | over any run, in any interleaving, the rank of the owner never falls |
| CRPriority.MasterOwnershipIsSticky | facade-operator-service/pkg/services/cr_priority_service.go:31-109 | once a master owns the Deployment, ownership changes at most once more, and never from a Gateway master |
| CRPriority.SkipServes | facade-operator-service/controllers/facade_common_controller.go:569-583 | a reconcile that is told to stand back leaves an owner of at least its own rank |
| CRPriority.ForeignOwnerIsOriginal | facade-operator-service/controllers/facade_common_controller.go:569-583 | an owner that uses another gateway is the one the run started with |
| CRPriority.Convergence | facade-operator-service/pkg/services/cr_priority_service.go:31-84 | from a settled start, when every resource of the gateway has been reconciled, in whatever interleaving, the owner is one of them of highest rank, exactly unless a foreign owner at the start outranks them all |
| CRPriority.MovedOwnerOutranks | facade-operator-service/pkg/services/cr_priority_service.go:93-100 | such a foreign owner exists: a Gateway that configured the Deployment and moved on, against a FacadeService |
| CRPriority.SequenceIsARun | facade-operator-service/controllers/facade_common_controller.go:561-602 | reconciling resources one after another is one of those runs |
| CRPriority.SequentialConvergence | facade-operator-service/controllers/facade_common_controller.go:561-602 | one after another in any order ends with an owner of highest rank, under the same exact condition |
| CRPriority.DecisionByLabel | facade-operator-service/pkg/services/cr_priority_service.go:58-109 | under the label of a live master, settled or not, those two guards are the whole decision tree |
| CRPriority.MovedMasterStarves | facade-operator-service/controllers/facade_common_controller.go:460-471 | under the label of a live master, with no reconcile under way, no run ever applies a resource exactly if none of the gateway is of the labelled name and last applied kind, or a master of a kind above it |
| CRPriority.StarvedForever | facade-operator-service/controllers/facade_common_controller.go:460-471 | while all are shut out, every run keeps label, owner and settings, cleanups included |
| CRPriority.AdmittedThenConverges | facade-operator-service/pkg/services/cr_priority_service.go:66-84 | a resource that is let through gets in, and reconciling all resources after it, in any order, ends with an owner of highest rank |
| CRPriority.OneRoundConvergesExactly | facade-operator-service/pkg/services/cr_priority_service.go:66-84 | with somebody let through, one round ends with an owner of highest rank in every order exactly if a resource of highest rank is among those let through |
| CRPriority.OneRoundCanFail | facade-operator-service/pkg/services/cr_priority_service.go:66-84 | a start where it is not: a master is shut out while one that is no master is let through |
| CRPriority.SweepSettles | facade-operator-service/controllers/facade_common_controller.go:452-496 | every other readable start is settled by the next cleanup pass |
| CRPriority.MovedMasterExists | facade-operator-service/pkg/services/cr_priority_service.go:102-109 | a start in which a moved master shuts out the only resource of the gateway, itself a master, though nothing outranks it |
| NamedLock.NamedResourceLock.Lock | facade-operator-service/pkg/utils/utils.go:249-255 | when the spin loop ends it has taken the name exactly once, at an instant when nobody held it, whatever others did between two turns; until then it has taken nothing |
| NamedLock.NamedResourceLock.Unlock | facade-operator-service/pkg/utils/utils.go:257-259 | frees that name only |
| NamedLock.TakingIsAStep | facade-operator-service/pkg/utils/utils.go:249-255 | taking a free name that a worker spins on is one step of the lock machine |
| NamedLock.StepKeepsInv | facade-operator-service/controllers/facade_common_controller.go:89-103 | every step keeps each locked name with exactly one live reconcile, and what a reconcile has deferred in the shape of where it is |
| NamedLock.LockedExactlyByTheLiving | facade-operator-service/controllers/facade_common_controller.go:89-103 | after any run with any mix of returns, errors and panics a name is locked exactly when one live reconcile holds it |
| NamedLock.DeadlockIsCycle | facade-operator-service/controllers/facade_common_controller.go:246-250 | a deadlock can only be a cycle of gateways through the lock names of the stuck requests |
| NamedLock.NoSlashNoDeadlock | facade-operator-service/controllers/facade_common_controller.go:246-250 | no reachable state is deadlocked when gateway names have no slash |
| NamedLock.CycleDeadlocks | facade-operator-service/controllers/facade_common_controller.go:246-250 | conversely every such cycle of requests has a run that deadlocks |
| NamedLock.OwnLockIsCycle | facade-operator-service/controllers/facade_common_controller.go:246-250 | a resource whose gateway is spelled like its own lock is such a cycle |
| NamedLock.DeadlockIsForever | facade-operator-service/pkg/utils/utils.go:249-255 | no later event resolves a deadlock |
| NamedLock.EveryRunEnds | facade-operator-service/controllers/facade_common_controller.go:89-103 | without such a cycle every run without new requests, however scheduled and however each reconcile leaves, has a bounded number of steps, and where nothing more can happen every reconcile is over and nothing is locked |
| NamedLock.CanAlwaysFinish | facade-operator-service/pkg/utils/utils.go:249-259 | so from every such state all live reconciles can finish |
| CleanupRules.SweepExact | facade-operator-service/controllers/facade_common_controller.go:452-534 | a composite gateway survives a pass exactly if some resource names it; it loses the master label exactly if no live master has that name, gets the deleted mark exactly if its last-applied resource is gone, and keeps everything else |
| CleanupRules.SweepIdempotent | facade-operator-service/controllers/facade_common_controller.go:452-534 | a second pass over the same resources changes no Deployment |
| GatewayLifecycle.CleanupIdempotent | facade-operator-service/controllers/facade_common_controller.go:434-559 | nor any ConfigMap, autoscaler or PodMonitor |
| GatewayLifecycle.StagesMakeCleanup | facade-operator-service/controllers/facade_common_controller.go:452-496 | marking, deleting and unlabelling in separate loops add up to one pass, Deployment by Deployment |
| GatewayLifecycle.ReconcileKeeps | facade-operator-service/controllers/facade_common_controller.go:136-170 | an error-free reconcile, whether it applies, stands back, switches from facade to composite or deletes, keeps every gateway all-or-nothing |
| GatewayLifecycle.ReconcileKeepsMonitors | facade-operator-service/controllers/facade_common_controller.go:136-170 | and, with monitoring on and names that differ in their first 51 characters, its PodMonitor |
| GatewayLifecycle.GatewaysAllOrNothing | facade-operator-service/controllers/facade_common_controller.go:217-282 | over every run of error-free reconciles a gateway Deployment exists exactly when its ConfigMap and autoscaler do |
| GatewayLifecycle.MonitorsAllOrNothing | facade-operator-service/controllers/facade_common_controller.go:684-725 | and with monitoring on exactly when its PodMonitor does, as long as the names in play differ in their first 51 characters |
| GatewayLifecycle.ShortNamesUnambiguous | facade-operator-service/controllers/facade_common_controller.go:684-725 | names of at most 51 characters do differ |
| GatewayLifecycle.SharedPodMonitorIsLostByReconcile | facade-operator-service/controllers/facade_common_controller.go:217-239 | a reconcile that deletes a facade gateway leaves another gateway of a shared PodMonitor name in place without its PodMonitor |
| GatewayLifecycle.SharedPodMonitorIsLostByCleanup | facade-operator-service/controllers/facade_common_controller.go:536-559 | so does the cleanup of an unused composite gateway |
| GatewayLifecycle.SharedStemLosesPodMonitor | facade-operator-service/controllers/facade_common_controller.go:684-725 | for any two distinct names that agree on the first 51 characters some run from nothing leaves one gateway without its PodMonitor |
| GatewayRuns.ReconcileAt | facade-operator-service/controllers/facade_common_controller.go:136-170 | cleanup, apply and deletion together change the objects of one gateway as a function of those objects, the resources and the request alone |
| GatewayRuns.OwnGatewayLasts | facade-operator-service/controllers/facade_common_controller.go:604-622 | a resource without a gateway of its own installs a Deployment labelled as a gateway and not as a composite one, and it stands with all its objects over every run that neither deletes nor switches the resource |
| GatewayRuns.OwnGatewayGoes | facade-operator-service/controllers/facade_common_controller.go:217-239 | an error-free deletion or switch of the resource then removes all of them |
| GatewayRuns.SharedGatewayLasts | facade-operator-service/pkg/templates/mesh_router_deployment.go:72-75 | a composite resource that is let in installs a Deployment with the composite label, and it stands with all its objects over every run in which some resource uses it |
| GatewayRuns.SharedGatewayGoes | facade-operator-service/controllers/facade_common_controller.go:474-480 | the first reconcile after the last user has gone then removes all of them |
| GatewayRuns.TemplateRefers | facade-operator-service/pkg/templates/mesh_router_deployment.go:102-110 | every template of a resource carries exactly one owner, which is that very resource by UID, name, kind and version |
| GatewayRuns.InstallersOwn | facade-operator-service/controllers/facade_common_controller.go:624-719 | over every run Deployment, ConfigMap and autoscaler, and the PodMonitor, are owned by exactly the resources that installed the gateway since it was last absent, known by their UIDs, each as of its latest install, the latest first |
| GatewayRuns.DistinctInstallersOwn | facade-operator-service/controllers/facade_common_controller.go:672-743 | installs of resources with pairwise distinct UIDs leave all of them as owners of each of these objects in the reverse order, however they are named |
| GatewayRuns.LastInstallConfigures | facade-operator-service/controllers/facade_common_controller.go:644-681 | over every run the Deployment has the image, the spec, the service name and the annotation of the last reconcile that installed it |
| FacadeReconciler.FacadeCommonReconciler.DeleteMeshRouter | facade-operator-service/controllers/facade_common_controller.go:536-559 | Ok means Deployment, ConfigMap, PodMonitor and autoscaler of that gateway are gone, and nothing else |
| FacadeReconciler.FacadeCommonReconciler.DeleteFacadeGateway | facade-operator-service/controllers/facade_common_controller.go:217-239 | the same for a facade gateway; composite gateways and Deployments of others stay |
| FacadeReconciler.FacadeCommonReconciler.InstallGateway | facade-operator-service/controllers/facade_common_controller.go:604-719 | Ok means the merged Deployment, its ConfigMap and autoscaler, and with monitoring on its PodMonitor, each with the owner of the template in front of the owners it had |
| FacadeReconciler.FacadeCommonReconciler.ApplyMeshRouter | facade-operator-service/controllers/facade_common_controller.go:561-602 | installs exactly when the priority check, which CRPriority.DecisionExactly decides for every Deployment, allows it, and otherwise changes nothing; fails by itself exactly when the priority cannot be decided |
| FacadeReconciler.FacadeCommonReconciler.ApplyFacadeService | facade-operator-service/controllers/facade_common_controller.go:241-282 | composite resources install the shared gateway and drop their own, the others install their own; which type each one is GatewayRuns.OwnGatewayLasts and GatewayRuns.SharedGatewayLasts say by its labels; an empty image is an error |
| FacadeReconciler.FacadeCommonReconciler.FindUsers | facade-operator-service/controllers/facade_common_controller.go:455-472 | the inner loop finds whether a resource names the gateway and whether a live master of that label exists, both ways |
| FacadeReconciler.FacadeCommonReconciler.CleanupLastApplied | facade-operator-service/controllers/facade_common_controller.go:498-526 | marks the annotation exactly when its resource is gone; on a reliable server fails exactly at an annotation that is malformed, of an unknown kind, or the text null, and for the last one by a panic |
| FacadeReconciler.FacadeCommonReconciler.CleanupDeployments | facade-operator-service/controllers/facade_common_controller.go:452-496 | Ok means one exact pass; such an annotation on a gateway in use, and on a reliable server nothing else, ends it before anything is deleted or unlabelled, in the way of one of those annotations |
| FacadeReconciler.FacadeCommonReconciler.DeleteNotUsedMeshRouters | facade-operator-service/controllers/facade_common_controller.go:434-450 | the same from the listing on, and with no composite gateway there is nothing to do |
| FacadeReconciler.FacadeCommonReconciler.Reconcile | facade-operator-service/controllers/facade_common_controller.go:136-170 | Ok means the effect the run theorems are about; when no call fails by itself it is Ok exactly if no annotation blocks the cleanup, the priority can be decided and there is an image; a blocked one only marks annotations |
| FacadeReconciler.CleanupMakesDecidable | facade-operator-service/controllers/facade_common_controller.go:153-164 | after a pass that was not blocked, the priority of every live resource on a composite gateway can be decided |
| FacadeReconciler.BlockedStays | facade-operator-service/controllers/facade_common_controller.go:153-155 | a blocked reconcile leaves the next one, with the same resources, blocked |
| FacadeReconciler.NullAnnotationBlocks | facade-operator-service/controllers/facade_common_controller.go:510-523 | a cluster where the text null blocks every cleanup pass by a panic |
| ServiceClients.ServiceClient.Apply | facade-operator-service/pkg/services/service_client.go:39-69 | whoever else writes: create what is missing, update in place at the version and address read, or replace what has the wrong type; Ok leaves the template's selector and ports at an address of the configured type; on a quiet server a Service of the wrong type that is not the operator's is untouched and the call ends in the muted race |
| ServiceClients.ServiceClient.Update | facade-operator-service/pkg/services/service_client.go:71-87 | writes only over the version that was read, at the address found there |
| ServiceClients.ServiceClient.Create | facade-operator-service/pkg/services/service_client.go:89-102 | a new Service gets an address of the configured type; an existing one is untouched |
| ServiceClients.OneTypeEach | facade-operator-service/pkg/services/service_client.go:104-109 | every address but the empty one is of exactly one type |
| ServiceClients.ServiceClient.Delete | facade-operator-service/pkg/services/service_client.go:111-176 | whoever else writes: an accepted removal removes the version that was read, and only after that version's selector was the expected gateway or was answered as missing or as a gateway; on a quiet server it removes exactly those |
| ServiceClients.ServiceClient.SelectsManagedGateway | facade-operator-service/pkg/services/service_client.go:178-200 | true exactly for a selector whose Deployment is missing or labelled as a gateway |
| ServiceProtocol.StepKeepsInv | facade-operator-service/pkg/services/service_client.go:111-200 | in every interleaving what a cleared deletion has checked stays true of the version it will delete |
| ServiceProtocol.RemovalIsChecked | facade-operator-service/pkg/services/service_client.go:111-200 | whenever a Service is removed, the selector it has at that instant is the one that was checked |
| ServiceProtocol.ForeignServicesSurvive | facade-operator-service/pkg/services/service_client.go:111-200 | a Service that selects a Deployment of somebody else survives every run |
| ServiceProtocol.DeleteIsRemove | facade-operator-service/pkg/services/service_client.go:111-176 | the calls of a Delete that removes a Service are a check and a removal of this machine, with the very store the removal left |
| IngressTemplates.AppliedIsManaged | facade-operator-service/pkg/templates/ingress.go:223-292 | the operator recognises what it applies, exactly unless the configured annotations override the mark on the public or private gateway |
| IngressTemplates.PortResolvable | facade-operator-service/pkg/templates/ingress.go:312-337 | a port cannot be resolved exactly when the ingress names none and the resource lists several; a resolved one is positive |
| IngressTemplates.PortIsFirstPositive | facade-operator-service/pkg/templates/ingress.go:312-337 | a resolved port is the first positive one among that of the spec, the single listed one, that of the resource, and 8080 |
| IngressTemplates.PortNameExactly | facade-operator-service/pkg/templates/ingress.go:339-347 | the name of a port is that of the first listed port with its number, and web exactly if none has it or that one is called so |
| IngressTemplates.ServiceExactly | facade-operator-service/pkg/utils/utils.go:139-153 | the service is the name of the resource, but for a mesh resource that shares a gateway and is none of the three special ones |
| IngressTemplates.NameExactly | facade-operator-service/pkg/templates/ingress.go:214-221 | the name of an ingress, by the index of its port in the list |
| IngressTemplates.SameNameExactly | facade-operator-service/pkg/templates/ingress.go:294-310 | two specs of one resource give one ingress exactly if port name and protocol agree, or the -grpc of a gRPC one makes its name that of the other; on the public and the private gateway exactly if the protocols agree |
| IngressTemplates.GrpcNamesCollide | facade-operator-service/pkg/templates/ingress.go:294-310 | two ports of different names whose ingresses have one name |
| IngressTemplates.AnnotationsExactly | facade-operator-service/pkg/templates/ingress.go:257-270 | configured annotations win on the public and the private gateway and appear on no other ingress |
| IngressTemplates.FindByGatewayType | facade-operator-service/pkg/services/common_cr_client.go:66-88 | the resources typed as ingress, all of them and no others |
| CustomResources.TypeExactly | facade-operator-service/api/facade/v1/gateway_types.go:42-48 | nothing said means mesh, and egress-gateway is of the egress type whatever it says |
| IngressTemplates.ListedButNotApplied | facade-operator-service/pkg/services/ingress_client.go:269 | what is listed as ingress and what is reconciled as one differ exactly for a resource of that name |
| IngressTemplates.CollectNames | facade-operator-service/pkg/services/ingress_client.go:268-286 | exactly the declared names, each the one IngressTemplates.NameExactly spells out, or an error exactly when some declared port cannot be resolved |
| IngressTemplates.OrphanRemovalSpares | facade-operator-service/pkg/services/ingress_client.go:105-136 | whoever else writes, every call of a pass but its listing is about a name nobody declares and every write removes one, and there is none if a declared port cannot be resolved |
| IngressClients.IngressClient.Apply | facade-operator-service/pkg/services/ingress_client.go:96-103 | the calls and error classes of an apply, whoever else writes; Ok means one merge under that name into the ingresses just before the write |
| IngressClients.IngressClient.DeleteOrphaned | facade-operator-service/pkg/services/ingress_client.go:105-136 | whoever else writes: nothing is deleted if a declared port cannot be resolved, and otherwise the listed managed ingresses nobody declares are deleted by name, in order, up to the first error; with nobody else writing, Ok leaves exactly the declared and the foreign ones, and these stay whatever the result |
| IngressClients.IngressClient.ApplyIngresses | facade-operator-service/controllers/facade_common_controller.go:284-299 | whoever else writes: the calls of orphan removal, then for an ingress resource those of its specs; with nobody else writing, the effect the sequence theorems are about, and Ok exactly if the ports can be resolved, on a reliable server |
| IngressClients.IngressClient.ApplySpecs | facade-operator-service/controllers/facade_common_controller.go:301-318 | whoever else writes: one apply for each spec, in order, up to the first error, an unresolvable port being one; with nobody else writing, all specs merged in order, and of every name the last spec is stored with its own host, port and service under its resource as latest owner |
| IngressClients.SpecsAreServed | facade-operator-service/controllers/facade_common_controller.go:301-318 | of every name the last spec is the one whose host, port and service are stored |
| IngressClients.AllServedExactly | facade-operator-service/controllers/facade_common_controller.go:301-318 | every spec of a resource is served exactly if those that collide by port name and protocol ask for the same host and port |
| IngressClients.ManagedAfter | facade-operator-service/controllers/facade_common_controller.go:284-318 | after any sequence of error-free reconciles an ingress some of them applied is managed exactly when the last one left its mark, and any other exactly when it was managed before and is declared |
| IngressClients.ManagedAreDeclared | facade-operator-service/controllers/facade_common_controller.go:284-318 | reconciling every ingress resource makes the managed names exactly the declared ones, if all marks are left in place |
| IngressClients.ManagedAreDeclaredExactly | facade-operator-service/pkg/templates/ingress.go:257-270 | and in every order only then |
| IngressClients.AppliedSurvives | facade-operator-service/pkg/services/ingress_client.go:105-136 | an ingress applied for a live resource is never deleted by a later cleanup |
| IngressClients.EgressIngressNeverApplied | facade-operator-service/controllers/facade_common_controller.go:295-298 | a name only an egress-gateway resource declares ends managed exactly if it was at the start |
| IngressProtocol.StepKeepsInv | facade-operator-service/pkg/services/ingress_client.go:105-136 | in every interleaving a pass only has names to delete that nobody declares and the operator had before |
| IngressProtocol.RemovalsAreUndeclared | facade-operator-service/pkg/services/ingress_client.go:105-136 | in every interleaving no pass of any worker can remove a declared name |
| IngressProtocol.DeclaredSurvives | facade-operator-service/pkg/services/ingress_client.go:105-136 | in every interleaving a declared ingress, once applied, stays and stays managed |
| IngressProtocol.ManagedBecomeDeclared | facade-operator-service/pkg/services/ingress_client.go:105-136 | in every interleaving, once a pass that listed every managed name has come to its end on fresh reads and every declared name has been applied, the managed names are exactly the declared ones |
| IngressProtocol.FreshListingPends | facade-operator-service/pkg/services/ingress_client.go:105-121 | a fresh listing is such a pass |
| IngressProtocol.NeverManagedSurvives | facade-operator-service/pkg/services/ingress_client.go:105-136 | in every interleaving an ingress of somebody else whose name is declared, or never was the operator's, stays |
| IngressProtocol.ForeignIsLostExactly | facade-operator-service/pkg/services/generic_client.go:106-114 | one of somebody else can be lost to a pass exactly if its name is undeclared and was the operator's before |
| IngressProtocol.ListingIsStep | facade-operator-service/pkg/services/ingress_client.go:105-126 | a listing of managed objects of any age is a step of this machine, with the names the pass deletes |
| IngressProtocol.RemovalIsStep | facade-operator-service/pkg/services/generic_client.go:106-114 | an accepted removal of such a name is a step, with the very store it left |
| HTTPRouteClients.HTTPRouteClient.Apply | facade-operator-service/pkg/services/httproute_client.go:48-84 | whoever else writes: the calls of an apply for the route, then for each policy its template carries, up to the first error; a race on the route is muted, on a policy it is an error |
| HTTPRouteClients.HTTPRouteClient.Delete | facade-operator-service/pkg/services/httproute_client.go:124-147 | the route and the two policies of its name; a policy that cannot be deleted does not fail the call |
| HTTPRouteClients.HTTPRouteClient.DeleteOrphaned | facade-operator-service/pkg/services/httproute_client.go:86-122 | whoever else writes: nothing is deleted if a declared port cannot be resolved or no managed route was listed, and otherwise the undeclared routes in order, the two policies of each one after it is deleted, then the undeclared policies of the operator, up to the first error; with nobody else writing, Ok leaves no managed route and no policy of the operator undeclared, and declared objects and routes of others stay whatever the result |
| HTTPRouteClients.HTTPRouteClient.DeleteOrphanedPolicies | facade-operator-service/pkg/services/httproute_client.go:149-175 | whoever else writes: one removal by name for each listed policy of the operator that nobody declares, in order, up to the first error; a kind that is not served is Ok; with nobody else writing, Ok leaves none |
| HTTPRouteClients.RouteRemovalSpares | facade-operator-service/pkg/services/httproute_client.go:86-175 | whoever else writes, every write of a pass over routes and policies removes a name nobody declares, and there is none if a declared port cannot be resolved |
| HTTPRouteClients.OrphanPolicyCanStay | facade-operator-service/pkg/services/httproute_client.go:97-99 | a cluster where a pass leaves an undeclared policy of the operator |
| GatewayStatuses.StatusUpdater.PatchStatus | facade-operator-service/pkg/services/status_updater.go:61-97 | one accepted patch of phase and generation, whose answer replaces the resource in hand, or a refusal that leaves the server's status alone |
| GatewayStatuses.ReadyService.IsDeploymentReadyInternal | facade-operator-service/pkg/services/ready_service.go:72-98 | the separately coded target is the Deployment the apply writes; ready exactly when it exists with all replicas ready and none unavailable |
| GatewayStatuses.ReadyService.CheckDeploymentReady | facade-operator-service/pkg/services/ready_service.go:49-70 | Updated exactly when that Deployment is ready, otherwise a requeue with the status as it was, and an error exactly when the read fails |
| GatewayStatuses.StatusReconciler.Reconcile | facade-operator-service/controllers/facade_common_controller.go:89-134 | whatever was read and whatever the calls and patches answer or panic, Updated is only written right after its warrant; when no patch fails, it is done with Ok exactly if every call it made returned nil and nothing is waited for, the first failing call decides the answer otherwise, and the statuses written follow from the calls in the same way; when a patch fails, the reconcile comes again |
| GatewayStatuses.EndingTells | facade-operator-service/controllers/facade_common_controller.go:89-170 | the answer by the calls: done with Ok exactly if all returned nil and nothing is waited for; the first failure comes again if expected, comes again later if a panic, and is reported otherwise |
| GatewayStatuses.EndingShows | facade-operator-service/controllers/facade_common_controller.go:89-170 | the statuses by the calls: Updated exactly if all returned nil and nothing is waited for, BackingOff last exactly if the first failure is no expected error, for the generation in hand, and Updating exactly if the apply is reached and it was not read |
| GatewayStatuses.PhaseFollowsEnding | facade-operator-service/pkg/services/ready_service.go:33-47 | the phase is a function of the ending (readiness requeue Updating, coded, unknown and panic BackingOff, success Updated) exactly unless a reconcile that asks to come again skipped its patch on an out-of-date read |
| GatewayStatuses.FreshReadFollowsEnding | facade-operator-service/pkg/services/ready_service.go:33-47 | on a fresh read it always is |
| GatewayStatuses.StatusReconciler.Recover | facade-operator-service/controllers/facade_common_controller.go:93-103 | a recovered panic ends BackingOff with a requeue, and panics again only if the status patch fails |
| GatewayStatuses.StatusReconciler.ReconcileInternal | facade-operator-service/controllers/facade_common_controller.go:136-179 | whatever was read, it returns what the first call that did not return nil answered, panics included, and nil exactly if none failed, the egress no-op and the deletion included; the statuses written up to there and the generation in hand are those of the ending; a failed patch is an error or a panic |
| GatewayStatuses.LastTurnDecides | facade-operator-service/controllers/facade_common_controller.go:89-134 | over every run, whatever was read, the status is that of the ending of the last reconcile that wrote one, and the one of the start if none did |
| GatewayStatuses.LastPhaseFollowsEnding | facade-operator-service/controllers/facade_common_controller.go:89-134 | so it is that of the last reconcile exactly unless that one is silent about a status that differs from what it read |
| GatewayStatuses.StaleReadMisleads | facade-operator-service/controllers/facade_common_controller.go:155-159 | a run of two reconciles, the second reading what the first wrote in between, that asks to come again for readiness and leaves BackingOff |
| GatewayStatuses.UpdatedMeansReady | facade-operator-service/controllers/facade_common_controller.go:89-179 | at the end of every run, whatever was read, Updated for a generation means that a reconcile with that generation in hand saw the gateway ready and that no later one wrote a status |
| ImageSync.ConfigMapReconciller.UpdateImages | facade-operator-service/controllers/configmap_controller.go:97-119 | whoever else writes: one write for each stale item, in order, that fixes the image at the listed version and nothing else or meets a conflict, which does not stop the rest; a conflict is reported exactly if a write met one, any other refusal stops the pass; with nobody else writing, exactly the items still current are fixed |
| ImageSync.ConfigMapReconciller.Reconcile | facade-operator-service/controllers/configmap_controller.go:45-95 | a requeue exactly if a write was refused with a conflict; a listing answered with not found is Ok; a fresh pass leaves every gateway on the wanted image without a conflict |
| ImageSync.FreshListing | facade-operator-service/controllers/configmap_controller.go:64-95 | a fresh listing has no conflict and fixes exactly the stale gateways |
| ImageSync.WithImageFixes | facade-operator-service/controllers/configmap_controller.go:100-105 | a fix changes the image of the first container and nothing else, and an up-to-date Deployment would stay as it is |
| ImageSync.StaleCountFalls | facade-operator-service/controllers/configmap_controller.go:97-119 | the stale count falls by exactly the accepted writes, however old the listing |
| ImageSync.NoConflictMeansSynced | facade-operator-service/controllers/configmap_controller.go:97-119 | a pass without conflict leaves a listed gateway stale exactly if the listing showed it on the wanted image while the store did not |
| ImageSync.OldListingHidesStale | facade-operator-service/controllers/configmap_controller.go:100-103 | such a listing exists |
| ImageSync.RetriesRunOut | facade-operator-service/controllers/configmap_controller.go:45-119 | over any number of retries the writes are exactly the drop in the stale count |
| Names.ShortNameFits | facade-operator-service/controllers/facade_common_controller.go:754-759 | short names fit 63 characters, keep their suffix and cut the name only when they must; out of range exactly for suffixes over the limit |
| Names.PodMonitorNames | facade-operator-service/controllers/facade_common_controller.go:684-725 | the separately coded create and delete names agree, and two gateways share one exactly when their names agree on the first 51 characters |
| Names.InstanceLabelIsLongestValidPrefix | facade-operator-service/controllers/facade_common_controller.go:28 | the leftmost-first match of the label expression is the longest prefix that is a valid label value |
| Names.InstanceLabel | facade-operator-service/controllers/facade_common_controller.go:749-759 | instance labels are that prefix of the short name, for every namespace of at most 62 characters and no other |
| SemVers.CutDigitsFromVersion | facade-operator-service/pkg/utils/semver.go:69-83 | the scan cuts at the first character that is not a digit |
| SemVers.NewSemVer | facade-operator-service/pkg/utils/semver.go:27-49 | the field-by-field parse is the parse the next rows are about |
| SemVers.ThreeNumbers | facade-operator-service/pkg/utils/semver.go:27-89 | three numbers with blanks, a v or V prefix and any tail that is not more digits are read as they are; out of range an overflow is clamped, a large minor hides the patch and a large major is an error |
| SemVers.TwoNumbers | facade-operator-service/pkg/utils/semver.go:38-47 | two numbers read with patch 0, whatever the tail after the minor holds |
| SemVers.MajorOnly | facade-operator-service/pkg/utils/semver.go:33-37 | a lone major is read exactly without a tail |
| SemVers.PrintedVersionIsReadBack | facade-operator-service/pkg/utils/semver.go:27-89 | parsing undoes printing |
| SemVers.NewerMeansPreceded | facade-operator-service/pkg/utils/semver.go:17-25 | the comparison is precedence by the first differing numeric field, section 11 of Semantic Versioning 2.0.0 |
| SemVers.NewerIsStrictTotalOrder | facade-operator-service/pkg/utils/semver.go:17-25 | a strict total order with its reflexive closure |
| IngressAnnotations.BuildGwIngressAnnotations | facade-operator-service/pkg/templates/ingress.go:52-74 | the map-filling loop is the parse the next rows are about, a panic being None |
| IngressAnnotations.ReadableExactly | facade-operator-service/pkg/templates/ingress.go:65-74 | a line is sliced within range exactly if it has a colon and two quotes |
| IngressAnnotations.LastWinsValue | facade-operator-service/pkg/templates/ingress.go:58-61 | of repeated names the last line wins |
| IngressAnnotations.WrittenAnnotationsAreReadBack | facade-operator-service/pkg/templates/ingress.go:52-74 | quoted lines joined by either line ending give back their entries, values with quotes and colons included |
| IngressAnnotations.MapIsReadBack | facade-operator-service/pkg/templates/ingress.go:52-74 | writing a map in any order and reading it gives the map |
| IngressAnnotations.PanicsExactly | facade-operator-service/pkg/templates/ingress.go:52-74 | a text panics exactly if it is nonempty and some line lacks a colon or two quotes |
| IngressAnnotations.TrailingNewlinePanics | facade-operator-service/pkg/templates/ingress.go:57-61 | every text that ends with a newline panics |

## Left out

- NamedLock.NamedResourceLock.Lock: takes the number of turns as a parameter, since a spin loop need not end; the sleep between two turns is not modelled. That a spinning worker gets its turn when the name is free is left to the scheduler.
- FacadeReconciler.FacadeCommonReconciler.Reconcile: Services, ingresses, routes, statuses and the control plane are calls that may fail; they are modelled by themselves. What a failed reconcile leaves half done is not described, except for the cleanup pass and the clients.
- HTTPRouteClients.HTTPRouteClient.Apply: the callback for policies is the one for routes; the template of a route, beyond its name and annotations, is not modelled.
- ObjectClients.MonitorClient.Create: stands for autoscalers and PodMonitors, whose contents are a target name only.
- ServiceClients.ServiceClient.Apply: labels of Services and selector entries other than the app are not modelled, and an allocated address is any address.
- GatewayStatuses.StatusReconciler.Reconcile: how old a cached read may be is not bounded; the answer to a patch may change spec, UID and generation of the resource in hand, not its kind and name.
- ImageSync.ConfigMapReconciller.Reconcile: assumes that every Deployment has a container, as the API server demands; the image comes as a parameter.
- Deletion of Services inside the cleanup of composite gateways is a call that may fail, not part of the footprint of a gateway.
- After a deletion that failed halfway a retry no longer finds the Deployment; the garbage collector of Kubernetes, which removes the rest, is not modelled.
- One namespace only; lock names still carry it.
- JSON text: an annotation is absent, malformed, null or a record with its four fields.
- Text is ASCII: other blanks and digits of Unicode, and slicing bytes of longer characters, are not modelled.
- The v1beta1 Ingress and OpenShift Route clients, which repeat the v1 Ingress client, and the annotations that depend on the platform.
- Labels, environment, probes, volumes, resources, replicas and topology of Deployments other than the labels named here; the autoscaler template; control-plane requests; metrics, logging, start-up and configuration reading.
- Injectivity of ingress names over different resources, which does not hold either: the service and the port name are joined by a dash that both may contain.
