# NDNSF coordination, dataflow and storage: a verified model

This project models the parts of the repository that hold real state machines and proves what they
keep over whole runs. `dafny verify dfyconfig.toml` checks all of it.

**Concurrent admission.** An authority queues requests for exclusive provider slots and issues signed
permits for whole claim sets; providers reserve through a permit gate and a leased reservation book;
requesters select all required providers or none. `Admission` gives the coordinator's operations as
functions on its state, `AdmissionAnswers` when each succeeds, `AdmissionCoordinator` the object that updates that state in place, and
`AuthorityNode` the request handler with its counters; `AdmissionWindows` says when permit windows stay
apart. `Reservations` and `ReservationBook` do the same for the provider's book and its ledger, and
`ReservationAnswers` and `ReservationReceipts` say when calls succeed and when receipts are true. `ConflictCell` puts two authorities,
restarting providers and a network that may lose, delay, repeat and replay every message into one step
relation; `ConflictCellGate` says who is let through, `ConflictCellSafety` proves its invariant, `ConflictCellTheorems` what follows for every run,
`ConflictCellRequesters` what requesters that select from acknowledgements get, `ConflictCellLiveness`
that every claim set can still be had, and `ConflictCellOnce` that no acknowledgement is executed twice.
`RequesterLoop` is the acquire loop with its counts and timing.

**Dataflow.** A model split into roles exchanges tensor bundles through references to large objects.
`DataflowBoard` states what one role does to the published bundles, `DataflowRole` name by name, `DataflowRun` and
`DataflowMeaning` what whole plans do, `LargeObjectStore` the store and the executor in place, and
`FanInFanOut` the four-role graph as an instance. `LlmPipeline`, `LlmMeaning` and `LlmStore` are the
interpreter over arbitrary pipeline plans; `LayerPartition` is the split of layers over stages.

**Repository storage.** `TieredStore`, `TieredStoreAnswers`, `TieredStoreRefinement`,
`TieredStoreCounters` and `TieredRepoStore` model the byte-bounded cache over its authority; `PacketStore` the shared, write-once
packets and the fetch of whole packet sets; `PacketVisibility` what a fetch by packet name makes
readable; `QuorumWrite` staged writes, receipts, finalization and repair; `CatalogMerge` and
`CatalogSummary` the catalog's merge rule, tombstones, conflicts and repair plan.

Each object that the sources update in place is a class whose methods are proved against functions of
the old state; the properties are lemmas about those functions.

## Where the code and what is said of it differ

- `AdmissionHistory.CapacityHeldExactly`: the pairwise conflict check is not enough for shared devices
  of capacity two or more; it is for the exclusive slots of the cell.
- `AdmissionWindows.StaysApartExactly`: a permit released early still passes the offline gate
  until its window ends, so permits that are live at the authority are disjoint, while envelopes that
  still pass the gate need not be. The reservation book then keeps the device single.
- `AuthorityNode.UnreportedExactly`: a release with a blank reason ends the permit and is counted as a
  rejection, so the release counter equals the permits ended by calls only when no such call occurs.
- `AdmissionTime.ReleasedIsFinal`: a request keeps its attempt number across retries, so once its
  permit has expired its remaining retries cannot be granted.
- `AdmissionRedeclared.RedeclarationExactly`: a queued request is not checked again when its device is
  declared anew, and may be granted more than the device then has.
- `ReservationHistory.ConservedExactly`: reserving over a committed reservation of the same request
  drops it silently unless one unit is all there is to be had.
- `ReservationReceipts.ReceiptTruthfulExactly`: a repeated decision is answered from memory, although the
  reservation it selected has ended or the one it refused has been made again. And since accepted
  decisions are kept by request, a request refused once can be reserved again but not selected.
- `ReservationIntervals.InTurnByTimeExactly`: releases by decision and by shutdown are stamped with time
  zero, so ownership intervals are ordered by ledger sequence and, after such a release, not by time.
- `ConflictCellTheorems.EveryExecutionGated`: the gate is consulted only for asks that negotiate a
  reservation; an ask that does not is executed in centralized mode without a permit.
- `TieredStoreRefinement.GetAnswersExactly`: a get can differ from the authority's answer for a manifest
  that does not read back unchanged; `TieredRepoStore.AgreesExactly`: a fetch holds no lock between
  its read and its admission, and an overtaken admission leaves a stale object in the cache.
- `CatalogMerge.ConvergesExactly`: merging does not converge for every multiset of deltas. It does for
  one boot with steady stamps (`CatalogMerge.SteadyBootConverges`); restarts, equal stamps and staged
  entries are where it does not.
- `CatalogMerge.TombstoneStandsExactly`: staged entries and older tombstones of another boot replace a
  tombstone, and an older available entry can then come back.
- `CatalogSummary.AvailableWithNoneLive`: an object for which repair is forbidden can be reported
  AVAILABLE without any live replica.
- `CatalogSummary.AvailableMeansNewestExactly` and `CatalogSummary.RepairsNewestExactly`: live replicas of
  older generations count towards AVAILABLE, and repair copies the first live replica, whatever its generation.
- `PacketVisibility.ReadableOwnedExactly`: a fetch by exact packet name serves all stored packets of that
  version, those of staged objects included.
- `PacketStore.WireChangesExactly`: a name is immutable while it is referenced; once no object
  references it the packet is dropped, and the name may come back with another wire.
- `QuorumWrite.QuorumVisibilityExactly`: a repository enforces the receipt count of the finalizing
  request and not of the staged write, takes receipts as they are presented, and makes any pull by the
  publisher that carries a repair authorization readable at once.
- `QuorumWrite.RepairKeepsContent`: a repaired copy has an operation of its own and generation zero, so
  its quorum is that of the content it was copied from and not of its own operation.
- `DataflowBoard.DashCollision` and `LlmPipeline.UnderscoreCollision`: role names that use the
  replacement character of the name mangling can share a key.

## Model

| member | source | states |
|---|---|---|
| `ConflictCellTheorems.EveryAdmissionGated` | Experiments/NDNSF_DI_ConcurrentFaultBoundaries_Minindn.py:172-210 | Centralized mode, every run with loss, replay, restarts and a second authority: each reservation handed out was gated by a permit of the expected authority for that same request and device, inside its window at gate time |
| `ConflictCellTheorems.EveryExecutionGated` | NDNSF-DistributedInference/ndnsf_distributed_inference/provider.py:1420-1494 | Centralized mode: the executions of a request follow gated reservations of it, at the same provider boot and no later, in every run, if and only if nobody asks for it without the reservation capability, which is answered before the gate is looked at |
| `ConflictCellTheorems.PlainRunExecutes` | NDNSF-DistributedInference/ndnsf_distributed_inference/provider.py:1420-1440 | The input for the other half: an ask without the capability is executed with nothing reserved and no permit |
| `ConflictCellTheorems.NegotiatedGated` | Experiments/NDNSF_DI_ConcurrentFaultBoundaries_Minindn.py:183-210 | Each execution of an ask that did negotiate a reservation is gated, whatever else is asked in the run |
| `ConflictCellTheorems.GatedExactly` | NDNSF-DistributedInference/ndnsf_distributed_inference/provider.py:1420-1494 | In any one run an execution is gated if and only if that provider boot had by then handed the request a reservation, whatever its own ask negotiated |
| `ConflictCellGate.EveryAdmissionEntitled` | Experiments/NDNSF_DI_ConcurrentFaultBoundaries_Minindn.py:183-186 | In every run and mode each reservation handed out answers an ask at that provider boot and time by a requester of the cell whose claims name the provider |
| `ConflictCellGate.AcknowledgeExactly` | NDNSF-DistributedInference/ndnsf_distributed_inference/provider.py:1420-1494 | Exactly which asks are acknowledged plainly, leased, and refused in each way; a refused gate leaves the book alone |
| `ConflictCellGate.SelectExactly` | ndn-service-framework/ServiceProvider.cpp:9650-9745 | Exactly which selections execute: a waiting request with no decision, or with one that is accepted and selects it; and what waits and what is booked afterwards |
| `ConflictCellGate.ProviderStepsExactly` | Experiments/NDNSF_DI_ConcurrentFaultBoundaries_Minindn.py:231-243 | What the end of a request, a tick and a restart leave at a provider: a restart keeps the book only under the same boot |
| `ConflictCellTheorems.LaterBootsNeverAdmit` | Experiments/NDNSF_DI_ConcurrentFaultBoundaries_Minindn.py:50-55 | Permits name the first boot only, so a restarted provider neither reserves for nor executes a negotiated request in any run |
| `ConflictCellTheorems.LivePermitsDisjoint` | Experiments/NDNSF_DI_ConcurrentFaultBoundaries_Minindn.py:98-139 | Over every run, live permits never share a device: whole claim sets, pairwise disjoint |
| `ConflictCellTheorems.ProviderHoldsOne` | Experiments/NDNSF_DI_ConcurrentFaultBoundaries_Minindn.py:172-175 | Each provider boot has at most one live reservation and its ownership intervals follow one another by ledger sequence |
| `ConflictCellTheorems.AdmissionsAlternate` | Experiments/NDNSF_DI_ConcurrentFaultBoundaries_Minindn.py:183-193 | Two requests reserved at one device were gated by permits whose windows lie apart, unless the earlier one was released by a call before the later was issued |
| `ConflictCellOnce.ExecutedAtMostOncePerReservation` | ndn-service-framework/ServiceProvider.cpp:9736-9745 | Since a selection erases the pending request it found, in every run a provider boot executes a negotiated request at most as often as it handed it a reservation, replayed selections included |
| `ConflictCellTheorems.EveryHoldDrains` | Experiments/NDNSF_DI_ConcurrentFaultBoundaries_Minindn.py:235-237 | From every reachable state the expiry loop alone ends tentative holds within 1200 ms and all holds within 2500 ms, requesters or not |
| `ConflictCellTheorems.QuietProviderLeases` | NDNSF-DistributedInference/ndnsf_distributed_inference/provider.py:1420-1494 | After 2500 quiet milliseconds a provider leases to any permitted asker with a good permit |
| `ConflictCellLiveness.EveryClaimSetCanBeHad` | Experiments/NDNSF_DI_ConcurrentFaultBoundaries_Minindn.py:104-143 | From every reachable state some continuation ends with every provider of any given set holding a live reservation for one new request, in centralized mode under a permit and for providers still in their first boot |
| `ConflictCellLiveness.FreshRequestGranted` | NDNSF-DistributedInference/ndnsf_distributed_inference/core/conflict_coordination.py:386-428 | Once everything issued or queued is past its time a new request for any set of providers is granted at once |
| `ConflictCellTheorems.ClashExactlyWhenShared` | Experiments/NDNSF_DI_ConcurrentFaultBoundaries_Minindn.py:117-121 | Requests built from provider lists clash exactly when the lists share a provider |
| `ConflictCellRequesters.AllAcknowledgedOrNone` | Experiments/NDNSF_DI_ConcurrentFaultBoundaries_Minindn.py:299-309 | In every run a requester's request is executed only at providers it requires, and only after every one of them had acknowledged it |
| `ConflictCellRequesters.ChoosesExactly` | Experiments/NDNSF_DI_ConcurrentFaultBoundaries_Minindn.py:299-304 | A requester chooses all it requires exactly when each acknowledged with success among what it received, and none otherwise |
| `ConflictCellRequesters.OnePermitForAll` | Experiments/NDNSF_DI_ConcurrentFaultBoundaries_Minindn.py:183-193 | In centralized mode a request that negotiates executes anywhere only when one permit gated its reservations at every provider it requires |
| `ConflictCellTheorems.ResourceKeyInjective` | Experiments/NDNSF_DI_ConcurrentFaultBoundaries_Minindn.py:50-55 | Different providers or boots never share a resource key |
| `AdmissionInvariant.RunKeeps` | NDNSF-DistributedInference/ndnsf_distributed_inference/core/conflict_coordination.py:255-507 | Every run of registering, submitting, granting, activating, releasing, expiring, switching mode and rotating keeps: one permit or queue entry per request, claims declared, no aliased device, live permits pairwise compatible |
| `AdmissionInvariant.SubmitKeeps` | NDNSF-DistributedInference/ndnsf_distributed_inference/core/conflict_coordination.py:355-375 | One submission keeps that invariant |
| `AdmissionInvariant.GrantKeeps` | NDNSF-DistributedInference/ndnsf_distributed_inference/core/conflict_coordination.py:386-428 | One grant, of any number of queued requests for their whole claim sets, keeps it |
| `AdmissionInvariant.RegisterKeeps` | NDNSF-DistributedInference/ndnsf_distributed_inference/core/conflict_coordination.py:314-336 | Registering declarations keeps it, also when one of them is refused half way |
| `AdmissionAnswers.RegisterOneExactly` | NDNSF-DistributedInference/ndnsf_distributed_inference/core/conflict_coordination.py:316-333 | A declaration is taken exactly when no other key names its device and it is new, unchanged, or newer for a device no live permit claims |
| `AdmissionAnswers.SubmitExactly` | NDNSF-DistributedInference/ndnsf_distributed_inference/core/conflict_coordination.py:338-375 | A submission joins the queue exactly when capability and claims are acceptable, it is in time and its identity unknown; otherwise nothing changes, and the first refused claim is named |
| `AdmissionAnswers.SubmitKnown` | NDNSF-DistributedInference/ndnsf_distributed_inference/core/conflict_coordination.py:355-375 | A known identity is answered with how its own request stands, and refused for another request |
| `AdmissionAnswers.GrantExactly` | NDNSF-DistributedInference/ndnsf_distributed_inference/core/conflict_coordination.py:386-394 | A grant goes through exactly when the asking authority is the current one, admission is open and the lease positive; otherwise nothing changes |
| `AdmissionAnswers.GrantsChosen` | NDNSF-DistributedInference/ndnsf_distributed_inference/core/conflict_coordination.py:394-428 | It then issues one permit for each request in time that conflicts neither with a live permit nor with one chosen before it, in queue order, for as long as deadline, lease and limit allow |
| `AdmissionAnswers.RotateExactly` | NDNSF-DistributedInference/ndnsf_distributed_inference/core/conflict_coordination.py:497-507 | An authority gives way exactly to one of its scope with a later epoch while no permit is live |
| `AdmissionAnswers.RotatedOutFenced` | NDNSF-DistributedInference/ndnsf_distributed_inference/core/conflict_coordination.py:386-390 | After a rotation no grant asked for by the authority rotated out ever issues a permit or changes anything again, in any continuation |
| `AdmissionAnswers.ReleaseExactly` | NDNSF-DistributedInference/ndnsf_distributed_inference/core/conflict_coordination.py:460-472 | A release ends the live permit of that number and no other; when it answers false and when it fails |
| `AdmissionAnswers.ActivateChanges` | NDNSF-DistributedInference/ndnsf_distributed_inference/core/conflict_coordination.py:430-458 | What each activation answers and leaves changed |
| `AdmissionHistory.MutualExclusion` | NDNSF-DistributedInference/ndnsf_distributed_inference/core/conflict_coordination.py:184-189 | In every run at most one live permit claims a device declared exclusive or of capacity one |
| `AdmissionHistory.CapacityHeldExactly` | NDNSF-DistributedInference/ndnsf_distributed_inference/core/conflict_coordination.py:377-384 | While a device is declared one way, the pairwise check keeps all runs within its capacity if and only if it is exclusive or has capacity one |
| `AdmissionHistory.OvercommitRuns` | NDNSF-DistributedInference/ndnsf_distributed_inference/core/conflict_coordination.py:377-384 | The input for the other half: three requests that fit in pairs are all granted and exceed the capacity |
| `AdmissionTime.ReleasedIsFinal` | NDNSF-DistributedInference/ndnsf_distributed_inference/core/conflict_coordination.py:355-375 | A request whose permit has ended gets nothing more in any continuation, and submitting it again changes nothing |
| `AdmissionTime.SubmitTwice` | NDNSF-DistributedInference/ndnsf_distributed_inference/core/conflict_coordination.py:355-375 | Submitting again is idempotent and answers as before; another request under the identity is refused |
| `AdmissionTime.ReleaseTwice` | NDNSF-DistributedInference/ndnsf_distributed_inference/core/conflict_coordination.py:460-472 | Releasing changes state at most once, whatever time and reason come with it |
| `AdmissionTime.GrantIsMaximal` | NDNSF-DistributedInference/ndnsf_distributed_inference/core/conflict_coordination.py:386-428 | After a grant everyone still queued is blocked by a live permit, and everyone taken from the queue has a live permit or is past its deadline |
| `AdmissionWindows.StaysApartExactly` | NDNSF-DistributedInference/ndnsf_distributed_inference/core/conflict_coordination.py:386-486 | From every state of a monotone run: whatever follows without an early release, windows of clashing permits stay apart if and only if they are apart now and whatever a permit ended by a call claims is held by live permits until its window ends |
| `AdmissionWindows.ExclusiveStayApartExactly` | NDNSF-DistributedInference/ndnsf_distributed_inference/core/conflict_coordination.py:386-486 | Where every permit claims its devices for itself: if and only if the windows are apart now and no permit ended by a call has a window still running |
| `AdmissionTime.WindowsOverlapOnlyAfterRelease` | NDNSF-DistributedInference/ndnsf_distributed_inference/core/conflict_coordination.py:386-428 | The sufficient half for one run: while the clock does not run backwards, windows of clashing permits overlap only if the earlier permit was released by a call before it ran out |
| `AdmissionTime.AuditPassesWhenExclusive` | NDNSF-DistributedInference/ndnsf_distributed_inference/core/conflict_coordination.py:509-530 | When all claims are exclusive the ownership audit passes after every monotone run |
| `AdmissionBoundaries.EarlyReleaseLetsWindowsMeet` | NDNSF-DistributedInference/ndnsf_distributed_inference/core/conflict_coordination.py:460-472 | A run in which an early release lets two clashing windows meet |
| `AdmissionBoundaries.ClockSteppingBackLetsWindowsMeet` | NDNSF-DistributedInference/ndnsf_distributed_inference/core/conflict_coordination.py:474-486 | A run in which a clock stepping back does so without any release call |
| `AdmissionRedeclared.RedeclarationExactly` | NDNSF-DistributedInference/ndnsf_distributed_inference/core/conflict_coordination.py:314-336 | Over all runs that declare an exclusive or capacity-one device anew: live permits stay within its current capacity until the next declaration, from every state of the run, if and only if no registration leaves a queued request claiming more than the device then has |
| `AdmissionRedeclared.StaysWithinExactly` | NDNSF-DistributedInference/ndnsf_distributed_inference/core/conflict_coordination.py:386-428 | From one state: live permits stay within the capacity while the declaration stands if and only if they are within it now and no queued request claims more |
| `AdmissionRedeclared.CapacityHeldAcrossRedeclarations` | NDNSF-DistributedInference/ndnsf_distributed_inference/core/conflict_coordination.py:326-334 | So careful runs keep within the current capacity throughout, since a device in use is never declared anew |
| `AdmissionBoundaries.RedeclaredWhileQueued` | NDNSF-DistributedInference/ndnsf_distributed_inference/core/conflict_coordination.py:314-336 | The input: a queued request is granted more than its device, declared anew meanwhile, now has |
| `AdmissionTime.PermitsBounded` | NDNSF-DistributedInference/ndnsf_distributed_inference/core/conflict_coordination.py:414-420 | In every run a permit lasts a positive time, at most the authority's limit, and not beyond its request's deadline |
| `AdmissionTime.ActivatesExactly` | NDNSF-DistributedInference/ndnsf_distributed_inference/core/conflict_coordination.py:430-458 | A granted permit in its window is activated exactly when every claim is bound by a live reservation of the request: no partial set |
| `AdmissionCoordinator.ConflictAdmissionCoordinator.constructor` | NDNSF-DistributedInference/ndnsf_distributed_inference/core/conflict_coordination.py:258-274 | Starts empty and available, invariant established |
| `AdmissionCoordinator.ConflictAdmissionCoordinator.RegisterDeclarations` | NDNSF-DistributedInference/ndnsf_distributed_inference/core/conflict_coordination.py:314-336 | In place: the new state and error are those of the registration function; invariant kept |
| `AdmissionCoordinator.ConflictAdmissionCoordinator.Submit` | NDNSF-DistributedInference/ndnsf_distributed_inference/core/conflict_coordination.py:355-375 | In place: state and answer of the submission function; invariant kept |
| `AdmissionCoordinator.ConflictAdmissionCoordinator.Expire` | NDNSF-DistributedInference/ndnsf_distributed_inference/core/conflict_coordination.py:474-486 | The sweep loop ends exactly the permits that are due and returns how many |
| `AdmissionCoordinator.ConflictAdmissionCoordinator.GrantNext` | NDNSF-DistributedInference/ndnsf_distributed_inference/core/conflict_coordination.py:386-428 | The two loops over queue and selection compute the grant function: expiry, one pass in submission order, whole-set permits |
| `AdmissionCoordinator.ConflictAdmissionCoordinator.Activate` | NDNSF-DistributedInference/ndnsf_distributed_inference/core/conflict_coordination.py:430-458 | In place: state and result of the activation function; invariant kept |
| `AdmissionCoordinator.ConflictAdmissionCoordinator.Release` | NDNSF-DistributedInference/ndnsf_distributed_inference/core/conflict_coordination.py:460-472 | In place: state and result of the release function; invariant kept |
| `AdmissionCoordinator.ConflictAdmissionCoordinator.SetAvailable` | NDNSF-DistributedInference/ndnsf_distributed_inference/core/conflict_coordination.py:488-495 | In place: opens or closes admission, nothing else; invariant kept |
| `AdmissionCoordinator.ConflictAdmissionCoordinator.RotateAuthority` | NDNSF-DistributedInference/ndnsf_distributed_inference/core/conflict_coordination.py:497-507 | In place: state and refusal of the rotation function; invariant kept |
| `AuthorityNode.Accounting` | Experiments/NDNSF_DI_ConcurrentFaultBoundaries_Minindn.py:104-143 | In every run: requests = grants + rejections + answered release calls; releases = permits ended by a call less those whose call then failed; grants at least the distinct permits delivered |
| `AuthorityNode.UnreportedExactly` | NDNSF-DistributedInference/ndnsf_distributed_inference/core/conflict_coordination.py:460-472 | A release call ends a permit yet is answered with an error exactly when it names a live permit with a blank reason |
| `AuthorityNode.RetryGetsHeldPermit` | Experiments/NDNSF_DI_ConcurrentFaultBoundaries_Minindn.py:122-131 | A retry of a request that holds a live permit gets that permit and changes nothing |
| `AuthorityNode.AdmittedIsTheRequests` | Experiments/NDNSF_DI_ConcurrentFaultBoundaries_Minindn.py:122-139 | A permit delivered is live, is the asking request's, and is the only one that request has |
| `AuthorityNode.AcquireExactly` | Experiments/NDNSF_DI_ConcurrentFaultBoundaries_Minindn.py:117-143 | Exactly when an acquire call is answered with an error, with the permit held or now granted, or as queued, and what it leaves |
| `AuthorityNode.Handler.constructor` | Experiments/NDNSF_DI_ConcurrentFaultBoundaries_Minindn.py:88-96 | Coordinator and counters as the node starts with |
| `AuthorityNode.Handler.Handle` | Experiments/NDNSF_DI_ConcurrentFaultBoundaries_Minindn.py:104-143 | In place: counters, coordinator and reply of one call |
| `AuthorityNode.Handler.Acquiring` | Experiments/NDNSF_DI_ConcurrentFaultBoundaries_Minindn.py:118-139 | Submit, look for a live permit, grant, look again: the acquire branch |
| `ReservationLedger.RunKeeps` | NDNSF-DistributedInference/ndnsf_distributed_inference/core/deployment_control.py:885-1098 | In every run, whatever the clock: capacity, per-requester and per-service quotas hold, the ledger read back gives exactly what is held, and at no point of the ledger was the capacity exceeded |
| `ReservationAnswers.ReserveExactly` | NDNSF-DistributedInference/ndnsf_distributed_inference/core/deployment_control.py:938-963 | A reservation is had exactly by an authorized, complete ask whose request holds one still running or for which capacity, requester's and service's share have room after expiry; which error otherwise |
| `ReservationAnswers.ReservedExactly` | NDNSF-DistributedInference/ndnsf_distributed_inference/core/deployment_control.py:951-972 | A running one is handed out again unchanged; a new one is as asked for, within the book's lease, in its request's place, with one ledger event |
| `ReservationAnswers.CommitExactly` | NDNSF-DistributedInference/ndnsf_distributed_inference/core/deployment_control.py:1007-1016 | A commit goes through exactly for a tentative item still running, and commits it and nothing else |
| `ReservationAnswers.ReleaseExactly` | NDNSF-DistributedInference/ndnsf_distributed_inference/core/deployment_control.py:1018-1030 | A release ends exactly the request's live item |
| `ReservationAnswers.DecideExactly` | NDNSF-DistributedInference/ndnsf_distributed_inference/core/deployment_control.py:1139-1166 | Exactly which decisions are accepted, what the book and the memory of decisions are then, and that all others change nothing |
| `ReservationHistory.ConservedExactly` | NDNSF-DistributedInference/ndnsf_distributed_inference/core/deployment_control.py:938-972 | Acquisitions equal releases plus expiries plus live items in all runs if and only if capacity or the per-requester limit is one |
| `ReservationHistory.OverwriteUnbalanced` | NDNSF-DistributedInference/ndnsf_distributed_inference/core/deployment_control.py:938-972 | The input otherwise: reserving again over a committed reservation drops it from the books |
| `ReservationHistory.OwnershipInTurn` | NDNSF-DistributedInference/ndnsf_distributed_inference/core/deployment_control.py:1100-1129 | With capacity one the derived ownership intervals never overlap by sequence, in any run |
| `ReservationHistory.ShutdownEndsAll` | NDNSF-DistributedInference/ndnsf_distributed_inference/core/deployment_control.py:1092-1098 | A shutdown ends everything live and touches nothing else |
| `ReservationTime.HoldsDrain` | NDNSF-DistributedInference/ndnsf_distributed_inference/core/deployment_control.py:1032-1046 | From every state a monotone run reaches, expiry ends tentative holds within the tentative lease and all holds within the longer lease |
| `ReservationTime.HoldsBounded` | NDNSF-DistributedInference/ndnsf_distributed_inference/core/deployment_control.py:1007-1016 | In every run, whatever the clock, no live reservation lasts beyond the sum of both leases from its making |
| `ReservationTime.CellSettles` | Experiments/NDNSF_DI_ConcurrentFaultBoundaries_Minindn.py:651 | The 1.4 s settle time outlasts every tentative hold of a cell's provider, and 2500 ms every hold |
| `ReservationTime.FirstDecisionFinal` | NDNSF-DistributedInference/ndnsf_distributed_inference/core/deployment_control.py:1132-1166 | The first accepted decision on a reservation is final: later ones never touch the book, and only its exact repetition is answered |
| `ReservationTime.FirstReceiptTruthful` | NDNSF-DistributedInference/ndnsf_distributed_inference/core/deployment_control.py:1132-1166 | The receipt of a first decision tells the state of the book |
| `ReservationReceipts.ReceiptTruthfulExactly` | NDNSF-DistributedInference/ndnsf_distributed_inference/core/deployment_control.py:1139-1166 | In every run a receipt tells the state of the book if and only if its decision is the first on the request, or it selects and the request's last ledger event is its commit, or it refuses and that event is no acquisition or commit |
| `ReservationReceipts.RefusedForGood` | NDNSF-DistributedInference/ndnsf_distributed_inference/core/deployment_control.py:1148-1152 | A request once refused is never selected again at that boot, however often it is reserved afterwards |
| `ReservationReceipts.RepeatedRefusalMisleads` | NDNSF-DistributedInference/ndnsf_distributed_inference/core/deployment_control.py:957-972 | An input: refused, reserved again and refused once more, it is answered as released while the new reservation is live, and nothing can select that one |
| `ReservationTime.ReplayedReceiptMisleads` | NDNSF-DistributedInference/ndnsf_distributed_inference/core/deployment_control.py:1148-1152 | An input: a repeated selection is still answered as committed after the reservation has expired |
| `ReservationIntervals.InTurnExactlyWhenInOrder` | NDNSF-DistributedInference/ndnsf_distributed_inference/core/deployment_control.py:1018-1129 | With one unit, in every run, ownership intervals follow one another by time if and only if no operation that takes or gives up the device is stamped before an earlier one that did |
| `ReservationIntervals.InTurnByTimeExactly` | NDNSF-DistributedInference/ndnsf_distributed_inference/core/deployment_control.py:1100-1129 | The same read off the ledger: no acquisition, release or expiry is stamped earlier than the one before it |
| `ReservationIntervals.IntervalsExactly` | NDNSF-DistributedInference/ndnsf_distributed_inference/core/deployment_control.py:1100-1129 | Which intervals a ledger has: an event that gives up what its request holds closes the interval since that request last took it, no other event closes one, and one is open for each request that still holds |
| `ReservationIntervals.SteadyInTurnByTime` | NDNSF-DistributedInference/ndnsf_distributed_inference/core/deployment_control.py:1018-1046 | They do whenever one clock that does not run back stamps every operation, releases included |
| `ReservationIntervals.ZeroStampDisorders` | NDNSF-DistributedInference/ndnsf_distributed_inference/core/deployment_control.py:1018-1030 | The input for the other half: after a release stamped zero the later interval ends before the earlier one starts, and the earlier lies wholly between its stamps |
| `ReservationBook.AtomicReservationBook.constructor` | NDNSF-DistributedInference/ndnsf_distributed_inference/core/deployment_control.py:888-909 | An empty book with valid limits keeps the invariant |
| `ReservationBook.AtomicReservationBook.Reserve` | NDNSF-DistributedInference/ndnsf_distributed_inference/core/deployment_control.py:938-972 | In place: book and lease or error of the reservation function; invariant kept |
| `ReservationBook.AtomicReservationBook.Commit` | NDNSF-DistributedInference/ndnsf_distributed_inference/core/deployment_control.py:1007-1016 | In place: commit of a running tentative reservation, refused otherwise |
| `ReservationBook.AtomicReservationBook.Release` | NDNSF-DistributedInference/ndnsf_distributed_inference/core/deployment_control.py:1018-1030 | In place: ends a live item once |
| `ReservationBook.AtomicReservationBook.Expire` | NDNSF-DistributedInference/ndnsf_distributed_inference/core/deployment_control.py:1032-1046 | The expiry loop: exactly the due items end, one ledger event each, and the count is returned |
| `ReservationBook.AtomicReservationBook.Shutdown` | NDNSF-DistributedInference/ndnsf_distributed_inference/core/deployment_control.py:1092-1098 | Everything live is released and the count returned |
| `ReservationBook.AtomicReservationBook.LiveUnits` | NDNSF-DistributedInference/ndnsf_distributed_inference/core/deployment_control.py:1048-1050 | Live units after expiry, within capacity |
| `ReservationBook.AtomicReservationBook.OwnershipIntervals` | NDNSF-DistributedInference/ndnsf_distributed_inference/core/deployment_control.py:1100-1129 | The loop over the ledger computes the interval derivation |
| `RequesterLoop.Acquire` | Experiments/NDNSF_DI_ConcurrentFaultBoundaries_Minindn.py:255-281 | For every seed and answers: retries = attempts - 1, mappings = new + rejected, attempts = mappings + failures, each tally counts exactly the answers of its kind, stops at the first admission, and takes at most 5094 ms of the 7000 ms deadline when service timeouts are honoured |
| `RequesterLoop.Backoff` | Experiments/NDNSF_DI_ConcurrentFaultBoundaries_Minindn.py:281 | Each pause lies in 20..99 ms for every seed |
| `RequesterLoop.PausesTogether` | Experiments/NDNSF_DI_ConcurrentFaultBoundaries_Minindn.py:281 | Four consecutive pauses add up to at most 294 ms |
| `DataflowMeaning.MeaningPreserved` | NDNSF-DistributedInference/ndnsf_distributed_inference/adapters/onnx/executor.py:143-234 | For every plan with distinct reference keys whose feeds resolve, by name or by base name and numeric suffix, to the tensor they stand for, and every order that completes, each role has the tensors the undivided model computes, whatever else the bundles carry |
| `DataflowMeaning.CompletesExactlyWhenChecked` | NDNSF-DistributedInference/ndnsf_distributed_inference/adapters/onnx/executor.py:143-234 | A run completes exactly when a check that moves names and no tensors passes |
| `DataflowRun.ScheduleIndependence` | Experiments/NDNSF_DI_OnnxExecutor_Smoke.py:37-75 | Two topological orders complete alike, with the same outputs and the same payload behind every (scope, topic) |
| `DataflowRun.LegalOrderFollows` | NDNSF-DistributedInference/ndnsf_distributed_inference/adapters/onnx/executor.py:143-234 | Any legal order retraces, role by role, what a completed run computed |
| `DataflowRun.RunCompletes` | NDNSF-DistributedInference/ndnsf_distributed_inference/adapters/onnx/executor.py:174-195 | A completed run leaves one bundle per output edge under its key and every role settled against the final board |
| `DataflowRun.OutputsFrame` | NDNSF-DistributedInference/ndnsf_distributed_inference/adapters/onnx/executor.py:237-319 | What a role computes depends only on the bundles it waits on |
| `DataflowRole.MergeExactly` | NDNSF-DistributedInference/ndnsf_distributed_inference/adapters/onnx/executor.py:256-308 | Merging succeeds exactly when every link's bundle is there and answers for a declared tensor; each name then has the value of the last link whose bundle carries it, and otherwise the first bad link is named |
| `DataflowRole.LinksExactly` | NDNSF-DistributedInference/ndnsf_distributed_inference/adapters/onnx/executor.py:117-140 | The links are one for each producer of each input edge, in order, over the edge its scope selects; none exactly when some edge selects none |
| `DataflowRole.GatherExactly` | NDNSF-DistributedInference/ndnsf_distributed_inference/adapters/onnx/executor.py:237-319 | What a role gathers: the last bundle's value for each name, exactly when all links are good and every declared tensor is answered for |
| `DataflowRole.StepExactly` | NDNSF-DistributedInference/ndnsf_distributed_inference/adapters/onnx/executor.py:143-234 | One execution in elementary terms: what the chunk is fed, which names each bundle carries with which values, what is published when it stops half way, and each error |
| `DataflowRole.ResolveExactly` | NDNSF-DistributedInference/ndnsf_distributed_inference/adapters/onnx/executor.py:400-407 | A key answers for a name exactly when it is the name, or the name is absent and is the key with a dot and digits |
| `DataflowBoard.TokenIdentifiesPlainRole` | NDNSF-DistributedInference/ndnsf_distributed_inference/adapters/onnx/executor.py:60-61 | Plain role names have tokens of their own |
| `DataflowBoard.DashCollision` | NDNSF-DistributedInference/ndnsf_distributed_inference/adapters/onnx/executor.py:60-61 | A dash in a role name is enough for two roles to share a token |
| `FanInFanOut.BothOrdersCompute` | Experiments/NDNSF_DI_OnnxExecutor_Smoke.py:154-205 | The fan-out/fan-in graph meets every hypothesis; both branch orders complete alike with y = ((x+1)*3) + ((x*2)+5) for every x |
| `FanInFanOut.PlanIsFed` | Experiments/NDNSF_DI_OnnxExecutor_Smoke.py:161-182 | Each branch is fed by name although the fan-out bundle carries both tensors |
| `FanInFanOut.PlanIsLegal` | Experiments/NDNSF_DI_OnnxExecutor_Smoke.py:185-202 | Source, branches either way round, join: both are topological orders |
| `LargeObjectStore.NdnsfContext.constructor` | Experiments/NDNSF_DI_OnnxExecutor_Smoke.py:31-35 | Nothing published |
| `LargeObjectStore.NdnsfContext.PublishLarge` | Experiments/NDNSF_DI_OnnxExecutor_Smoke.py:37-42 | A fresh counter name: no large object is ever overwritten |
| `LargeObjectStore.NdnsfContext.Publish` | Experiments/NDNSF_DI_OnnxExecutor_Smoke.py:58-59 | A reference under (scope, topic) replaces an earlier one |
| `LargeObjectStore.NdnsfContext.PublishLargeReference` | Experiments/NDNSF_DI_OnnxExecutor_Smoke.py:44-56 | Publishes payload and reference: the key now leads to the payload, old objects stay |
| `LargeObjectStore.NdnsfContext.PrefetchLarge` | Experiments/NDNSF_DI_OnnxExecutor_Smoke.py:78-99 | Dereferences a key to what was published under it, or reports it missing |
| `LargeObjectStore.PlanEdge` | NDNSF-DistributedInference/ndnsf_distributed_inference/adapters/onnx/executor.py:126-139 | One prefetch per producer of the edge, or the error of the edge lookup |
| `LargeObjectStore.PlanPrefetches` | NDNSF-DistributedInference/ndnsf_distributed_inference/adapters/onnx/executor.py:117-140 | The prefetches of a role in plan order |
| `LargeObjectStore.PrefetchAll` | NDNSF-DistributedInference/ndnsf_distributed_inference/adapters/onnx/executor.py:117-140 | Each prefetch yields what its key leads to |
| `LargeObjectStore.MergeFutures` | NDNSF-DistributedInference/ndnsf_distributed_inference/adapters/onnx/executor.py:256-288 | Waiting in order and merging by tensor name: succeeds exactly when every link is good, a later bundle overwrites an earlier one, and the first bad link is the error |
| `LargeObjectStore.CollectInputs` | NDNSF-DistributedInference/ndnsf_distributed_inference/adapters/onnx/executor.py:237-319 | Collecting a role's inputs over its planned links: the last bundle's value for each name, or the error |
| `LargeObjectStore.PublishBundles` | NDNSF-DistributedInference/ndnsf_distributed_inference/adapters/onnx/executor.py:174-195 | The publication loop, stopping at an edge none of whose tensors exist |
| `LargeObjectStore.ExecuteRole` | NDNSF-DistributedInference/ndnsf_distributed_inference/adapters/onnx/executor.py:143-234 | One execution in place: board and result are those of the step function |
| `LargeObjectStore.RunPlan` | Experiments/NDNSF_DI_OnnxExecutor_Smoke.py:185-202 | Roles in sequence against one store: the run function |
| `LlmPipeline.ExecMeaning` | Experiments/NDNSF_DI_LlmPipeline_Smoke.py:130-171 | For every plan, malformed ones included, and every prefix of its roles: the loop goes on exactly when roles hand on and are fed, has returned exactly when one is fed and hands nothing on, and otherwise failed |
| `LlmPipeline.NamesAgreeExactly` | Experiments/NDNSF_DI_LlmPipeline_Smoke.py:62-64 | Within a session names are equal exactly when scope and mangled producer are, whatever slashes scopes contain |
| `LlmPipeline.NamesIdentifyPlainProducers` | Experiments/NDNSF_DI_LlmPipeline_Smoke.py:62-64 | With one leading slash, no trailing slash and no underscore, names identify (scope, producer) |
| `LlmPipeline.UnderscoreCollision` | Experiments/NDNSF_DI_LlmPipeline_Smoke.py:62-64 | /a/b and /a_b share a name |
| `LlmPipeline.PlannedDependencies` | Experiments/NDNSF_DI_LlmPipeline_Smoke.py:78-91 | Succeeds exactly on single-producer, single-consumer edges and keeps them in order |
| `LlmPipeline.Outgoing` | Experiments/NDNSF_DI_LlmPipeline_Smoke.py:138 | The edge kept for a producer is the last one listed for it; none exactly when it has none |
| `LlmPipeline.Incoming` | Experiments/NDNSF_DI_LlmPipeline_Smoke.py:139 | The edge kept for a consumer is the last one listed for it; none exactly when it has none |
| `LlmMeaning.InterpreterReturns` | Experiments/NDNSF_DI_LlmPipeline_Smoke.py:143-171 | Returns exactly when some role is fed, hands nothing on and follows roles that hand on; result, order and published = fetched = stored = k |
| `LlmMeaning.ExecutedAtMostOnce` | Experiments/NDNSF_DI_LlmPipeline_Smoke.py:143-171 | For every plan the executed roles are pairwise distinct and the last has no outgoing edge |
| `LlmMeaning.EveryRoleHandingOnNeverReturns` | Experiments/NDNSF_DI_LlmPipeline_Smoke.py:159-171 | A plan in which every listed role has an outgoing edge never returns |
| `LlmMeaning.DataflowEquations` | Experiments/NDNSF_DI_LlmPipeline_Smoke.py:143-163 | In a run that returns, each later role works on the value of its incoming edge's producer, which ran earlier and once, under the edge's scope |
| `LlmMeaning.ChainComposes` | Experiments/NDNSF_DI_LlmPipeline_Smoke.py:130-171 | A chain with edges in any order and multiplicity computes the left-to-right composition of all stages |
| `LlmMeaning.PipelineShapeIsChain` | NDNSF-DistributedInference/ndnsf_distributed_inference/llm_stub_planner.py:134-170 | What the pipeline planner emits is such a chain for every positive stage count |
| `LlmMeaning.PipelineShapeExactly` | NDNSF-DistributedInference/ndnsf_distributed_inference/llm_stub_planner.py:134-163 | The stages by number and the edge each hands its hidden state over, with the scope that names the two |
| `LlmMeaning.PlannedPipelineRuns` | Experiments/NDNSF_DI_LlmPipeline_Smoke.py:214-218 | The final checks: last stage gives the result, every stage runs exactly once, in order |
| `LlmMeaning.UnderscoreStopsChain` | Experiments/NDNSF_DI_LlmPipeline_Smoke.py:45-49 | A chain but for an underscore fails on a duplicate name |
| `LlmStore.InMemoryDependencyStore.constructor` | Experiments/NDNSF_DI_LlmPipeline_Smoke.py:40-43 | An empty store with zero counters |
| `LlmStore.InMemoryDependencyStore.Publish` | Experiments/NDNSF_DI_LlmPipeline_Smoke.py:45-49 | Names are write-once: a duplicate is refused and changes nothing |
| `LlmStore.InMemoryDependencyStore.Fetch` | Experiments/NDNSF_DI_LlmPipeline_Smoke.py:51-59 | Succeeds exactly for stored objects with scope and tensors; counts successes only |
| `LlmStore.EdgeMaps` | Experiments/NDNSF_DI_LlmPipeline_Smoke.py:138-139 | The two dictionaries keep the last edge listed |
| `LlmStore.ExecuteFakePipeline` | Experiments/NDNSF_DI_LlmPipeline_Smoke.py:130-171 | The loop with its store computes the interpreter function, for every service |
| `LayerPartition.RangesTile` | Experiments/NDNSF_DI_LlmPipeline_Smoke.py:122-123 | Ranges run from 0 to the layer count without gap or overlap and differ by at most one layer |
| `LayerPartition.EveryLayerHeldOnce` | Experiments/NDNSF_DI_LlmPipeline_Smoke.py:122-123 | Every layer is held by exactly one stage |
| `LayerPartition.NonEmptyExactlyWhenEnough` | Experiments/NDNSF_DI_LlmPipeline_Smoke.py:122-123 | Every stage is non-empty exactly when there are at least as many layers as stages |
| `LayerPartition.ValidatePipelineMetadata` | Experiments/NDNSF_DI_LlmPipeline_Smoke.py:94-127 | Accepts exactly the metadata whose header and every stage entry match the split |
| `LayerPartition.AcceptedMetadataCovers` | Experiments/NDNSF_DI_LlmPipeline_Smoke.py:108-127 | Accepted metadata with a layer count claims each layer for exactly one stage |
| `TieredStoreRefinement.RefinesAuthority` | NDNSF-DistributedRepo/README.md:549-555 | For every sequence of puts, overwrites, gets, deletes, failed transactions and restarts on manifests that read back unchanged, replies and rows are those of the authority alone |
| `TieredStoreRefinement.BudgetUnobservable` | NDNSF-DistributedRepo/README.md:577-579 | No budget, zero included, can be told from another by its replies |
| `TieredStoreRefinement.CacheBounded` | NDNSF-DistributedRepo/src/RepoTypes.cpp:557-595 | In every run used bytes are the sum of the cached charges, within the budget, and cached objects agree with their rows |
| `TieredStoreRefinement.GetAnswersExactly` | NDNSF-DistributedRepo/src/RepoTypes.cpp:450-470 | A get answers as the authority exactly when it misses or the cached manifest reads back unchanged |
| `TieredStoreRefinement.CanonicalExactly` | NDNSF-DistributedRepo/src/RepoTypes.cpp:651-701 | Which manifests read back unchanged after being written out |
| `TieredStoreRefinement.DecodedCanonical` | NDNSF-DistributedRepo/src/RepoProtocol.cpp:356-409 | What has been read back once reads back unchanged ever after |
| `TieredStoreCounters.CountersBalance` | NDNSF-DistributedRepo/README.md:582-587 | In every run, since the last restart: admissions = cached entries + evictions + invalidations, hits + misses = gets, misses = reads of the authority |
| `TieredStoreAnswers.WriteExactly` | NDNSF-DistributedRepo/src/RepoTypes.cpp:431-448 | A write goes through exactly for a named manifest that states its acknowledgements or has them follow, in a transaction that does not fail, and sets that row alone |
| `TieredStoreAnswers.ReadExactly` | NDNSF-DistributedRepo/src/RepoProtocol.cpp:356-409 | A row is read back exactly when replication and consistency have acknowledgements |
| `TieredStoreAnswers.AdmitExactly` | NDNSF-DistributedRepo/src/RepoTypes.cpp:557-595 | Exactly which objects are cached, at which charge, and which are only counted |
| `TieredStoreRefinement.EvictsOldestOnly` | NDNSF-DistributedRepo/src/RepoTypes.cpp:569-579 | Eviction drops a prefix of the recency list and not one entry more than it must |
| `TieredStoreRefinement.CacheHidesUnreadableRow` | NDNSF-DistributedRepo/src/RepoProtocol.cpp:384-392 | A write the authority cannot read back is served from the cache |
| `TieredStoreRefinement.RunKeeps` | NDNSF-DistributedRepo/src/RepoTypes.cpp:412-604 | The cache invariant over every run |
| `TieredRepoStore.TieredRepoStore.constructor` | NDNSF-DistributedRepo/src/RepoTypes.cpp:415-429 | An empty cache over an empty authority |
| `TieredRepoStore.TieredRepoStore.Invalidate` | NDNSF-DistributedRepo/src/RepoTypes.cpp:533-543 | Drops an entry and its charge |
| `TieredRepoStore.TieredRepoStore.Admit` | NDNSF-DistributedRepo/src/RepoTypes.cpp:557-595 | The eviction loop and insertion compute the admission function |
| `TieredRepoStore.TieredRepoStore.Put` | NDNSF-DistributedRepo/src/RepoTypes.cpp:431-448 | Authority first, then the cache; nothing is cached when the transaction fails |
| `TieredRepoStore.TieredRepoStore.Get` | NDNSF-DistributedRepo/src/RepoTypes.cpp:450-470 | Cache, then authority and admission |
| `TieredRepoStore.TieredRepoStore.Erase` | NDNSF-DistributedRepo/src/RepoTypes.cpp:477-486 | The entry is dropped only after the authority removed the row |
| `TieredRepoStore.AgreesExactly` | NDNSF-DistributedRepo/src/RepoCore.cpp:179-184 | For each run of overlapping reads and writes: the cache agrees with its authority throughout if and only if every admission, overtaken or not, is of an object that is not cached or that the authority still holds |
| `TieredRepoStore.OvertakenRunServesStale` | NDNSF-DistributedRepo/src/RepoTypes.cpp:450-470 | An input that fails it, from an idle store: a read misses, a write to the name overtakes it, and its admission leaves the object as it was before the write to be served |
| `TieredRepoStore.MakesExactly` | NDNSF-DistributedRepo/src/RepoCore.cpp:179-184 | What each move of an overlap does to the store, the pending reads and the count of writes by name |
| `TieredRepoStore.OverlapsAgree` | NDNSF-DistributedRepo/src/RepoCore.cpp:179-184 | The cache stays in agreement, move after move, as long as no admission has been overtaken |
| `TieredRepoStore.OvertakenIsServed` | NDNSF-DistributedRepo/src/RepoTypes.cpp:450-470 | An admission that fits is served next, and keeps the agreement exactly when the authority still holds that object |
| `PacketStore.WireChangesExactly` | NDNSF-DistributedRepo/README.md:597-604 | Along a run from a state that stores a name, the next operation can leave it with another wire if and only if some state of the run no longer references it, given another wire that encodes the name |
| `PacketStore.DroppedNameReturns` | NDNSF-DistributedRepo/pythonWrapper/py_repoclient/orchestration.py:2861-2867 | The input: stored, dropped and stored again, a name has the new wire |
| `PacketStore.PersistExactly` | NDNSF-DistributedRepo/pythonWrapper/py_repoclient/orchestration.py:2707-2775 | A set is stored exactly when it is not empty, each wire encodes its name and segment, names and segments are distinct, all of one version, no stored name comes with another wire, and there is room; which error otherwise |
| `PacketStore.HeldWireNeverChanges` | NDNSF-DistributedRepo/README.md:597-604 | A wire never changes under its name while any object references it |
| `PacketStore.PersistAgain` | NDNSF-DistributedRepo/pythonWrapper/py_repoclient/orchestration.py:2832-2848 | Persisting the same set again changes nothing |
| `PacketStore.LoadsWhatWasStored` | NDNSF-DistributedRepo/pythonWrapper/py_repoclient/orchestration.py:2738-2743 | What is loaded is what was stored, in segment order |
| `PacketStore.OthersUnaffected` | NDNSF-DistributedRepo/pythonWrapper/py_repoclient/orchestration.py:2861-2867 | Storing or dropping one object leaves every other object's packets, shared ones included |
| `PacketStore.RunKeeps` | NDNSF-DistributedRepo/pythonWrapper/py_repoclient/orchestration.py:2704-2870 | In every run exactly the referenced packets are stored, each under the name its wire encodes |
| `PacketStore.BySegmentAscending` | NDNSF-DistributedRepo/pythonWrapper/py_repoclient/orchestration.py:2738 | The stored order is the same packets by segment number |
| `PacketStore.FetchSignedPackets` | NDNSF-DistributedRepo/pythonWrapper/py_repoclient/orchestration.py:6108-6177 | Succeeds exactly when some replica serves the whole set; all packets come in order from the first such replica |
| `PacketStore.StoredSetIsServed` | NDNSF-DistributedRepo/README.md:632-645 | A replica that stored the object serves its whole set with the stored wires |
| `PacketVisibility.ReadableOwnedExactly` | NDNSF-DistributedRepo/pythonWrapper/py_repoclient/orchestration.py:3030-3058 | In every run the packets that a fetch by exact name makes readable belong to finalized objects if and only if no staged object has a packet of that version to itself; the packet asked for always does |
| `PacketVisibility.PreparesExactly` | NDNSF-DistributedRepo/pythonWrapper/py_repoclient/orchestration.py:5124-5140 | A fetch by exact name goes through exactly for a finalized object's packet with a segment component when all stored under its version is of that version, and makes all of that readable |
| `PacketVisibility.StagedSegmentReadable` | NDNSF-DistributedRepo/pythonWrapper/py_repoclient/orchestration.py:5124-5140 | The input: a staged object's segment is read with a version that another object has finalized |
| `CatalogMerge.GlobalCatalog.Upsert` | NDNSF-DistributedRepo/pythonWrapper/py_repoclient/orchestration.py:3369-3407 | In place: one source's entry meets the incoming one; nothing else changes |
| `CatalogMerge.HeldAfterExactly` | NDNSF-DistributedRepo/pythonWrapper/py_repoclient/orchestration.py:3385-3407 | Which of the held and the arriving entry is held afterwards, in boots, sequences, stamps and states |
| `CatalogMerge.NewBootIsHeld` | NDNSF-DistributedRepo/pythonWrapper/py_repoclient/orchestration.py:3399-3407 | Across boots the arriving entry is held exactly unless it is available and a tombstone no older is held |
| `CatalogMerge.NewBootTakesOver` | NDNSF-DistributedRepo/pythonWrapper/py_repoclient/orchestration.py:3399-3407 | After a restart whatever is held but a tombstone gives way to the new boot, however low its sequence and stamp, and then its latest entry is held |
| `CatalogMerge.ConvergesExactly` | NDNSF-DistributedRepo/pythonWrapper/py_repoclient/orchestration.py:3388-3407 | Merging a set of deltas is independent of order and repetition if and only if every two agree on a winner and no three form a circle |
| `CatalogMerge.SteadyBootConverges` | NDNSF-DistributedRepo/README.md:750-755 | Deltas of one boot whose later ones are stamped later converge to the latest |
| `CatalogMerge.TwoBootsDisagree` | NDNSF-DistributedRepo/pythonWrapper/py_repoclient/orchestration.py:3399-3407 | Two boots' available entries end by order of arrival |
| `CatalogMerge.StagedCircle` | NDNSF-DistributedRepo/pythonWrapper/py_repoclient/orchestration.py:3388-3406 | A staged entry between a tombstone and an available entry of one instant makes a circle |
| `CatalogMerge.ConvergesUntangled` | NDNSF-DistributedRepo/pythonWrapper/py_repoclient/orchestration.py:3388-3407 | The same in terms of boots, sequences, stamps and states: no two without a common winner, no tombstone, third and available entry of one boot tangled |
| `CatalogMerge.AgreeExactly` | NDNSF-DistributedRepo/pythonWrapper/py_repoclient/orchestration.py:3388-3406 | Two entries have one winner exactly when equal, or a tombstone meets an available entry of its boot or no newer, or they share a boot and differ in sequence or stamp |
| `CatalogMerge.CircleExactly` | NDNSF-DistributedRepo/pythonWrapper/py_repoclient/orchestration.py:3388-3406 | Where every two agree the only circles are such tangles |
| `CatalogMerge.TombstoneStands` | NDNSF-DistributedRepo/README.md:178-182 | Once a tombstone is held, one no older is held after any arrivals, from any boots, of available entries no newer and tombstones no older |
| `CatalogMerge.TombstoneStandsExactly` | NDNSF-DistributedRepo/pythonWrapper/py_repoclient/orchestration.py:3388-3407 | Of all sets of arriving entries, exactly those that hold nothing else leave every tombstone standing |
| `CatalogMerge.OlderTombstoneLetsAvailableIn` | NDNSF-DistributedRepo/pythonWrapper/py_repoclient/orchestration.py:3399-3407 | An older tombstone of another boot replaces a newer one and lets an available entry between the two stamps back in |
| `CatalogMerge.StagedLetsOlderBackIn` | NDNSF-DistributedRepo/pythonWrapper/py_repoclient/orchestration.py:3395-3407 | A staged entry in between lets an older available entry back in |
| `CatalogSummary.ConflictExactly` | NDNSF-DistributedRepo/README.md:752-754 | CONFLICT exactly when two live entries of the newest generation name different digests, and then no repair is planned |
| `CatalogSummary.LiveExactly` | NDNSF-DistributedRepo/pythonWrapper/py_repoclient/orchestration.py:3541-3572 | A row counts as live exactly when available, fresh, within its time to live, and newer than every stamped tombstone |
| `CatalogSummary.NoneLiveExactly` | NDNSF-DistributedRepo/pythonWrapper/py_repoclient/orchestration.py:3730-3734 | What is reported and how much is missing when no row is live |
| `CatalogSummary.SomeLiveExactly` | NDNSF-DistributedRepo/pythonWrapper/py_repoclient/orchestration.py:3646-3663 | What is reported, how much is missing and which repairs are planned when some row is live |
| `CatalogSummary.MinRequired` | NDNSF-DistributedRepo/pythonWrapper/py_repoclient/orchestration.py:3594-3603 | At least every row's factor, and one or one of them |
| `CatalogSummary.DeletedExactly` | NDNSF-DistributedRepo/pythonWrapper/py_repoclient/orchestration.py:3589-3593 | DELETED exactly when there is a tombstone and no live replica |
| `CatalogSummary.OlderAvailableCannotRevive` | NDNSF-DistributedRepo/README.md:178-182 | Available entries no newer than a tombstone cannot bring an object back |
| `CatalogSummary.RepairsFromLive` | NDNSF-DistributedRepo/pythonWrapper/py_repoclient/orchestration.py:3636-3663 | Repairs copy from a live replica to repositories that hold nothing, at most as many as are missing |
| `CatalogSummary.AvailableExactly` | NDNSF-DistributedRepo/pythonWrapper/py_repoclient/orchestration.py:3730-3734 | AVAILABLE exactly when the live rows of the newest generation agree, and the live rows of whatever generations are as many as any row requires, or no row allows repair and one is live or nothing explains why none is |
| `CatalogSummary.AvailableWithNoneLive` | NDNSF-DistributedRepo/pythonWrapper/py_repoclient/orchestration.py:3730-3734 | AVAILABLE with no candidate exactly when no row counts as live, none is a tombstone, expired or freshly staged, and none allows repair |
| `CatalogSummary.AvailableMeansEnough` | NDNSF-DistributedRepo/pythonWrapper/py_repoclient/orchestration.py:3646-3649 | Where some row allows repair AVAILABLE means as many live rows, of whatever generations, as required; where none does one live row is enough |
| `CatalogSummary.AvailableMeansNewestExactly` | NDNSF-DistributedRepo/pythonWrapper/py_repoclient/orchestration.py:3578-3649 | AVAILABLE means as many live rows of the newest content as required if and only if the newest generation is in conflict, no more live rows are outdated than there are to spare, or too few are live for the verdict |
| `CatalogSummary.TwoContentsAvailable` | NDNSF-DistributedRepo/pythonWrapper/py_repoclient/orchestration.py:3646-3649 | The input: two live rows of different generations and contents make an object that requires two available |
| `CatalogSummary.RepairsNewestExactly` | NDNSF-DistributedRepo/pythonWrapper/py_repoclient/orchestration.py:3650-3663 | A planned repair copies the newest content if and only if the first live row is of the newest generation or holds its content |
| `CatalogSummary.OlderContentRepaired` | NDNSF-DistributedRepo/pythonWrapper/py_repoclient/orchestration.py:3650-3663 | The input: with the older row first, repair copies the older content |
| `CatalogSummary.RepairDisabledLooksAvailable` | NDNSF-DistributedRepo/pythonWrapper/py_repoclient/orchestration.py:3730-3734 | The input: one stale row of an object that may not be repaired |
| `QuorumWrite.ValidateWriteReceipts` | NDNSF-DistributedRepo/pythonWrapper/py_repoclient/orchestration.py:521-545 | Succeeds exactly when the receipts are the write's own, uncontradicted, from selected repositories, and enough; gives one per repository |
| `QuorumWrite.QuorumVisibility` | NDNSF-DistributedRepo/README.md:849-852 | In every run of staging, finalizing, pulling, serving, erasing and forgetting whose requests obey the policy, whatever is readable, listed or a repair source has the name and digest of a write with at least its required receipts |
| `QuorumWrite.StoresExactly` | NDNSF-DistributedRepo/pythonWrapper/py_repoclient/orchestration.py:2390-2446 | A write is stored exactly when stated in full, its operation unused, it fits, the object is at the generation it expects and it is the next; rows and receipts otherwise stay as they were |
| `QuorumWrite.OnePerGeneration` | NDNSF-DistributedRepo/pythonWrapper/py_repoclient/orchestration.py:2427-2446 | In every run a write that expects a generation finds the object there and leaves it one higher, and no second with that expectation is stored at that repository unless the object was erased or stored without expectation in between |
| `QuorumWrite.FinalizesExactly` | NDNSF-DistributedRepo/pythonWrapper/py_repoclient/orchestration.py:2310-2365 | A finalization goes through exactly on uncontradicted receipts of the stored write, from selected repositories, its own among them, as many as asked for, and changes that row alone |
| `QuorumWrite.QuorumVisibilityExactly` | NDNSF-DistributedRepo/pythonWrapper/py_repoclient/orchestration.py:2310-2346 | A policy for requesters ensures that over all runs if and only if it has three parts: a finalize request asks for no fewer receipts than the write was staged with, presents only receipts that were issued, and a publisher's authorized pull copies what some repository served |
| `QuorumWrite.LoweredFinalizeShows` | NDNSF-DistributedRepo/pythonWrapper/py_repoclient/orchestration.py:2317-2346 | For every write and every smaller count: the count of the finalizing request is what is enforced, so that many receipts make the write readable |
| `QuorumWrite.ForgedReceiptShows` | NDNSF-DistributedRepo/pythonWrapper/py_repoclient/orchestration.py:2310-2320 | A receipt that no repository issued counts like any other |
| `QuorumWrite.OwnPullShows` | NDNSF-DistributedRepo/pythonWrapper/py_repoclient/orchestration.py:4988-5000 | A publisher's pull that carries a repair authorization is readable on one receipt, however many its intent asks for |
| `QuorumWrite.RepairKeepsContent` | NDNSF-DistributedRepo/pythonWrapper/py_repoclient/orchestration.py:7380-7440 | A repaired copy is readable under an operation of its own, at generation zero and with one receipt, and its content is still that of a write that reached its count |
| `QuorumWrite.BelowQuorumNeverVisible` | NDNSF-DistributedRepo/README.md:849-852 | Under that policy, content whose every write is below its count when a run ends was at no time of the run readable, listed or a repair source anywhere |
| `QuorumWrite.QuorumsMeet` | NDNSF-DistributedRepo/src/RepoTypes.cpp:120-135 | Two quorums of one replica set share a repository |

## Left out

- Cryptography: signatures are unforgeable tags, digests stand for the values they are taken of, and a permit or reservation number is unique per submission or request.
- Transport, processes and files: MiniNDN, NFD, SVS, NAC-ABE, JSON text, paths, status snapshots and logging; messages and payloads are values.
- Fairness, starvation freedom and measured performance, which the documents disclaim or only measure.
- Locks: each coordinator, book and catalog operation is one atomic step, as its lock makes it; only the tiered store's unlocked fetch is split into its two halves.
- Clocks and timeouts are parameters: the time of each operation, the duration of each service call, and whether an entry is stale.
- Event logs of the coordinator with their hash chain, its snapshot and restore, and the reservation journal: a restart under the same boot keeps the book and expires it, under another boot it starts empty.
- Validation inside the constructors of keys, declarations and epochs (blank text fields); requests are checked by `Admission.WellFormed`, and blank means ASCII white space.
- The permit gate's separate error messages: a gate that fails for any reason leaves the book untouched.
- `ConflictCellOnce.ExecutedAtMostOncePerReservation`: that a selection finds and erases its pending request in one step is taken from the native provider, whose token and in-flight bookkeeping is not modelled.
- What runs inside the native provider between a selection and an execution, beyond taking a waiting request once and asking the decision authority first.
- The in-memory list of reservation release counters by reason, which the ledger's events determine.
- ONNX and floating point: chunks are arbitrary functions on tensors by name; the npz encoding and the cast to float32 are the identity, and planned data names are not used.
- LLM stages: a stage is an arbitrary function of role, position and input; the JSON it builds is not modelled.
- Manifest text: writing out and reading back is modelled field by field, including the defaults both fill in, but not the scanning of JSON text and its escapes.
- Packet store capacity: whether a set fits is a parameter.
- Stored writes: payloads and packets are not modelled beside their digests, and whether a write fits is a parameter; catalog entries that say a repository has an object are that repository's own.
- Catalog entries beyond the fields the merge and the summary compare; membership heartbeats, watermarks, anti-entropy, repair job leases and retries.
- `AdmissionCoordinator.ConflictAdmissionCoordinator.GrantNext`: the queue is replaced once after the pass instead of entry by entry, which nothing can observe under the lock.
- `TieredRepoStore.OverlapsAgree`: writes are whole steps among the overlapping reads, as the node's own lock serializes them, and a put's cache update is not separated from its transaction.
- GUI launchers, llama-server, acoustic and comparison smokes, UAV, streaming and service containers: external or easy, and they would add only easy members.
- `AdmissionWindows.StaysApartExactly`: a queued request that shares a device with a permit ended by a call without clashing with it is excluded: granted first, for as short as a millisecond, it may or may not outlast the window, depending on the whole queue. That sealed windows stay apart is proved without this (`SealedStaysApart`).
