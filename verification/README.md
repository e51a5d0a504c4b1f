# Safety protocols of the Tart Cluster API provider, in Dafny

This project models the protocols by which the provider changes a running Kubernetes cluster without losing access,
quorum, data or a Host, and proves what they keep over whole runs. The controllers store no program counter: every
reconcile decides from what it observes, so a crash, a lost answer or a stale read can separate any two steps. The
models therefore put reboots, deletions, other controllers, failed calls and calls that took effect without an answer
between remote calls, and the theorems range over all such runs; "Left out" names the stretches that are not
interleaved.

Code that only computes is modelled by functions. Code that changes state is modelled by classes and by methods with
the source's loops, proved against those functions or against the steps of a state machine whose runs the lemmas are
about.

| area | files |
|---|---|
| CA rotation | `Certificates`, `TrustStage`, `TalosConfig`, `TrustLaws`, `RotationProtocol`, `RotationProgress`, `RotationReconciler` |
| promotion of a rotated bundle | `Promotion`, `PromotionLaws` |
| etcd membership, scale-down, restarts | `Quorum`, `EtcdMembership`, `ScaleDown`, `UpgradeGate` |
| Host claims | `HostClaims`, `HostRepository`, `HostSelection`, `DiskSelector` |
| in-place update planner | `JsonPath`, `SpecPatch`, `JsonHeap` |
| lease and ordered rollout | `UpgradeLease`, `Names`, `EndpointRollout`, `EndpointFleet`, `EndpointEscape` |
| configuration updates of a running node | `StorageChange`, `ChangeClassification`, `ConfigurationUpdate` |
| shared | `Wrappers`, `FiniteSets` |

`dafny verify dfyconfig.toml` checks all of it.

## Main results

- **Rotation never splits the cluster.** In every run from an all-Stable start, any two nodes that are not being deleted
  are at the same or adjacent stages and each trusts what the other issues with, exactly one of the two bundles can log
  in to each node, and promotion is reached only when every one of them is Rotated (`RunsAreSafe`). No step adds work;
  three undisturbed reconciles, with their reboots, finish, whatever lies between them (`ThreeUndisturbedCallsSuffice`),
  and a promoted state starts the next rotation (`PromotionStartsTheNextRotation`). The controller written out call by
  call only takes steps of that machine (`Reconciler.ReconcileTrust`, `HistoryIsSafe`).
- **Promotion can always be finished.** After the status write and any series of interrupted calls of the recovery, one
  uninterrupted call of it reaches the goal (`RecoveryAlwaysReachesTheGoal`; which reconciles make that call is in the
  next section). Some generation is Active at every moment, and labels only move forward.
- **A controller cannot excuse itself.** Which calls are answered is fixed beforehand, in every class that makes calls; what a
  call leaves undone has to be explained by an unanswered call or by a step of somebody else.
- **Etcd counts are a bijection.** The removal gate opens exactly when Machines and voting members correspond one to one
  and the healthy ones are a majority before and after (`RemovalGateMeaning`); a whole scale-down keeps overlapping
  majorities (`ScaleDownKeepsQuorum`).
- **Claims are atomic guarded steps** under any interleaving (`ClaimHostWithRequest`, `RetainHost`, `LogIsAHistory`), so
  a Host passes from one consumer to another only through the first one's own retention.
- **The planner accepts exactly** the specs that agree off the allowed paths and whose objects above them fit
  (`AcceptanceIsExact`), and the version on mutable maps computes the same and leaves both specs untouched.
- **The endpoint moves in order**: unless an update escapes the gate, updated control planes are a prefix in name order, at
  most one in flight, workers last. The starts whose runs have no escapes are characterised (`StartHasNoEscapeIff`, with
  `SafeStartHasNoEscape` as a check of what is staged), and so is what escapes (`GateIsSkippedIff`); with escapes the
  order is kept exactly when none of them runs ahead (`OrderIsKeptIff`).
- **At most one replica upgrades Kubernetes** as long as renewals come in time, over the history that the lease calls of
  all replicas really make (`RunUpgradeSection`, `AtMostOneReplicaRuns`).
- **What any number of accepted storage changes can do is characterised exactly** (`ReachableIffKept`).

## Where the code does less than its purpose suggests

- A promotion to generation 2147483647 that is interrupted is never recovered: computing the next generation fails
  first. `RotationReconcileRecoversIff` shows this is the only such target.
- The comment in `controller/tartcontrolplane/carotation.go:181` says that a promotion stopped after its status write is finished later,
  but for the whole control-plane reconcile that is not so: between the status write and the target's label write it stops at its
  active-bundle check (`controller/tartcontrolplane/reconciler.go:164`). `ControlPlaneReconcileRecoversIff` gives the
  exact condition; the model follows the code.
- A retention leaves the Host reusable at once when an approval for the current consumer had been written beforehand
  (`RetentionOutcome`, in both directions).
- A volume's minimum size and a logical volume's byte maximum are compared only when both sides state them, so a
  shrinkage refused in one update passes in two (`BoundsRefusedInOneStepPassInTwo`).
- A staged configuration that takes effect between the observation and the write of an update is not judged:
  `LateBootLosesAVolumeGroup` is such a run. What the node had at the start of a run is kept in every case
  (`StartIsPreserved`); every moment is kept exactly when each write preserves what is then active
  (`EveryMomentIsPreservedIff`), which a read guarantees exactly when what is staged at that time is preserved in what is
  active (`ReadIsSafeIff`), in particular when nothing is staged.
- The endpoint gate and its lease can be escaped. Both are decided by the class of a first read
  (`controller/tartmachine/configuration_update.go:80-111`), and a class that refuses the change does not end the
  reconcile; the update reads and classifies again. If the first class was ReprovisionRequired or InvariantConflict and
  the second is ControlPlaneEndpoint, the new endpoint is applied without gate or lease. Besides reads that saw the new
  endpoint active, that is the only way past the gate (`GateIsSkippedIff`, `UpdateIsEnabledIff`). It takes a boot into a
  staged configuration between the reads: `EscapedUpdateRunsAhead` turns any such configurations into a run that loses the
  order, and `SomeConfigurationsEscape` names some. As far as storage decides, no such update exists exactly when
  what is staged restates the size bounds of what is active (`NothingFitsOnlyTheStagedIff`).
- The endpoint gate combines a readiness from the listing with a later report of the provider object, so the two need
  not have held together. The ordering theorems therefore need only the report to be stable.
- A control plane reads as Rotated after its finalizing update exactly when the library's strategic merge left its API
  and aggregator authorities trusting the pending certificate alone (`FinalizedStageIff`). Otherwise, for instance with
  a merge that appends (`AppendingMergeNeverFinalizes`), its authorities disagree: it reads as Unknown, and from then on
  the observation of the whole rotation stops at it.
- For a read-only disk, a unique selector names another disk, for instance its writable twin (`ReadOnlyDiskCanNameItsTwin`).

## Model

| member | source | states |
|---|---|---|
| TrustStage.CaStageMeaning | domain/controlplane/rotation.go:79-100 | A known stage is reported if and only if the issuer is that stage's generation and the trusted set is that stage's set |
| TrustStage.WorkerCaStageMeaning | domain/controlplane/rotation.go:60-76 | The accepted set alone decides a worker's stage, both ways; a worker never shows Cutover by itself |
| TalosConfig.SetMachineCertificateAuthority | adapter/talos/configmutate.go:140-178 | Fails only without an issuer; afterwards exactly the issuer and the accepted authorities are trusted and everything else is unchanged |
| TalosConfig.SetKubernetesAPICertificateAuthority | adapter/talos/configmutate.go:181-218 | On both roles the API authority trusts exactly the issuer and the accepted ones, a control plane issues with the given key, and nothing else changes; it fails only without an issuer, on a worker without the authority, or for the library |
| TalosConfig.SetKubernetesAggregatorCertificateAuthority | adapter/talos/configmutate.go:268-305 | Control planes trust exactly the given aggregator authorities and issue with the given key; workers are returned unchanged |
| TalosConfig.SetWorkerKubernetesAPICertificateAuthority | adapter/talos/configmutate.go:220-256 | After the delete and add loops the accepted set equals issuing ∪ accepted |
| TalosConfig.CollectCertificates | adapter/talos/configmutate.go:197-202 | The patch lists the certificates of the non-nil arguments and no nil entry |
| TrustLaws.SetThenObserve | controller/tartcontrolplane/carotation.go:295-308 | Setting the trust of any stage and observing the result gives that stage back, for control planes and workers |
| TrustLaws.StageTrustSets | adapter/talos/certbuilder/bundle.go:127-161 | The issuing and trusted sets behind every known stage of a whole configuration |
| TrustLaws.MutualTrustIffAdjacent | domain/controlplane/rotation.go:10-33 | Two nodes accept each other's certificates if and only if their stages are equal or adjacent |
| TrustLaws.ExactlyOneBundleAuthenticates | controller/tartcontrolplane/carotation.go:246-257 | In every stage exactly one bundle can log in, and the dial finds it and names the issuing generation |
| TrustLaws.RotatedIsStableForTheNextRotation | domain/controlplane/rotation.go:35-44 | The end of one rotation is the start of the next |
| TrustLaws.FinalizedStageIff | controller/tartcontrolplane/carotation.go:319-345 | Whatever the merge does, a finalized control plane is Rotated if and only if both merged authorities trust the pending certificate alone, and Unknown otherwise |
| TrustLaws.AppendingMergeNeverFinalizes | controller/tartcontrolplane/carotation.go:319-345 | With an appending merge, finalizing a control plane at Cutover makes it Unknown, since the machine authority is assigned and the other two keep the old certificate |
| RotationProtocol.MinimumIsALevel | controller/tartcontrolplane/carotation.go:192-200 | The smallest observed stage is a level all remaining nodes are within one stage of, stale observations included |
| RotationProtocol.StepKeepsWithinLevel | controller/tartcontrolplane/carotation.go:132-164 | Every step of controller, nodes and crashes keeps the nodes within one stage of a level that never falls |
| RotationProtocol.RunStaysWithinLevel | controller/tartcontrolplane/carotation.go:76-175 | Every state a run reaches is within one stage of some level |
| RotationProtocol.WithinLevelIsSafe | controller/tartcontrolplane/carotation.go:246-257 | Within a level all pairs trust each other and each node is reachable with exactly one bundle |
| RotationProtocol.RunsAreSafe | controller/tartcontrolplane/carotation.go:76-175 | Safety at every moment of every run, and promotion only when every remaining node is Rotated |
| RotationProtocol.PromotionStartsTheNextRotation | controller/tartcontrolplane/carotation.go:165-169 | A promoted state of a run meets the start condition of the rotation to any next generation |
| RotationProgress.StepKeepsFloor | controller/tartcontrolplane/carotation.go:282-355 | No step takes a node, its staged configuration or a remembered stage below an earlier stage |
| RotationProgress.StepKeepsPassProgress | controller/tartcontrolplane/carotation.go:140-164 | Every node a pass has dealt with is committed beyond the pass's minimum |
| RotationProgress.StepKeepsAhead | controller/tartcontrolplane/carotation.go:140-164 | What a finished pass achieved is kept by all later steps |
| RotationProgress.CompletedPassRaisesTheLowestStage | controller/tartcontrolplane/carotation.go:132-169 | A fault-free pass whose reboots have happened raises the lowest remaining stage by one |
| RotationProgress.ThreePassesSuffice | controller/tartcontrolplane/carotation.go:132-169 | From all-Stable three such passes make every remaining node Rotated |
| RotationProgress.UndisturbedCallRaisesTheLowestStage | controller/tartcontrolplane/carotation.go:132-169 | What an undisturbed reconcile leaves behind raises the lowest remaining stage once its reboots have happened, also when it promoted or found no Machine |
| RotationProgress.ThreeUndisturbedCallsSuffice | controller/tartcontrolplane/carotation.go:132-169 | Three undisturbed reconciles with their reboots make every remaining node Rotated, with any disturbed ones between them |
| RotationProgress.StepNeverAddsWork | controller/tartcontrolplane/carotation.go:132-169 | The sum of the stages still to go never increases, per node and in total |
| RotationProgress.CompletedPassReducesWork | controller/tartcontrolplane/carotation.go:132-169 | A completed pass strictly reduces it |
| RotationReconciler.MinimumStage | controller/tartcontrolplane/carotation.go:192-200 | The loop returns an observed stage that no observed stage is below |
| RotationReconciler.AdvancedConfiguration | controller/tartcontrolplane/carotation.go:282-316 | What is staged is exactly the next configuration of the protocol, for advance and cutover |
| RotationReconciler.FinalizedConfiguration | controller/tartcontrolplane/carotation.go:319-345 | What is staged last trusts the pending generation alone |
| RotationReconciler.Reconciler.ObserveNodes | controller/tartcontrolplane/carotation.go:42-72 | Observes every listed node through protocol steps; it stops early only after an unanswered call, a change of a node it still had to deal with, or a library error, all of which are outside the controller |
| RotationReconciler.Reconciler.AdvanceNode | controller/tartcontrolplane/carotation.go:282-316 | Fetch, compute, stage and a reboot request for this node, whatever happens in between; success means every call was answered, failure takes one of the same excuses |
| RotationReconciler.Reconciler.AdvanceNodes | controller/tartcontrolplane/carotation.go:140-164 | Exactly the nodes seen at the minimum are staged and asked to reboot, in order, and the pass is finished, unless one of the same excuses ends it |
| RotationReconciler.Reconciler.StageConfiguration | controller/tartcontrolplane/carotation.go:348-355 | The staged apply of the next configuration is the only change to any node and one step of the protocol, answered or not |
| RotationReconciler.UndisturbedIsAsSeen | controller/tartcontrolplane/carotation.go:132-164 | As long as nothing disturbs a pass, every node it still has to deal with is as it was when it was observed |
| RotationReconciler.Reconciler.ReconcileTrust | controller/tartcontrolplane/carotation.go:132-175 | One reconcile refines the protocol and says which stage it worked on, and that every node seen at it was asked to reboot. If every call is answered, no node it still had to deal with reboots or starts deleting, and the library makes no error, it completes its pass or promotes, unless no Machine remains, which is what `ThreeUndisturbedCallsSuffice` needs of it; an unanswered call never counts as success |
| RotationReconciler.HistoryIsSafe | controller/tartcontrolplane/carotation.go:76-175 | Every moment of the controller's history is safe |
| Promotion.BundleStore.PromoteCARotation | controller/tartcontrolplane/carotation.go:358-395 | Whatever fails, the writes made are a prefix of status, target Active, old Retired; an unanswered call is the API error and nothing else is; a target that is missing, breaks its contract, or is neither Pending nor Active is refused without a write |
| Promotion.BundleStore.RecoverCARotationPromotion | controller/tartcontrolplane/carotation.go:398-424 | The same for the recovery, with the same refusals |
| Promotion.BundleStore.DemoteCARotationSecret | controller/tartcontrolplane/carotation.go:433-458 | Retires an Active generation whose contract holds, and that alone; a missing, Pending or Retired one is left alone without an error |
| Promotion.TargetErrorMeaning | controller/tartcontrolplane/carotation.go:363-374 | The target passes if and only if its Secret exists, keeps its contract and is Pending or Active; each error if and only if its condition holds |
| PromotionLaws.EveryWriteMovesForward | controller/tartcontrolplane/carotation.go:358-458 | On every store each label write is Pending to Active or Active to Retired, and the status write comes first |
| PromotionLaws.SomeGenerationStaysActive | controller/tartcontrolplane/carotation.go:358-458 | If a generation is Active before, one is Active after every single write |
| PromotionLaws.UninterruptedPromotion | controller/tartcontrolplane/carotation.go:358-395 | Without interruption the store reaches: status target, target Active, previous Retired |
| PromotionLaws.RecoveryStep | controller/tartcontrolplane/carotation.go:398-424 | A recovery interrupted anywhere leaves a recoverable store; uninterrupted it reaches the goal |
| PromotionLaws.RecoveryAlwaysReachesTheGoal | controller/tartcontrolplane/carotation.go:177-190 | After any series of interrupted recoveries one uninterrupted recovery reaches the goal, and recovering again writes nothing |
| PromotionLaws.DecideRotationMeaning | controller/tartcontrolplane/carotation.go:76-130 | Each answer to a request if and only if its condition holds: a pending scale-down pauses every request, a generation is rotated to only as the successor of the active one |
| PromotionLaws.RotationReconcileRecoversIff | controller/tartcontrolplane/carotation.go:76-130 | The rotation reconcile takes up the recovery if and only if the target is below the greatest int32 |
| PromotionLaws.ControlPlaneReconcileRecoversIff | controller/tartcontrolplane/reconciler.go:311-343 | The whole reconcile does so if and only if, in addition, the crash came after the target's label write |
| PromotionLaws.ReconstructActiveSecretGeneration | controller/tartcluster/reconciler.go:117-145 | 1 when no Secret is Active; a refusal when two are; otherwise the sole Active generation if and only if it is in range, keeps its contract and decodes, with the matching error if not |
| PromotionLaws.ReconstructionDuringPromotion | controller/tartcluster/reconciler.go:117-145 | What reconstruction answers at each moment of a promotion |
| Quorum.CanRemoveMemberMeaning | domain/controlplane/quorum.go:12-36 | The counts pass if and only if members remain and the healthy ones are a majority before and after the removal |
| Quorum.CanTemporarilyDisruptMeaning | domain/controlplane/quorum.go:39-54 | A restart passes if and only if the member is alone and healthy or the other healthy ones keep a majority of all |
| Quorum.CountsAreWeighed | domain/controlplane/quorum.go:12-54 | Both tests for every observation of counts: an unobserved target and counts that contradict each other are refused, otherwise the healthy ones have to be more than half |
| Quorum.MajoritiesAcrossRemovalIntersect | domain/controlplane/quorum.go:56-58 | A majority before and a majority after one removal share a member |
| Quorum.ScaleDownKeepsQuorum | domain/controlplane/quorum.go:12-36 | The same at every step of a whole scale-down, with a healthy majority before and after |
| Quorum.HealthyScaleDownIsNeverRefused | domain/controlplane/quorum.go:12-36 | With all members healthy no removal that leaves a member is refused |
| EtcdMembership.SummarizeEtcdObservations | controller/tartcontrolplane/etcd.go:157-175 | Unique if and only if no member is reported twice; then the count is the number of members that report themselves, a leader and no alarm |
| EtcdMembership.RemovalGateMeaning | controller/tartcontrolplane/etcd.go:177-192 | The gate opens if and only if the removal is sound: voting, duplicate-free members equal the reports, with a healthy majority before and after |
| EtcdMembership.SoundRemovalIsABijection | controller/tartcontrolplane/etcd.go:177-192 | Every member belongs to exactly one Machine |
| EtcdMembership.SoundRemovalIsAScaleDownStep | controller/tartcontrolplane/etcd.go:194-207 | A sound removal is one step of a quorum-keeping scale-down |
| EtcdMembership.DeletingMachine.ReconcileAnnotatedEtcdMember | controller/tartcontrolplane/etcd.go:209-231 | The hook is released when, and only when, a surviving Machine no longer lists the annotated member; what it answers in each case |
| EtcdMembership.DeletingMachine.ReconcileEtcdMemberRemoval | controller/tartcontrolplane/etcd.go:93-138 | A removal is requested only for this Machine's own member, once recorded, when it is sound and a survivor exists and can be dialled; and it is requested whenever that is so. Only this Machine's reported member is ever recorded |
| EtcdMembership.DeletingMachine.RemoveObservedMember | controller/tartcontrolplane/etcd.go:108-137 | The removal half of the above |
| ScaleDown.ChildNameIsInjective | controller/tartcontrolplane/machines.go:525-534 | Different ordinals never share a Machine name |
| ScaleDown.FirstInOrder | controller/tartcontrolplane/etcd.go:64-71 | The head of the sorted list has the greatest ordinal and among equal ones the greatest name; without ordinals, the greatest name |
| ScaleDown.GreatestOrdinalIsSurplus | controller/tartcontrolplane/etcd.go:26-62 | With more Machines than desired the greatest ordinal is beyond the desired ones, by counting |
| ScaleDown.KeptAfterOneDeletion | controller/tartcontrolplane/etcd.go:26-62 | One Delete leaves all Machines but one |
| ScaleDown.MachineStore.EnsureMachines | controller/tartcontrolplane/machines.go:70-142 | A Delete follows only after each ordinal 0 to desired-1 was listed or created; it hits one surplus Machine and leaves at least the desired number of those listed. With every call answered and the created Machines still there a surplus is always worked on, and the scale-down is pending exactly then, unless the etcd removal says otherwise |
| ScaleDown.MachineStore.CreateMissing | controller/tartcontrolplane/machines.go:82-120 | Each of the first ordinals was listed, or is created or found to exist, and read back, while Machines start deleting and disappear; it fails only without an answer or when such a Machine is gone |
| ScaleDown.MachineStore.ReconcileScaleDown | controller/tartcontrolplane/etcd.go:26-62 | One step: nothing, a hook, a hand-over to etcd removal, or one Delete while no Machine is deleting; pending whenever it did not fail, except as the etcd removal answers |
| ScaleDown.MachineStore.EnsureEtcdDeleteHook | controller/tartcontrolplane/etcd.go:73-84 | Adds the hook to one Machine, answered or not, and changes nothing else |
| ScaleDown.DesiredOrdinalsSurvive | controller/tartcontrolplane/etcd.go:26-62 | The Machines of the desired ordinals survive a Delete |
| UpgradeGate.ControlPlaneUpgradeSurvivors | controller/runtimeextension/update.go:310-345 | Succeeds if and only if the inventory is quiet and lists the target once; returns all the others |
| UpgradeGate.ValidateControlPlaneEtcdMembers | controller/runtimeextension/update.go:347-362 | Succeeds if and only if there are members, all voting, with distinct non-zero IDs; returns their set |
| UpgradeGate.ObserveSurvivors | controller/runtimeextension/update.go:280-298 | The loop ends without error only with healthy, distinct reports within the membership; any error refutes safety |
| UpgradeGate.ControlPlaneUpgradeSafe | controller/runtimeextension/update.go:250-308 | Returns nil if and only if the reports equal the membership as sets, each names its member and a leader and no alarm, and the size is one or at least three |
| UpgradeGate.SurvivorsKeepQuorum | controller/runtimeextension/update.go:299-306 | From three members on, the members other than the target are a majority of the full membership |
| HostClaims.ConsumerChangesOnlyThroughItsRetention | usecase/host/claimdecision.go:46-75 | Between two consumers of a Host lies a retention by the first one itself |
| HostClaims.ClaimDecisionMeaning | usecase/host/claimdecision.go:46-123 | Field by field: the consumer's own Host needs no write, a Host that admits the request is claimed, each conflict and invalid claim is recognised, in both directions |
| HostClaims.RetentionDecisionMeaning | usecase/host/claimdecision.go:61-75 | Field by field: the consumer's own Host is retained, one on record for it needs no write, everything else is refused, in both directions |
| HostClaims.ClassifyMeaning | usecase/host/eligibility.go:9-25 | When a Host is claimed, fresh, or approved for reuse after its last consumer |
| HostClaims.ClaimsAreAdmissible | usecase/host/claimdecision.go:97-123 | Every claim in a history was made on an unclaimed Host that its request admits |
| HostClaims.RetainedIsNeverFreshAgain | usecase/host/eligibility.go:9-25 | A once retained Host is never Available again, nor accepted by an automatic fresh claim |
| HostClaims.RetentionOutcome | usecase/host/eligibility.go:9-25 | A retained Host is Reusable if and only if a usable approval for this very consumer was already in place, else Retained |
| HostClaims.ApprovalServesOneTenancy | usecase/host/claimdecision.go:61-75 | After a claim and retention by a fresh consumer the Host stays Retained until a new approval is written |
| HostRepository.TryUpdate | adapter/kubernetes/tarthostrepository.go:50-68 | One attempt writes at most once; a conflict wrote nothing and means that the copy was or became out of date; anything else but success is an unanswered call or a Host that is gone |
| HostRepository.ClaimHostWithRequest | adapter/kubernetes/tarthostrepository.go:31-69 | Under any interleaving at most one write, binding an admitting Host and changing nothing else. The consumer's own Host succeeds without a call; a Host that admits the request and that nobody else writes is claimed. An error is an unanswered call, a Host that is gone, the decision on the caller's copy, or three conflicts after at least two writes by others |
| HostRepository.RetainHost | adapter/kubernetes/tarthostrepository.go:72-105 | The same for a retention of the consumer's own Host; one already on record for it succeeds without a call |
| HostRepository.LogIsAHistory | adapter/kubernetes/tarthostrepository.go:31-105 | All commits of all writers form one history of atomic guarded steps |
| HostSelection.SelectFreshForFailureDomainWithRendezvous | usecase/host/selection.go:19-48 | Nothing is selected if and only if no Host suits; otherwise a suitable one such that no other has a greater score, nor the same score (or no Machine UID to score by) and an earlier name |
| HostSelection.WinnerIsUnique | usecase/host/selection.go:39-47 | With distinct names the result does not depend on the list order |
| HostSelection.SelectionIsStable | usecase/host/selection.go:19-48 | Removing another Host keeps the winner; adding one keeps it or selects the added one |
| HostSelection.SelectedHostIsClaimable | usecase/host/claimdecision.go:97-123 | The fresh claim accepts the selected Host |
| Names.BeforeIffComesFirst | usecase/host/selection.go:33-47 | A name sorts first if and only if it has the smaller character where the two first differ, or ends there |
| DiskSelector.SelectorsAreFaithful | domain/bootstrap/diskselector.go:21-95 | Each conjunction and its closure accept the same disks |
| DiskSelector.SelectorAcceptsItsDiskIff | domain/bootstrap/diskselector.go:21-33 | A disk is accepted by its own selectors if and only if it is writable |
| DiskSelector.UniqueDiskSelector | domain/bootstrap/diskselector.go:101-114 | The first selector that names one entry alone, for an inventory disk the disk itself if and only if it is writable. A writable disk gets one unless it has a rival in everything its selectors look at, and the one by WWID if that is not blank and unrivalled |
| DiskSelector.NameableIff | domain/bootstrap/diskselector.go:21-95 | A writable disk is named alone by some selector if and only if no rival shares its WWID, or its serial number and model, or its bus path and model, or its model and rotation, blanks left aside |
| DiskSelector.ReadOnlyDiskCanNameItsTwin | domain/bootstrap/diskselector.go:101-114 | For a read-only disk the answer can name another disk |
| DiskSelector.SelectDisk | domain/bootstrap/diskselector.go:119-138 | A disk is selected if and only if it is the only writable one and is distinguishable from all others; unavailable if and only if none is writable |
| JsonPath.ReadIsLookup | controller/runtimeextension/patch.go:244-258 | Reading fails if and only if a non-object is on the way, and otherwise finds what is there |
| JsonPath.WriteResult | controller/runtimeextension/patch.go:260-278 | Writing succeeds if and only if reading would, and the value is then found |
| JsonPath.DeleteResult | controller/runtimeextension/patch.go:280-295 | The same for deleting, after which nothing is found |
| JsonPath.WriteElsewhere | controller/runtimeextension/patch.go:260-278 | Nothing off the path changes |
| JsonPath.DeleteElsewhere | controller/runtimeextension/patch.go:280-295 | Nothing off the path changes |
| JsonPath.CopyOrDeleteKeepsAgreement | controller/runtimeextension/patch.go:233-242 | Agreement reached at one allowed path survives the others, even overlapping ones |
| SpecPatch.AcceptedPlansAgreeOutside | controller/runtimeextension/patch.go:213-231 | An accepted plan means the specs agree at every path incomparable with all allowed paths |
| SpecPatch.AgreementIsAccepted | controller/runtimeextension/patch.go:213-231 | Agreement there, with object parents on both sides, is accepted |
| SpecPatch.AcceptanceIsExact | controller/runtimeextension/patch.go:213-231 | For pairwise incomparable allowed paths, exactly what is accepted |
| SpecPatch.PatchMakesSpecDesired | controller/runtimeextension/patch.go:225-231 | Applying the emitted operation makes the spec the desired one and changes nothing off it |
| SpecPatch.ObjectPatchIsTheSpecPatch | controller/runtimeextension/patch.go:137-211 | Two objects are planned as their specs are, if and only if both have the expected API version and kind and an object as their spec; one that appears or disappears is refused |
| SpecPatch.ObjectPatchMakesSpecDesired | controller/runtimeextension/patch.go:137-199 | The same for whole objects and templates, whose identity was checked |
| JsonHeap.CloneMap | controller/runtimeextension/patch.go:390-411 | An equal tree that shares no map with the original |
| JsonHeap.ReadPath | controller/runtimeextension/patch.go:244-258 | Follows references to what the value-level reading finds |
| JsonHeap.WritePath | controller/runtimeextension/patch.go:260-278 | Changes the tree in place to the value-level result, storing a clone; a failed write changes nothing |
| JsonHeap.DeletePath | controller/runtimeextension/patch.go:280-295 | Changes the tree in place to the value-level result |
| JsonHeap.CopyOrDeletePath | controller/runtimeextension/patch.go:233-242 | The same, and the desired tree is untouched |
| JsonHeap.Normalize | controller/runtimeextension/patch.go:217-224 | The loop over the allowed paths computes the value-level normalization in place |
| JsonHeap.PlanSpecPatch | controller/runtimeextension/patch.go:213-231 | Decides what the value-level planner decides and modifies neither spec |
| UpgradeLease.LeaseStore.AcquireKubernetesUpgradeLease | controller/tartcontrolplane/kubernetesupgrade.go:194-241 | At most one write, an acquisition for 300 seconds of a lease that no other replica held in time; success means it was made. With every call answered, refusal means that a lease current during the call was held in time by another, or that another replica wrote meanwhile |
| UpgradeLease.LeaseStore.RenewKubernetesUpgradeLease | controller/tartcontrolplane/kubernetesupgrade.go:245-273 | Every write moves the renew time of a lease this replica held at that moment; with every call answered and nobody else writing each tick makes one, or, if the lease is not its own, the first tick ends it |
| UpgradeLease.LeaseStore.RenewOnce | controller/tartcontrolplane/kubernetesupgrade.go:253-272 | One tick: with every call answered and nobody else writing it writes one renewal and goes on if the lease is its own, and stops if it is not |
| UpgradeLease.LeaseStore.ReleaseKubernetesUpgradeLease | controller/tartcontrolplane/kubernetesupgrade.go:276-297 | At most one write, giving up a lease this replica held at that moment; with every call answered and nobody else writing a held lease is given up |
| UpgradeLease.AcquirableIff | controller/tartcontrolplane/kubernetesupgrade.go:150-168 | A lease may be taken if and only if no other replica holds it with a renewal that is younger than its stated positive duration, or else 300 seconds |
| UpgradeLease.HolderChangesOnlyByReleaseOrExpiry | controller/tartcontrolplane/kubernetesupgrade.go:150-168 | The holder changes only by its own release or at or after its expiry |
| UpgradeLease.AtMostOneInside | controller/tartcontrolplane/kubernetesupgrade.go:385-409 | In every run of the replicas in which renewals come in time, at most one is inside the upgrade section |
| UpgradeLease.LeaseStore.RunUpgradeSection | controller/tartcontrolplane/kubernetesupgrade.go:385-409 | Acquire, renew beside the upgrade, leave, then release, with one renewal possibly still under way: the history stays such a run, and the replica is outside at the end. With every call answered and nobody else writing it runs unless another holds the lease in time, renews it at every tick, and leaves it without a holder |
| UpgradeLease.AtMostOneReplicaRuns | controller/tartcontrolplane/kubernetesupgrade.go:385-409 | The same exclusion for the history that the replicas' lease calls make |
| UpgradeLease.LapsedRenewalAdmitsASecond | controller/tartcontrolplane/kubernetesupgrade.go:385-409 | Without that assumption two can be |
| EndpointRollout.UpdatesComeInOrder | controller/tartmachine/configuration_update.go:168-213 | Without an escape every updated machine has all machines before it reporting the new endpoint |
| EndpointRollout.ControlPlanesUpdateOneByOne | controller/tartmachine/configuration_update.go:187-203 | Without an escape updated control planes are a prefix in name order with at most one in flight |
| EndpointRollout.WorkersComeLast | controller/tartmachine/configuration_update.go:204-211 | Without an escape no worker is updated before every control plane reports the new endpoint, and there is one |
| EndpointRollout.GateOpenMeaning | controller/tartmachine/configuration_update.go:168-240 | Field by field: the gate is open if and only if there are control planes to order by, the target is one unless it is a worker, and each one before it was Ready and then, or later, had its provider object name the new endpoint and be up to date |
| EndpointRollout.FirstUpdateIsGatedOrEscapes | controller/tartmachine/configuration_update.go:102-111 | The first update of any machine went through an open gate or escaped it |
| EndpointRollout.GateIsSkippedIff | controller/tartmachine/configuration_update.go:80-111 | An update passes without the gate if and only if a read saw the new endpoint active, or the first class refused the change and the second is ControlPlaneEndpoint |
| EndpointRollout.UpdateIsEnabledIff | controller/tartmachine/configuration_update.go:80-111 | A machine not updated yet can be updated if and only if its reads permit it and the gate is open or escaped |
| EndpointRollout.OrderIsKeptIff | controller/tartmachine/configuration_update.go:168-213 | The order is kept throughout a run if and only if no escaping update runs ahead of a machine before it |
| EndpointRollout.StartHasNoEscapeIff | controller/tartmachine/configuration_update.go:80-111 | The runs from a start have no escapes if and only if no machine there has a desired configuration that its active one refuses and its staged one lets through as an endpoint change |
| EndpointRollout.SafeStartHasNoEscape | controller/runtimeextension/updateapply.go:81-107 | If at the start nothing looser than the active configuration is staged anywhere, no update of the run escapes |
| EndpointEscape.EscapedUpdateRunsAhead | controller/tartmachine/configuration_update.go:80-111 | Any active, staged and desired configurations that allow an escape make a run that updates the second control plane before the first |
| EndpointEscape.SomeConfigurationsEscape | adapter/talos/configbuilder/classify.go:239-259 | Three configurations that allow it: a volume minimum of 10, the same without one, and the new endpoint with 5 |
| EndpointFleet.Fleet.ListControlPlanes | controller/tartmachine/configuration_update.go:176-190 | Exactly the control planes of the cluster, by label, spec and role, that are not being deleted, sorted by name |
| EndpointFleet.Fleet.MachineEndpointConverged | controller/tartmachine/configuration_update.go:223-240 | True if and only if the listed Machine was Ready and one later state of its provider object named the new endpoint and was up to date; it fails if and only if the read is not answered |
| EndpointFleet.Fleet.Walk | controller/tartmachine/configuration_update.go:191-211 | Stops at the target, at the end, or at the first control plane not seen converged |
| EndpointFleet.Fleet.EndpointUpdateGate | controller/tartmachine/configuration_update.go:168-213 | Open only with every preceding control plane Ready in its own listing and later seen to report the new endpoint and to be up to date; closed only without an answer or for one of the listed reasons |
| EndpointFleet.Fleet.PerformConfigurationUpdate | controller/runtimeextension/updateapply.go:77-136 | Reads and classifies again and asks the gate if and only if both classes are ControlPlaneEndpoint; every update it makes is a step of the rollout; it waits only for an answer, for a configuration an update may start from, or for the gate it asked |
| EndpointFleet.Fleet.ReconcileMachineConfiguration | controller/tartmachine/configuration_update.go:34-126 | One reconcile, with lease and gate keyed on the class of its read as in the code, refines the rollout with every other controller interleaved; it asks for the lease if and only if that class is ControlPlaneEndpoint, and waits only for an answer, for a configuration an update may start from, or for the gate |
| StorageChange.KeyIsInjective | adapter/talos/configbuilder/classify.go:190-205 | Documents of different kinds or names never share an index key |
| StorageChange.IndexNamedDocuments | adapter/talos/configbuilder/classify.go:190-205 | The index holds exactly the storage documents, by the names of their kinds, that no later document of the same kind and name replaces |
| StorageChange.AcceptedIffAllSurvive | adapter/talos/configbuilder/classify.go:174-205 | The test on the two indexes says just that |
| StorageChange.DestructiveStorageChange | adapter/talos/configbuilder/classify.go:174-188 | Over the documents themselves: no objection if and only if every storage document in force still has its like in force, changed in no field that places it and with no stated bound shrunk; a reported reason is a real one |
| StorageChange.AcceptanceMeaning | adapter/talos/configbuilder/classify.go:207-282 | The fields one accepted change of a document leaves alone or does not shrink, in both directions |
| StorageChange.RunKeepsStorage | adapter/talos/configbuilder/classify.go:174-282 | What every sequence of accepted updates keeps |
| StorageChange.TwoUpdatesSuffice | adapter/talos/configbuilder/classify.go:239-282 | Whatever is kept can be reached in two accepted updates |
| StorageChange.ReachableIffKept | adapter/talos/configbuilder/classify.go:174-282 | Sequences of accepted updates reach exactly what keeps selectors, maxima, layouts and minimum bytes |
| StorageChange.BoundsRefusedInOneStepPassInTwo | adapter/talos/configbuilder/classify.go:244-248 | A shrinking volume minimum is refused in one update and passes in two |
| StorageChange.StaleObservationIsHarmlessIff | adapter/talos/configbuilder/classify.go:174-188 | Judging against an outdated observation is safe for every update if and only if the real documents are kept in the observed ones |
| StorageChange.NothingFitsOnlyTheStagedIff | adapter/talos/configbuilder/classify.go:239-282 | Every update the staged documents accept is accepted by the active ones if and only if the staged ones are accepted themselves and restate the conditional bounds |
| ChangeClassification.FingerprintSet | adapter/talos/configbuilder/classify.go:510-538 | An error if and only if an entry does not parse; otherwise the set of fingerprints |
| ChangeClassification.EqualFingerprintSets | adapter/talos/configbuilder/classify.go:406-444 | True if and only if both lists parse and name the same keys |
| ChangeClassification.EqualStringSet | adapter/talos/configbuilder/classify.go:446-470 | True if and only if the trimmed non-empty strings are the same |
| ChangeClassification.InvariantConflict | adapter/talos/configbuilder/classify.go:90-127 | No conflict if and only if role, tokens, key material, images, names and ProviderID agree |
| ChangeClassification.InvariantsAgreeIsAnEquivalence | adapter/talos/configbuilder/classify.go:307-404 | Agreement is symmetric, transitive, and reflexive on whatever agrees with anything |
| ChangeClassification.AgreesWithItselfIff | adapter/talos/configbuilder/classify.go:365-404 | A configuration agrees with itself if and only if it is complete and its key material parses |
| ChangeClassification.ClassifyConfigurationChange | adapter/talos/configbuilder/classify.go:34-73 | Each class if and only if its condition holds; an error if and only if something does not load |
| ChangeClassification.Evaluate | usecase/update/evaluate.go:14-20 | A mode is decided if and only if the change is permitted: ApplyOnly for "ApplyOnly", StagedReboot for "StagedReboot" and for no strategy; any other strategy is an error |
| ConfigurationUpdate.StartIsPreserved | controller/runtimeextension/updateapply.go:77-136 | Identity, installation and storage of the start are kept through every run of updates and reboots |
| ConfigurationUpdate.EveryMomentIsPreservedIff | controller/runtimeextension/updateapply.go:77-136 | Every moment is preserved by all later ones if and only if every write preserves what is active when it is made |
| ConfigurationUpdate.ReadIsSafeIff | controller/runtimeextension/updateapply.go:81-107 | With only boots between read and write, every permitted write preserves the active configuration if and only if what was staged at the read is preserved in what was active |
| ConfigurationUpdate.IdentityNeverChanges | adapter/talos/configbuilder/classify.go:90-127 | Any two moments of any run agree on identity and installation |
| ConfigurationUpdate.LateBootLosesAVolumeGroup | controller/runtimeextension/updateapply.go:81-129 | A run in which a boot between observation and write loses a volume group |
| ConfigurationUpdate.TalosNode.ApplyConfigurationUpdate | controller/runtimeextension/updateapply.go:77-136 | At most one write, permitted against this call's observation, past both gates: "ApplyOnly" only applies at once and never asks for a reboot, "StagedReboot" and no strategy only stage and then ask for one, any other strategy writes nothing. Done only without a write. With every call answered and the gates open, no write means that the change was refused |
| ConfigurationUpdate.TalosNode.Act | controller/runtimeextension/updateapply.go:89-107 | Each class has its effect; closed gates and refused classes write nothing |
| ConfigurationUpdate.TalosNode.StageAndReboot | controller/runtimeextension/updateapply.go:115-135 | Stages once, then asks for a reboot, and nothing but reboots follows; it stops if and only if a call is not answered |
| ConfigurationUpdate.TalosNode.ObserveReboot | controller/runtimeextension/updateapply.go:165-188 | Writes nothing, and answers true only when the boot count has changed |

## Left out

Hypotheses and bounds of the models:

- TalosConfig.SetKubernetesAPICertificateAuthority: the strategic merge and the worker's rotate patchers are library code; they are parameters with an explicit set-valued hypothesis (an empty key in a merge patch may leave the old one), and a configuration always has its machine section
- EtcdMembership.DeletingMachine.RemoveObservedMember: nothing else writes the Machine's annotations during a reconcile; all observations are inputs
- Rotation runs have one controller and a fixed set of machines apart from deletions; a machine that joins during a rotation starts Stable, and nothing here prevents it; configuration updates and other writers of machine configurations are outside these runs
- RotationReconciler.Reconciler.ReconcileTrust: a node does not reboot between being dialled and being read, and the promotion it ends with is the separate Promotion model
- PromotionLaws.ReconstructActiveSecretGeneration: the listing of the Secrets succeeds
- PromotionLaws.DecideRotation: the request is a number; conditions, messages and the creation of the pending bundle are not modelled
- Promotion.BundleStore.PromoteCARotation: of a Secret's contract only the state label is open; the other clauses are one boolean
- TLS, X.509, PEM, YAML and SHA-256 are parameters or equality of byte strings
- EtcdMembership.DeletingMachine.ReconcileEtcdMemberRemoval: safety only; a removal that did not happen is not retried and a released hook can be added again, so it has no liveness
- ScaleDown.FirstInOrder: a sort is modelled by the head element that is used of it, here and in the Host selection; the endpoint gate's list is sorted in full
- ScaleDown.MachineStore.EnsureMachines: templates, provider resources, failure domains and digests are not modelled, labels are those the controller writes, and from its second listing on the scale-down is not interleaved, so what it promises is about the Machines listed there
- HostRepository.ClaimHostWithRequest: the Host is not deleted and created again while a claim is under way
- JsonHeap.WritePath: descends by recursion where the source loops, so that each map's footprint is handled once; arrays are immutable values there, not cloned element by element
- SpecPatch.AcceptanceIsExact: stated for allowed paths that do not contain one another, as all the allow lists in the source are; the two one-way results hold for any
- UpgradeLease.AtMostOneInside: one clock, in whole seconds, and holders that renew before expiry
- EndpointRollout.ControlPlanesUpdateOneByOne: without escapes; membership and desired endpoint are fixed, no machine starts with the new endpoint, and reports are stable; the hook path for UpdateMachine sets no endpoint gate and is outside
- EndpointFleet.Fleet.ReconcileMachineConfiguration: the endpoint lease is an answer that may be no; the ordering does not need it
- EndpointFleet.Fleet.MachineEndpointConverged: an invalid infrastructure reference is one of the failed reads
- ChangeClassification.ClassifyConfigurationChange: configurations are loaded after their installer image was normalised, and reasons are not texts
- ConfigurationUpdate.TalosNode.ApplyConfigurationUpdate: the node keeps one configuration for its next boot, which the last write of either mode replaces; CA rotation, which changes key material, is outside these runs, `IdentityNeverChanges` included; gate answers and health observations are inputs
- HostSelection.WinnerIsUnique: the hash is any function to numbers; names are unique
- DiskSelector.UniqueDiskSelector: expressions are their atoms, not strings, and trimming is a predicate

Not modelled:

- Reprovisioning, shutdown delays, power and netboot adapters
- The decision which Kubernetes version to upgrade to, and the upgrade itself
- Failure-domain spreading and aggregation
- Conditions, messages, events, requeue intervals, drain policy
- Deep-copy code, value-object marshalling and command-line wiring
