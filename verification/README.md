# Verification of hwameistor-operator

This project models the parts of the operator that hold algorithms and protocols, and proves
properties of them for all inputs, all runs and all interleavings. `dafny verify dfyconfig.toml`
checks everything.

| file | what it models |
|---|---|
| `MemberEnv.dfy`, `MemberEnvLaws.dfy` | the merge of the live environment of the local-storage member container with the configured one: exact interleaving, leftmost placement, a characterisation that leaves only one possible result, fixed points, absorption, whole-run history |
| `EnvExpansion.dfy` | in-order `$(VAR)` expansion of a merged environment |
| `MigrateCheck.dfy` | the scanner that keeps a single spelling of the migration-check flag |
| `LocalStorage.dfy`, `LocalStorageLaws.dfy` | building and updating the local-storage DaemonSet: one-step convergence, agreement of both paths, histories, the create-or-update call |
| `CertificateRotation.dfy`, `CertificateLaws.dfy` | the admission certificate protocol: watcher, channel, timers, retried rolling updates and any number of concurrent reconcile calls over one secret; the token, freedom from deadlock, rotation safety |
| `CertificateDeadlines.dfy` | which certificate the renewal deadlines of that protocol stand for |
| `CertificateRecovery.dfy` | from which of its states pods can still be restarted without a reconcile call |
| `CertificateOutcomes.dfy` | what failing calls lead to in that protocol, the retry budget, and the replacement of the certificate found |
| `LocalDisks.dfy` | reserving disks, sifting the rest, generating and creating claims |
| `ClusterPhases.dfy`, `ClusterPhaseLaws.dfy` | the install phases: the reconcile worker, DRBD job handlers and outside changes, over objects written under version checks |
| `ClusterPhaseOutcomes.dfy` | what failing calls and changed objects lead to in the install phases, and what each write may touch |
| `ClusterClaims.dfy` | no Cluster gets to CreatedLDC without the claims, and only free disks are claimed |
| `ClusterPasses.dfy`, `ClusterInstall.dfy` | the passes of the worker, and the run that installs a new Cluster |
| `DrbdAdapter.dfy` | one DRBD job per eligible node, the counting of completed jobs, the job handler |
| `DrbdQuorum.dfy` | jobs made for the nodes eligible at one time and counted against those eligible at another: when the count is right |
| `DrbdSettings.dfy` | the adapter's in-memory settings over runs of the install phases, with edits, job deletions and restarts |
| `StorageClasses.dfy` | the storage classes generated for the pools that exist |
| `ReplicatedVolumes.dfy` | from completed DRBD jobs, through the stored status, to classes with two replicas |
| `Sequences.dfy`, `Wrappers.dfy` | shared sequence facts, results and API call outcomes |

Conventions. An API call has one of three outcomes: it takes effect and says so, it has no effect,
or it takes effect although the caller sees an error. Reads are linearizable. An environment value
is given already split at its `$(VAR)` references. The operator's own environment variables, the
decoded annotation, the listing order of objects and the table of supported operating systems are
parameters. The two protocols are state machines in which every step is one API call, channel
operation or lock operation of one party; sequential code keeps its loops and in-place updates. The API
server stores exactly what is written to it.

## What the proofs found

Where the code does not do what its comments or names suggest, the model follows the code, and a lemma
says for which inputs or states the expectation holds.

- A retried certificate rotation does not recover by itself. The guard at
  `pkg/install/admissioncontroller/admission_controller.go:521` makes an attempt fail on an existing
  secret with nil data, which is what an attempt that failed after its clear leaves behind: one lost reply
  is enough (`RetriesDoNotRecover`). In every reachable state, pods can be restarted again without a new
  reconcile call if and only if the retry budget is not used up and the secret has not been left with nil
  data and nobody under way to refill it (`RecoveryExactly`); an attempt about to read, with no reconcile
  call under way, can complete if and only if the data is not nil (`RetryCompletesExactly`).
- A renewal deadline need not be that of the installed certificate. An ordinary new installation ends with
  the one-hour fallback running against a certificate just made (`LateInstall`). Where no read of an expiry
  date fails, every deadline under way is that of the installed pair, in every interleaving, if and only if
  a full pair was there at start-up (`DeadlinesCurrentExactly`). Never is the deadline of another
  certificate under way if and only if the secret at start-up was not a certificate without its key
  (`NeverStaleExactly`).
- The DRBD completion handler counts jobs in the namespace `hwameistor`, but jobs are created in the
  Cluster's target namespace, and the nodes it waits for are those eligible when it counts, not those that
  got a job: nodes come and go, and a restart of the operator forgets the adapter's settings. For the jobs of
  one creation, the count is right about the nodes needing one when it is taken, for every pattern of
  completions, if and only if they are the nodes that got one and the namespaces agree, or there is none to
  wait for, or no set of these jobs can be counted as, or be, all of them (`QuorumExactly`); about the nodes
  that got a job, if and only if they are as many and the namespaces agree or there are none
  (`AllJobsExactly`). Over the same nodes it is never early until the operator is restarted
  (`NeverEarlyBetweenRestarts`); after a restart two completed jobs of three can be recorded (`RestartCountsEarly`), and the count is right if and
  only if there is no node left to wait for, or no master got a job and the namespaces agree
  (`QuorumAfterRestartExactly`).
- An edit of the DRBD configuration need not take effect. Masters take part if and only if some configuration
  handed over since the last restart asked for it (`SettingsHistory`), and the one the Cluster has now is in
  force if and only if it agrees with that history (`InForceExactly`): asking for masters to stop has no
  effect, nor has asking for them once the adapters are marked as created, and a restart forgets them
  (`RestartForgets`). Between two passes, every possible edit would take effect at the next pass if and only
  if the adapters are not marked as created and nothing handed over since the last restart asked for masters
  (`EditsTakeEffectExactly`).
- Claim creation gives up at the first claim that already exists, so a pass repeated after a lost
  status write fails while one of its own claims is still wanted. With every call succeeding, a pass completes
  if and only if no wanted name is taken and the wanted names differ (`ClaimStore.CreateLocalDiskClaims`,
  and `ClaimPassExactly` for the worker of the phase protocol).
- With an unsupported check setting, an update stops at the first member container and returns a copy whose
  earlier registrar containers are already changed, with the change flag unset
  (`NeedOrNotToUpdate`).
- Generated storage classes can have one name, and then one of the two is silently passed over. Whatever is
  there and whichever creations fail, all are stored as generated if and only if no offered pool class reads,
  in lower case, as another one with a suffix in use, and each class either is there already or has a free name
  and a creation that succeeds (`AllStoredExactly`); `ssd` and `ssd-ha` on one node clash (`SsdClash`).

## Model

| member | source | states |
|---|---|---|
| MemberEnv.MergeMemberEnv | pkg/install/localstorage/member_env.go:9-33 | the nested loops compute the specification `Merge` on every pair of lists, including empty ones and duplicates |
| MemberEnvLaws.MergeInterleaves | pkg/install/localstorage/member_env.go:5-33 | filtered to configured names the result is the desired list verbatim, filtered to the others it is the live list's others verbatim, and lengths add up |
| MemberEnvLaws.Placement | pkg/install/localstorage/member_env.go:16-31 | a kept entry stands directly behind exactly the kept entries before it and a prefix of the desired list |
| MemberEnvLaws.LeftmostPlacement | pkg/install/localstorage/member_env.go:22-31 | after any prefix of the live list the desired entries out are the shortest prefix embedding the configured names read so far that the desired order can honour; all of them when they are a subsequence of it |
| MemberEnvLaws.FewestDesiredFirst | pkg/install/localstorage/member_env.go:22-31 | no other placement of a kept entry that honours those names puts fewer desired entries before it |
| MemberEnvLaws.MergeCharacterised | pkg/install/localstorage/member_env.go:9-33 | the two projections and leftmost placement hold of the merge and of no other list |
| MemberEnvLaws.MergeFixedPoint | pkg/install/localstorage/member_env.go:9-33 | a list is left alone if and only if its configured projection is the desired list |
| MemberEnvLaws.MergeIdempotent | pkg/install/localstorage/member_env.go:9-33 | merging twice is merging once |
| MemberEnvLaws.MergeAbsorbs | pkg/install/localstorage/member_env.go:9-33 | a merge with a list of the same name sequence leaves no trace in a later merge |
| MemberEnvLaws.MergeAppendsFresh | pkg/install/localstorage/member_env.go:16-32 | when no desired name is live yet, the desired list is appended |
| MemberEnvLaws.MergeByName | pkg/install/localstorage/member_env.go:5-33 | each name reads as desired if declared and as before otherwise; the names present are those of both lists |
| MemberEnvLaws.RunHistory | pkg/install/localstorage/member_env.go:5-33 | after any run of configurations each name reads exactly as the last one declaring it left it, and no name is lost |
| EnvExpansion.OthersInvisible | pkg/install/localstorage/member_env.go:6-8 | entries outside a reference-closed set of names never change what names inside it expand to, wherever they stand |
| EnvExpansion.ExpansionUndisturbed | pkg/install/localstorage/member_env.go:5-33 | whatever manual entries are interleaved, configured names with closed references expand as in the desired list alone |
| EnvExpansion.FreshSeesManual | pkg/install/localstorage/member_env.go:16-32 | a first merge changes no manual entry's expansion |
| EnvExpansion.DeclarationReads | pkg/install/localstorage/member_env.go:6-8 | a reference reads the latest earlier declaration, else the service environment, else stays; a later declaration of a name wins |
| MigrateCheck.SetMigrationCheck | pkg/install/localstorage/localstorage.go:522-545 | unset and true end the arguments with `--migrate-check=true`, false with `--migrate-check=false`, and any other setting is an error; the skipping loop keeps the foreign arguments before it |
| MigrateCheck.KeepsExactly | pkg/install/localstorage/localstorage.go:530-543 | kept are exactly, and in order, the arguments that are neither spelling of the flag nor a switch directly after the bare one |
| MigrateCheck.ExactlyOneFlag | pkg/install/localstorage/localstorage.go:520-545 | the result has one managed flag, at the end, with the configured value |
| MigrateCheck.LastCheckWins | pkg/install/localstorage/localstorage.go:520-545 | applying one value and then another equals applying the other |
| MigrateCheck.CheckFixedPoint | pkg/install/localstorage/localstorage.go:530-543 | arguments are unchanged if and only if the flag is there once, last, with this value |
| LocalStorage.GetLSMemberEnv | pkg/install/localstorage/localstorage.go:459-511 | template, operator, default version unless overridden, then the extra environment; an undecodable annotation is an error |
| LocalStorage.UpdateContainer | pkg/install/localstorage/localstorage.go:556-592 | one round of the pass brings a container up to date and its flag says exactly whether it changed |
| LocalStorage.NeedOrNotToUpdate | pkg/install/localstorage/localstorage.go:547-596 | on every live DaemonSet: all containers brought up to date, the change flag true exactly when the result differs, and the partial copy and error of each failing case |
| LocalStorage.SetLSDaemonSet | pkg/install/localstorage/localstorage.go:279-442 | the containers built for a configuration, or the error of a bad annotation or check setting |
| LocalStorageLaws.ValidExactly | pkg/install/localstorage/localstorage.go:499-528 | a configuration can be applied if and only if its annotation decodes and its check setting is unset, true or false |
| LocalStorageLaws.WantedReads | pkg/install/localstorage/localstorage.go:454-520 | the desired environment, entry by entry: position of the pod, endpoint, migration image, version unless the extra environment has one, and the extra environment last |
| LocalStorageLaws.BuiltReads | pkg/install/localstorage/localstorage.go:390-442 | both containers built, field by field: each with its own image and resources, the directories of the configuration and the check flag last |
| LocalStorageLaws.UpdateReads | pkg/install/localstorage/localstorage.go:556-592 | an update gives the member its image and the check flag the setting asks for, and the registrar its image |
| LocalStorageLaws.NothingToDo | pkg/install/localstorage/localstorage.go:555-592 | a container needs no update if and only if its configured environment, flag and image read as configured |
| LocalStorageLaws.UpdateConverges | pkg/install/localstorage/localstorage.go:547-596 | the updated DaemonSet is a fixed point |
| LocalStorageLaws.UpdateTwice | pkg/install/localstorage/localstorage.go:547-596 | running the step again after it reports no change and returns the same DaemonSet |
| LocalStorageLaws.UpdateTouchesOnlyManagedFields | pkg/install/localstorage/localstorage.go:555-592 | only Env, Args and Image of members and Image of registrars may differ |
| LocalStorageLaws.FreshIsUpToDate | pkg/install/localstorage/localstorage.go:279-442 | a freshly built DaemonSet is a fixed point of the update for the same configuration |
| LocalStorageLaws.UpdateAgreesWithFresh | pkg/install/localstorage/localstorage.go:390-418 | any live member gets the configured environment, flag and image of a fresh build, and closed variables expand as there |
| LocalStorageLaws.VersionEntries | pkg/install/localstorage/localstorage.go:483-494 | after any merge the version entries are those of the extra environment, or one operator default; the extra environment is a suffix of the desired list |
| LocalStorageLaws.MemberRun | pkg/install/localstorage/localstorage.go:547-596 | any run of updates under supported configurations leaves, name by name, the last declaration, the original foreign arguments, and the last flag and image |
| LocalStorageLaws.EnsureRun | pkg/install/localstorage/localstorage.go:598-634 | the same over any run of Ensure calls from any live DaemonSet or none, with failing reads, refused and lost writes and invalid configurations in between |
| LocalStorageLaws.DaemonSetStore.Ensure | pkg/install/localstorage/localstorage.go:598-634 | the state after every call, and success exactly when configuration and read are good and the write succeeds or is not needed; success leaves a DaemonSet that needs no further update |
| CertificateLaws.RenewalToken | pkg/install/admissioncontroller/admission_controller.go:46-57 | in every interleaving, starting watcher, channel, timers, rolling updates and schedulers hold one token in all until a retry budget is used up; the channel is never full at a send |
| CertificateLaws.RenewalNeverStuck | pkg/install/admissioncontroller/admission_controller.go:361-484 | in every interleaving, until a retry budget is used up, some thread can take a step: there is no deadlock |
| CertificateLaws.SafeStep | pkg/install/admissioncontroller/admission_controller.go:361-562 | every enabled step of anybody keeps mutual exclusion, the token and all promises about the secret |
| CertificateLaws.StampsMarkSteps | pkg/install/admissioncontroller/admission_controller.go:512-538 | the stamps compared by rotation safety are the steps at which the attempt read and a pair was last written |
| CertificateLaws.RotationSafety | pkg/install/admissioncontroller/admission_controller.go:512-562 | when pods are restarted, the secret holds key and certificate of one generation written after this attempt read, despite concurrent reconcile calls |
| CertificateLaws.GenerationsBounded | pkg/install/admissioncontroller/admission_controller.go:361-417 | pairs written are at most one more than clears, and at most the clears if a full pair was there at the start |
| CertificateOutcomes.RotationReplaces | pkg/install/admissioncontroller/admission_controller.go:512-562 | whenever pods are restarted, the certificate they will find is not the one this attempt's own read found, whatever ran meanwhile |
| CertificateOutcomes.FailedCallEnds | pkg/install/admissioncontroller/admission_controller.go:423-562 | a failing call, effective or not, is never passed over: it ends a reconcile call, and an attempt, which is retried from its read or given up |
| CertificateOutcomes.RollingEnds | pkg/install/admissioncontroller/admission_controller.go:423-436 | a rolling update ends with the pods restarted and the next check scheduled, or given up |
| CertificateOutcomes.ScheduledAfterRestarts | pkg/install/admissioncontroller/admission_controller.go:429-435 | in every run a next check is scheduled at most once per restart of the pods |
| CertificateOutcomes.GivingUpTakesFive | pkg/install/admissioncontroller/admission_controller.go:35-41 | in every run five attempts have failed for every rolling update given up |
| CertificateOutcomes.FiveFailuresGiveUp | pkg/install/admissioncontroller/admission_controller.go:35-41 | five failing reads after a timer, and no fewer, give a rolling update up |
| CertificateOutcomes.FallbackWithoutReads | pkg/install/admissioncontroller/admission_controller.go:456-470 | in every run in which no read finds a certificate, every deadline under way is the fallback delay |
| CertificateDeadlines.LateInstall | pkg/install/admissioncontroller/admission_controller.go:456-506 | whenever no full pair is there at the start, the run with every call succeeding in which the first timer is set before a reconcile call installs the pair; on a new installation that timer is the fallback |
| CertificateDeadlines.DeadlinesCurrentExactly | pkg/install/admissioncontroller/admission_controller.go:456-506 | over all runs in which no expiry read fails, every deadline under way is the installed certificate's whenever a full pair is installed, if and only if a full pair was there at the start |
| CertificateDeadlines.NeverStaleExactly | pkg/install/admissioncontroller/admission_controller.go:487-506 | in all runs no deadline taken from a certificate names another than the installed one, if and only if the initial secret was no certificate without key; a fallback deadline names none |
| CertificateRecovery.RecoveryExactly | pkg/install/admissioncontroller/admission_controller.go:423-562 | in every reachable state, some continuation without a reconcile call restarts pods if and only if retries are left and the secret is not nil data with nobody under way to refill it |
| CertificateRecovery.RetryCompletesExactly | pkg/install/admissioncontroller/admission_controller.go:512-562 | in every reachable state with an attempt about to read and no reconcile call under way, it can complete if and only if the secret is not one with nil data |
| CertificateRecovery.ClearedStaysCleared | pkg/install/admissioncontroller/admission_controller.go:423-436 | once an attempt has failed between clear and rewrite, no further retries refill the secret or restart pods |
| CertificateRecovery.RetriesDoNotRecover | pkg/install/admissioncontroller/admission_controller.go:512-562 | from a full pair one lost reply to the clear leads, with all four retries to go, to such a state |
| LocalDisks.CheckLocalDiskReserveCondition | pkg/install/utils/disk_reserve.go:92-104 | true exactly when some rule names the disk's node and device |
| LocalDisks.DiskStore.Update | pkg/install/utils/disk_reserve.go:114-117 | a disk update applies exactly when it is not refused and the copy is of the stored object at its version |
| LocalDisks.DiskStore.ReserveDisk | pkg/install/utils/disk_reserve.go:106-122 | success, exactly when every update of a matching disk succeeds, has gone through the whole listing, a failure through a prefix of it |
| LocalDisks.ReservationExact | pkg/install/utils/disk_reserve.go:112-119 | of all disks there are, listed or not, exactly the matching ones among those gone through end reserved, and nothing else changes |
| LocalDisks.SiftAvailableAndUnreservedDisks | pkg/install/utils/autocreate_localdiskclaims.go:11-20 | the loop keeps the available, unreserved disks in order |
| LocalDisks.Sifted | pkg/install/utils/autocreate_localdiskclaims.go:11-20 | a disk is kept exactly when it is listed, available and unreserved |
| LocalDisks.LowersLetters | pkg/install/utils/autocreate_localdiskclaims.go:31-31 | in names each upper-case ASCII letter becomes its lower-case partner and every other character stays |
| LocalDisks.GenerateLocalDiskClaims | pkg/install/utils/autocreate_localdiskclaims.go:22-49 | the loop with its map of seen keys yields the claims of first occurrences |
| LocalDisks.ClaimsCoverExactly | pkg/install/utils/autocreate_localdiskclaims.go:22-49 | with node names free of ':', one claim per node and type in first-occurrence order, each named after and made for its disk, and exactly one for every disk |
| LocalDisks.ClaimNamesDistinct | pkg/install/utils/autocreate_localdiskclaims.go:31-35 | claim names are pairwise distinct when types carry no '-' and differ not by case alone |
| LocalDisks.ClaimStore.CreateLocalDiskClaims | pkg/install/utils/autocreate_localdiskclaims.go:51-59 | claims of a prefix are created, all of them on success; a pass succeeds if and only if no call fails, no wanted name is taken and the wanted names differ |
| ClusterPhaseLaws.PhaseStep | controllers/cluster_controller.go:575-636 | one step of anybody leaves the stored phase or raises it by the switch's own moves |
| ClusterPhaseLaws.PhaseOnlyRises | controllers/cluster_controller.go:575-636 | over any run the stored phase only rises and changes at most three times |
| ClusterPhaseLaws.ClaimStepWhere | controllers/cluster_controller.go:594-615 | a claim is created only at Reserved, under a new name, from a listed disk object no reservation had matched |
| ClusterPhaseLaws.ClaimsOnlyWhenReserved | controllers/cluster_controller.go:594-615 | in every run claims are created only while the Cluster stands at Reserved and claiming is asked for |
| ClusterPhaseLaws.NoClaimsWhileNotClaimed | controllers/cluster_controller.go:596-600 | in every run that keeps NotClaimDisk set no claim is ever created |
| ClusterPhaseLaws.ReservationRespected | controllers/cluster_controller.go:575-627 | from a new Cluster, no disk object matched by a successful reservation ever gives rise to a claim, through retries, restarts and disks deleted or created again, as long as nobody outside clears a reservation; and no claim precedes a reservation |
| ClusterPhaseLaws.ClaimingCompletes | controllers/cluster_controller.go:601-615 | in every run the worker gets past claiming only when every claim of its listing has been created |
| ClusterPhaseLaws.ClaimPassExactly | controllers/cluster_controller.go:601-615 | left alone and with every call succeeding, the claim pass reaches CreatedLDC if and only if no wanted claim name is taken and the wanted names differ |
| ClusterPhaseLaws.CountNeverLost | controllers/cluster_controller.go:540-541 | in every run the recorded DRBD count changes only when a handler records one or DRBD is disabled, despite stale copies and concurrent status writes |
| ClusterPhaseLaws.CountFromHandlers | controllers/cluster_controller.go:536-541 | in every run the stored count is the initial one, zero, or one in a handler's write of that run that the server accepted |
| ClusterClaims.CreatedMeansClaimed | controllers/cluster_controller.go:594-615 | in every run that asks for claims throughout, a Cluster found at CreatedLDC got there over a claiming listing of all disks, of which every available and unreserved one has a claim made for its node and type |
| ClusterClaims.OnlyAvailableClaimed | pkg/install/utils/autocreate_localdiskclaims.go:11-49 | in every run each claim made comes from a disk listed as available and unreserved, with its node, its type and the name made of both |
| ClusterInstall.NewClusterInstalls | controllers/cluster_controller.go:575-636 | over any disks there is a run with every call succeeding that takes a new Cluster to CreatedLDC, with exactly the disks its rules name reserved, nothing else about any disk changed, and the claims made |
| ClusterPhaseOutcomes.FailedCallEndsPass | controllers/cluster_controller.go:113-636 | a call of the worker that fails, or meets a changed or existing object, ends the pass |
| ClusterPhaseOutcomes.RefusedChangesNothing | controllers/cluster_controller.go:540-541 | a refused write leaves Cluster, disks and claims as they are |
| ClusterPhaseOutcomes.LostReplyTakesEffect | controllers/cluster_controller.go:540-541 | a write whose reply is lost leaves Cluster, disks and claims as a successful one |
| ClusterPhaseOutcomes.StatusWritesChecked | controllers/cluster_controller.go:625-636 | besides edits, the stored Cluster changes in its status alone, by the write of a copy that is not outdated |
| ClusterPhaseOutcomes.HandlerRecords | controllers/cluster_controller.go:719-724 | in every run an accepted handler write records its count and marks the adapters as created, and leaves the rest of the status |
| ClusterPhaseOutcomes.RestartReinstalls | controllers/cluster_controller.go:113-128 | after a restart the next pass removes the mark of the CRDs and ends, so that they are installed again |
| ClusterPhaseOutcomes.PassRecordsDrbd | controllers/cluster_controller.go:519-541 | in every run the status a pass writes marks the adapters as created just if DRBD is not disabled, and has no count if it is |
| ClusterPhaseOutcomes.InstalledWithCRDs | controllers/cluster_controller.go:113-147 | the worker gets past the CRDs only when they are installed and that is recorded |
| ClusterPhaseOutcomes.AdoptsLegacy | controllers/cluster_controller.go:575-578 | an unset phase with a legacy state is handled as that state |
| ClusterPhaseOutcomes.PhaseWaitsForHealth | controllers/cluster_controller.go:580-584 | in every run in which the components are never found healthy, a new Cluster stays before its first phase |
| ClusterPhaseOutcomes.ReservesFlagOnly | pkg/install/utils/disk_reserve.go:106-122 | in every run, whatever happens to disks between listing and reserving, the worker changes a disk only by setting the flag of one that a rule names |
| DrbdSettings.SettingsHistory | controllers/cluster_controller.go:519-530 | in every run masters take part if and only if some configuration handed over since the last restart asked for it, and the namespace is that of the last one handed over since |
| DrbdSettings.InForceExactly | controllers/cluster_controller.go:519-541 | in every run the Cluster's present configuration is in force if and only if it agrees with those handed over since the last restart |
| DrbdSettings.EditsTakeEffectExactly | controllers/cluster_controller.go:519-530 | between passes of any run, every possible edit would be in force after the next pass if and only if the adapters are not marked as created and nothing handed over since the last restart asked for masters |
| DrbdSettings.RestartForgets | pkg/install/drbd/drbd_adapter.go:60-85 | a run in which a new Cluster's request for masters is in force, and after a restart is not, with the adapters marked as created |
| DrbdSettings.DeletionHandsOver | controllers/cluster_controller.go:731-762 | the deletion of a job hands the stored configuration over unless DRBD is disabled or a count is recorded |
| DrbdSettings.FailedPassHandsOver | controllers/cluster_controller.go:519-530 | a pass that fails after its DRBD part has handed the configuration over, one that fails before it has not |
| DrbdAdapter.Adapter.CreateDRBDForNode | pkg/install/drbd/drbd_adapter.go:124-135 | a node of a supported system, and without either label where masters do not take part, gets one job for it in the configured namespace, another node none |
| DrbdAdapter.Adapter.CreateDRBDAdapter | pkg/install/drbd/drbd_adapter.go:108-122 | success, exactly when every creation succeeds, adds one job per eligible node, owned by the Cluster; a failure adds those of a prefix of the nodes |
| DrbdAdapter.EligibleExactly | pkg/install/drbd/drbd_adapter.go:415-441 | the nodes that need a job are those of a supported system that, where masters do not take part, carry neither the master nor the control-plane label |
| DrbdAdapter.JobsExactly | pkg/install/drbd/drbd_adapter.go:108-135 | exactly those nodes get a job each, in order, named after node, system and time |
| DrbdAdapter.IsJobComplete | controllers/cluster_controller.go:766-773 | true exactly when some condition says Complete is True |
| DrbdAdapter.CountJobs | controllers/cluster_controller.go:692-705 | the two counting loops record exactly when counted jobs reach eligible nodes |
| DrbdAdapter.CountedExactly | controllers/cluster_controller.go:687-698 | counted are the completed jobs of namespace hwameistor whose name begins with drbd-adapter, and no others |
| DrbdAdapter.Clusters.HandleDrbdJobUpdate | controllers/cluster_controller.go:677-728 | a completed job records the count, if it suffices, with the Cluster named by its first named owner, and changes nothing else; each way to fail is told apart from having nothing to do |
| DrbdQuorum.CountIsQuorum | controllers/cluster_controller.go:692-705 | for any jobs, with at most one counted job per eligible node, the count suffices if and only if every eligible node has one |
| DrbdQuorum.TwoNodesDone | controllers/cluster_controller.go:705-720 | a recorded count of two stands for completed jobs on two different nodes |
| DrbdQuorum.QuorumExactly | controllers/cluster_controller.go:687-705 | for the jobs of one creation, counted under any other nodes, settings and table: the count is right for all completions about the nodes now needing a job, if and only if the two sets of nodes and the namespace compare as stated |
| DrbdQuorum.AllJobsExactly | controllers/cluster_controller.go:687-705 | likewise, it is right about the nodes that got a job if and only if as many need one now and the namespaces agree or there are none |
| DrbdQuorum.NeverEarlyExactly | controllers/cluster_controller.go:687-705 | likewise, no count is recorded before every node that got a job is done, if and only if no fewer need one now; outside the counted namespace, if any needs one or none got one |
| DrbdSettings.NeverEarlyBetweenRestarts | controllers/cluster_controller.go:687-705 | over the same nodes, in every continuation without a restart after jobs were made, a count is recorded only when every node that got a job is done |
| DrbdSettings.QuorumAfterRestartExactly | controllers/cluster_controller.go:687-705 | after a restart the count is right for all completions if and only if no node is left to wait for, or the same nodes need a job as got one and the namespaces agree |
| DrbdSettings.RestartCountsEarly | controllers/cluster_controller.go:687-705 | three nodes whose jobs were made before a restart, and two completions that are recorded after it with a node not done |
| StorageClasses.GenerateNames | pkg/install/storageclass/storageclass.go:136-146 | the nested loops build the map of names, a later pool class of the same name winning |
| StorageClasses.NamesExact | pkg/install/storageclass/storageclass.go:136-146 | the base names are exactly the lowered classes of all pools, each standing for one of them |
| StorageClasses.LastPoolWins | pkg/install/storageclass/storageclass.go:136-146 | what stands for a name is the last pool class offered for it |
| StorageClasses.GenerateStorageClass | pkg/install/storageclass/storageclass.go:156-184 | the classes of every name, in whatever order the map is gone through |
| StorageClasses.ClassesCount | pkg/install/storageclass/storageclass.go:156-184 | the number of classes is the number of names times one plus each setting in use |
| StorageClasses.GeneratedClass | pkg/install/storageclass/storageclass.go:156-184 | each class carries an offered pool class that yields its base name; two replicas only in the high-availability class |
| StorageClasses.OfferedReads | pkg/install/storageclass/storageclass.go:36-51 | every offered pool class has a plain class of one replica, with one job done a convertible one of one replica, and with two a high-availability one of two replicas, with the fixed parameters |
| StorageClasses.OfferedIsServed | pkg/install/storageclass/storageclass.go:136-184 | every pool class on any node has all its classes generated |
| StorageClasses.ClassesDifferExactly | pkg/install/storageclass/storageclass.go:136-184 | the names of all classes generated for the nodes' pools are pairwise different if and only if no offered pool class reads as another with a suffix in use |
| StorageClasses.SsdClash | pkg/install/storageclass/storageclass.go:174-181 | two pool classes of one node for which two generated classes share a name |
| StorageClasses.StoredExact | pkg/install/storageclass/storageclass.go:96-105 | existing classes stay; a free name ends with the class of the first creation under it that is not refused, or stays free |
| StorageClasses.AllStoredExactly | pkg/install/storageclass/storageclass.go:96-105 | from any store and with any refusals, every generated class ends up stored as generated if and only if no offered pool classes clash and each class is there already or has a free name and a creation that is not refused |
| StorageClasses.StorageClassMaintainer.Ensure | pkg/install/storageclass/storageclass.go:59-108 | the classes for the recorded job count are created in some order, each call by itself succeeding or not, and with nothing in the way every offered pool class is served under the names and replicas that go with that count; a failed listing changes nothing; the shared template keeps everything but the Cluster's settings |
| ReplicatedVolumes.TwoReplicasNeedTwoNodes | pkg/install/storageclass/storageclass.go:79-93 | in every run, a two-replica class is generated from the stored count only if some handler's write that the server accepted recorded it while jobs had completed on two different nodes |

## Left out

- Object templates (volumes, probes, tolerations, affinity, the owner of a claim), generated deep copies, the defaulting functions and the other components' Ensure and Uninstall: constant data or single comparisons.
- The local-storage CSI controller: no convergence is claimed for it.
- JSON and YAML decoding, X.509 and PEM handling, the regular expressions of operating systems, CRD files, informers and logging: their results are parameters, or a failure of the step that uses them.
- The client's read cache: reads are linearizable, so a stale read of the Cluster or of a list is not captured.
- A restart of the operator in the certificate protocol: it is a new run from the secret left behind.
- Wall-clock time: a timer or a retry may come at any later step, and how long before expiry a renewal starts is not modelled.
- Recovery under failed reconciles of the DRBD part: jobs can be duplicated on a retry, so at most one counted job per node is a hypothesis of `CountIsQuorum`, `TwoNodesDone` and `TwoReplicasNeedTwoNodes`, and the exact conditions of `DrbdQuorum` are about the jobs of one creation.
- Defaulting by the API server: a server that fills in, say, a missing `fieldRef.apiVersion` of an extra environment entry would make the comparison at `pkg/install/localstorage/localstorage.go:560` differ on every pass.
- Clearing a reservation from outside: somebody who unsets Reserved on a disk object that stays takes it out of `ReservationRespected`. Deleting a reserved disk and creating it again is covered, as another object.
- Handing a configuration over and making its jobs is one step; another party changing the package's settings in between is not captured.
- Re-creation of a deleted DRBD job (its hand-over of the configuration is modelled), and the job template beyond name, namespace, owner and target node.
- The certificate and phase protocols are modelled on values, one step at a time, not as objects updated in place; a reconcile call is its CA step alone, and the phase worker's other components are one step that succeeds or fails.
- A DRBD configuration that leaves out the shipper or the node affinity: handing it over dereferences what is missing and ends the step.
- Lower-casing is that of ASCII letters.
- Expansion syntax: references are given as such, and the `$$` escape is not modelled.
- Pod status collection at the end of the local-storage Ensure, and the disk-node storage classes.
- Failing expiry reads in `DeadlinesCurrentExactly`: a failed read gives the fallback delay whatever is installed.
