# Verification of the MongoDB Kubernetes operator's algorithms

This project models the parts of the operator that are algorithms and protocols rather than plumbing, and proves what
they promise, in Dafny 4.11. `dafny verify dfyconfig.toml` checks everything.

The operator turns one custom resource into an *automation config* (which the agents in the pods fetch and apply), two
stateful sets, a service and some secrets. Its reconcile loop moves replica counts one step at a time, changes ports one
process at a time, orders its writes by the scaling direction, and gives the config a new version only when its contents
change. Agents and stateful set controllers act in their own time. None of these mechanisms means much alone; the main
results are about whole runs in which reconciles, agents, pods and user edits interleave, and in which any API call may
fail.

## Modules

| files | part of the operator |
|---|---|
| `Names`, `Versions`, `Config` | process names, semantic versions and their precedence, the config itself |
| `ConfigBuilder`, `ConfigBuilderProperties`, `ConfigContents` | the builder, its loops over slices and its version decision; names, ids, votes, and everything that a built config contains |
| `ConfigStore`, `ConfigStoreProperties`, `ConfigFcv` | merging an override, storing the config in a secret; versions and the feature compatibility version (FCV) over runs |
| `AgentReadiness`, `PortManager` | what the pods report, which port every process gets next, which ports the service shows |
| `Scale`, `Resource`, `Functions`, `Controller`, `Reconciler` | the scaling getters, the stages of a reconcile, the reconciler object |
| `Publication`, `Completion` | what a publication leaves in the secret, field by field in terms of the resource; what a reconcile that completes has seen and leaves behind |
| `Scaling`, `Runs`, `Ordering`, `Placement` | the four counters, runs of a cluster, the order of config and stateful set writes, and exactly which reconciles, edits and runs are safe |
| `PortProperties`, `PortProtocol`, `PortProgress`, `PortService`, `PortRuns` | the port change protocol: safety, progress, the service meanwhile, and how runs of the operator and its agents are runs of the protocol |
| `Base64`, `ScramCredentials`, `Secrets`, `Scram`, `ScramLogin` | SCRAM credentials against RFC 5802, their life in the secret store, and logging in with them |
| `AuthTypes`, `NormalizeName`, `Validation`, `UserConversion`, `Authentication`, `AuthenticationProperties`, `AuthenticationSecrets`, `AuthenticationPromise` | users and modes, their validation, enabling authentication, and what it leaves in the secret store |
| `NamedMerge`, `PodMerge` | merging lists of named items and lists of strings |
| `StateMachine` | the generic state machine with a saved state |
| `WitnessDeployment`, `WitnessRuns`, `WitnessPorts`, `WitnessConfigs`, `WitnessUsers` | inputs that the operator can receive, and runs from a new resource through clusters that a read can show, on which the code fails its promises |

Objects whose methods update fields are classes here (`Builder`, `ConfigSecret`, `ReplicaSetPortManager`,
`ReplicaSetReconciler`, `SecretStore`, `Auth`, `Machine`); each method is proved against a function of its inputs and the
old state, and the properties over runs are proved about those functions.

## Where the code does not do what is written about it

Each of these but the last is proved: first the exact condition, and then (the names that start with `Witness`) an input
or a run, which the operator can receive, on which it happens.

* Published members without a place in the stateful set. For every cluster in any state of scaling a reconcile keeps each
  published member placed exactly when it is safe (`Placement.ReconcileIsSafeExactly`), and a run with edits at any time
  does exactly when all its reconciles are (`Placement.RunIsPlacedExactly`). After runs
  without unsafe edits, so in any state of scaling, an edit makes the next reconcile unsafe in exactly four cases
  (`Placement.EditIsUnsafeExactly`):
  * raising the members while the first deployment is still under way: the counter is 0 until then, which makes the
    operator write the config first (`WitnessRuns.RaisingDuringDeploymentIsStuck`);
  * back to the counter while the stateful set has already shrunk, with the config written first;
  * back to the counter while the config already lists one more member, with the stateful set written first, as when the
    same edit changes the version (`WitnessRuns.BackDuringGrowthIsUnsafe`);
  * removing members while adding arbiters, before the config has let go of the member
    (`WitnessRuns.ShrinkingWhileAddingArbiters`).
* The edits of the first two cases are also, exactly, those after which the config waits for more pods than the stateful
  set is told to run (`Placement.EditWaitsInVainExactly`); in a run with allowed edits that never happens
  (`Placement.AllowedRunNeverWaitsInVain`). Unless somebody edits again it waits forever (`Placement.EditNeverFinishes`,
  `WitnessRuns.RaisingDuringDeploymentIsStuck`, `WitnessRuns.BackDuringShrinkIsStuck`).
* `Running` can be reported while the published config still has the wrong number of arbiters: whatever the counters, so
  after an edit at any time, exactly when they need more ready reconciles than the members and the arbiters of the
  stateful set do (`Scaling.RunningIsTruthfulExactly`, `WitnessPorts.RunningTooEarlyAfterEdit`). For an edit of a settled
  resource that is when it moves the members of an existing deployment by more than one and the arbiters by more than one
  (`Scaling.SettledRunningIsTruthfulExactly`, `WitnessPorts.RunningTooEarly`).
* A process can be built with port 0: exactly when the config has more arbiters than the arbiters' stateful set
  (`PortProperties.NoZeroPortExactly`), in terms of the counters `PortProperties.BuildsPortZeroExactly`. After an edit of
  settled arbiters that is when it removes arbiters and moves the members of an existing deployment by more than one
  (`PortProperties.EditBuildsPortZeroExactly`, `WitnessPorts.RemovedArbiterGetsPortZero`).
* The service misses a published port exactly when processes have two or more different ports besides the expected one
  (`PortService.ServiceCoversExactly`, `WitnessPorts.ThirdPortIsMissed`); the choice among them depends on Go's map order.
  `pkg/agent/replica_set_port_manager.go:24` says that the service shows both ports until the change is complete. It does
  so until the last port is published: the service covers every port on which a process still runs exactly when nobody
  runs on a port that is no longer published, so the last process to move is not covered
  (`PortService.ServiceCoversRunningExactly`, `WitnessPorts.LastProcessIsMissed`).
* A config can be stored with new contents under the old version: exactly when the build equals the stored config and
  the override changes it (`ConfigStoreProperties.SilentChangeExactly`, `WitnessConfigs.OverrideEditIsSilent`).
* A config without an FCV is published exactly when the spec has none, the version is malformed or below 3.4, and the
  published config holds none back (`ConfigFcv.NoFcvExactly`, `ConfigFcv.SupportedExactly`). After that every build of a
  spec without an FCV fails, whatever its version (`ConfigFcv.BuildsOnNoFcvExactly`, `ConfigFcv.NoFcvIsFinal`,
  `WitnessConfigs.UnsupportedPublishesOnce`).
* Member ids collide exactly with more than 100 data-bearing members and an arbiter
  (`ConfigBuilderProperties.IdsDistinctExactly`, `WitnessConfigs.HundredMembersAndAnArbiter`), and the limit of seven
  votes is exceeded exactly with more than seven arbiters (`ConfigBuilderProperties.VotesAreCapped`,
  `WitnessConfigs.EightArbitersVote`).
* The completeness check of stored credentials names one server key twice and never asks for the SHA-1 stored key
  (`Scram.CompletenessMissesOneKey`, `WitnessUsers.MissingStoredKeyGoesUnnoticed`).
* Validation accepts a user whose password is in the secret of its credentials. No call for such a user ever succeeds, and
  none writes, as long as nobody else puts complete credentials there (`Scram.SharedSecretNeverWorks`,
  `WitnessUsers.SharedSecretIsValidAndFails`). If somebody does, the first write loses the password
  (`Scram.SharedSecretLosesPassword`).
* `EnsureSecretWithKey` is documented to add a missing key, but adds it to missing secrets only
  (`Secrets.OfferIsTakenExactly`, `WitnessUsers.MissingKeyIsNotAdded`).
* Validation can never find a SCRAM user without a credentials secret name (`Validation.UserIsSoundExactly`,
  `WitnessUsers.NamelessUserIsValid`), and it rejects every second user of the external database as a name collision
  (`Validation.ExternalUsersCollide`, `WitnessUsers.TwoExternalUsersAreRejected`).
* `normalizeName` is documented to return a valid RFC 1123 name; exactly names without letter or digit, and names whose
  cut leaves a dash at the end, are not made valid (`NormalizeName.ConformsExactly`). Its caller puts the resource name in
  front, which leaves the second (`WitnessUsers.LongUserGetsInvalidName`).
* A state machine that completes its last state can only fail afterwards (`StateMachine.EmptyIsFinal`); which reconciles
  end a run like that is `StateMachine.EndsExactly`.
* The branch of `deployAutomationConfig` for an absent stateful set (`controllers/replica_set_controller.go:361-365`) tests
  an error that is already known to be nil. An absent stateful set is caught by the branch after it, with the same
  outcome, as `Controller.AfterPublishing` has it.

## Model

| member | source | states |
|---|---|---|
| Names.ProcessNameInjective | pkg/automationconfig/automation_config_builder.go:435-440 | two processes of one resource share a name only if ordinal and kind agree |
| Names.AllNamesDistinct | pkg/automationconfig/automation_config_builder.go:300-342 | the process names of one config are pairwise distinct |
| Names.NamedExactly | pkg/agent/agent_readiness.go:119-133 | a name belongs to a config exactly when its ordinal is below the count of its kind |
| Versions.FcvRoundTrip | pkg/util/versions/versions.go:10-21 | a published `x.y` read back as `x.y.0` gives the numbers it was formatted from |
| ConfigBuilder.ModifyProcesses | pkg/automationconfig/automation_config_builder.go:418-422 | a modification changes every process of the slice in place, each by itself |
| ConfigBuilder.Builder.SetFcvIfUpgradeIsHappening | pkg/automationconfig/automation_config_builder.go:223-248 | holds the FCV of the previous config when the version moves ahead of it, with both parse errors |
| ConfigBuilder.Builder.DecideFcv | pkg/automationconfig/automation_config_builder.go:251-291 | the FCV of the build, or the error; calling the upgrade check twice changes nothing |
| ConfigBuilder.Builder.BuildProcess | pkg/automationconfig/automation_config_builder.go:300-342 | name, host, version, arguments, agent settings and default port of the i-th process |
| ConfigBuilder.Builder.BuildMember | pkg/automationconfig/automation_config_builder.go:343-364 | id, horizons, votes, priority and options of the i-th replica set member |
| ConfigBuilder.Builder.FillSlices | pkg/automationconfig/automation_config_builder.go:300-364 | the loop fills both slices completely with processes and members in order |
| ConfigBuilder.Builder.ApplyModifications | pkg/automationconfig/automation_config_builder.go:418-422 | modifications apply in the order of registration |
| ConfigBuilder.Builder.Build | pkg/automationconfig/automation_config_builder.go:250-433 | the whole build, including the version rule and every error |
| ConfigBuilderProperties.ModificationsKeepSkeleton | pkg/automationconfig/automation_config_builder.go:418-422 | no modification touches names, hosts, FCV, topology, version list or version number |
| ConfigBuilderProperties.BuiltSkeleton | pkg/automationconfig/automation_config_builder.go:250-433 | a built config has the names, members and FCV asked for, and one version more exactly when its contents differ |
| ConfigBuilderProperties.IdSurvivesScaling | pkg/automationconfig/automation_config_builder.go:300-357 | equal process names have equal member ids, whatever the counts of two configs |
| ConfigBuilderProperties.IdsDistinctExactly | pkg/automationconfig/automation_config_builder.go:300-357 | ids are pairwise distinct exactly up to 100 data-bearing members, or without arbiters |
| ConfigBuilderProperties.VotesAreCapped | pkg/automationconfig/automation_config_builder.go:300-364 | min(7, members + arbiters) votes, all arbiters vote, voters are a prefix; the cap holds exactly up to seven arbiters |
| ConfigContents.BuiltExactly | pkg/automationconfig/automation_config_builder.go:250-433 | every member, process, argument, section and version of a successful build, with the modifications in their order |
| ConfigStore.MergeAutomationConfigs | pkg/util/merge/merge_automationconfigs.go:9-40 | the last override of a name decides its first process; everything else is unchanged |
| ConfigStore.ConfigSecret.EnsureSecret | pkg/automationconfig/automation_config_secret.go:31-67 | writes exactly when contents differ or nothing is stored, and returns what is then stored |
| ConfigStoreProperties.MergeKeeps | pkg/util/merge/merge_automationconfigs.go:35-40 | an override changes no name, port, FCV or argument, and nothing outside the processes |
| ConfigStoreProperties.MergeIdempotent | pkg/util/merge/merge_automationconfigs.go:9-40 | merging an override twice is merging it once |
| ConfigContents.MergedExactly | pkg/util/merge/merge_automationconfigs.go:9-40 | the first process of a name takes disabled flag and log rotation of the last override of that name |
| ConfigStoreProperties.PublishedTopology | controllers/replica_set_controller.go:508-515 | a successful publication stores a config with the names and counts asked for; a failed one stores nothing |
| ConfigStoreProperties.PublishedPorts | controllers/replica_set_controller.go:508-515 | a publication changes ports only together with the version |
| ConfigStoreProperties.PassBumpsVersion | pkg/automationconfig/automation_config_builder.go:386-432 | with the run's override, a pass writes new contents under the next version or writes nothing |
| ConfigStoreProperties.VersionCountsWrites | pkg/automationconfig/automation_config_secret.go:31-67 | over every run with a fixed override the stored version is the number of writes |
| ConfigStoreProperties.WritesExactlyOnChange | pkg/automationconfig/automation_config_secret.go:44-61 | in such a run a pass writes exactly when it changes what is stored |
| ConfigStoreProperties.SilentChangeExactly | pkg/automationconfig/automation_config_builder.go:424-430 | contents change under the old version exactly when the build equals the stored config and the override changes it |
| ConfigFcv.SupportedExactly | pkg/util/versions/versions.go:10-21 | a version has a series of its own exactly when it is well-formed and not before 3.4.0 |
| ConfigFcv.FcvTakesTheLesser | pkg/automationconfig/automation_config_builder.go:223-248 | one version change leaves the lesser of the published series and the new one |
| ConfigFcv.FcvIsLeastSeries | pkg/automationconfig/automation_config_builder.go:223-291 | over every run of supported versions, any publication of which may fail, the published FCV is the least series of all versions published |
| ConfigFcv.NoFcvExactly | pkg/automationconfig/automation_config_builder.go:251-291 | from which inputs a build succeeds without an FCV |
| ConfigFcv.BuildsOnNoFcvExactly | pkg/automationconfig/automation_config_builder.go:223-291 | on top of a config without an FCV a build succeeds exactly when the spec has a valid one |
| ConfigFcv.NoFcvIsFinal | pkg/automationconfig/automation_config_builder.go:223-291 | once a config without an FCV is published, nothing is published while the spec has none |
| ConfigFcv.FcvFixpoint | pkg/automationconfig/automation_config_builder.go:223-291 | building the same version again decides on the same FCV, exactly unless the first build published none |
| AgentReadiness.StatefulSetPodNames | pkg/agent/agent_readiness.go:119-133 | pod names equal the process names of the builder |
| AgentReadiness.GetAllDesiredMembersAndArbitersPodState | pkg/agent/agent_readiness.go:67-100 | one state per desired pod, members first; fails exactly when a pod read fails |
| AgentReadiness.PodStatesExactly | pkg/agent/agent_readiness.go:67-133 | the state of each desired pod: its name and kind, whether it exists, and whether its agent has reported the version |
| AgentReadiness.AllReachedGoalState | pkg/agent/agent_readiness.go:31-62 | true exactly when the agents of all desired data-bearing pods have reported the version, or none of these pods exists; fails exactly when one cannot be read |
| PortManager.ReplicaSetPortManager.FindUnexpectedPort | pkg/agent/replica_set_port_manager.go:106-117 | finds an unexpected port exactly when there is one, in any map order |
| PortManager.ReplicaSetPortManager.MoveOnePort | pkg/agent/replica_set_port_manager.go:119-146 | the first pending process moves, and only when every agent is at goal |
| PortManager.ReplicaSetPortManager.CalculateExpectedPorts | pkg/agent/replica_set_port_manager.go:91-147 | the port map, whether a change is pending, and a port some pending process still has |
| PortManager.ReplicaSetPortManager.GetServicePorts | pkg/agent/replica_set_port_manager.go:53-77 | one service port, or during a change the expected one and an unexpected one |
| Functions.RunStopsAtFirstUnready | pkg/util/functions/functions.go:7-38 | any number of stages: those before the first unready one ran in order, each from where the last one ended, and none after it |
| Reconciler.ReplicaSetReconciler.EnsureAutomationConfig | controllers/replica_set_controller.go:508-515 | reads, builds, merges and stores the config, with every error |
| Reconciler.ReplicaSetReconciler.DeployAutomationConfig | controllers/replica_set_controller.go:349-382 | publishes and then waits for the agents of the pods that stay |
| Reconciler.ReplicaSetReconciler.DeployStatefulSet | controllers/replica_set_controller.go:324-345 | writes both stateful sets and reports readiness |
| Reconciler.ReplicaSetReconciler.RunStages | controllers/replica_set_controller.go:426-434 | runs the two stages in order or reversed, stopping at the first that is not ready |
| Reconciler.ReplicaSetReconciler.Complete | controllers/replica_set_controller.go:203-256 | resets the update strategy, then moves counters, phase and version annotation |
| Reconciler.ReplicaSetReconciler.Reconcile | controllers/replica_set_controller.go:123-256 | the whole reconcile as a step of the cluster |
| Scaling.CountersAfter | api/v1/mongodbcommunity_types.go:867-902 | the four counters after n ready reconciles in closed form |
| Scaling.ReachesTargetExactly | pkg/util/scale/scale.go:13-34 | all counters equal the spec from exactly the needed number of ready reconciles on, for good |
| Scaling.StepsNeededBound | api/v1/mongodbcommunity_types.go:1131-1145 | that number is at most the member distance plus the greater arbiter distance |
| Scaling.RunningIsTruthfulExactly | controllers/replica_set_controller.go:210-229 | for which counters every Running report of the following ready reconciles is truthful |
| Scaling.SettledRunningIsTruthfulExactly | controllers/replica_set_controller.go:210-229 | for which edits of a settled resource that is |
| Runs.ReconcileMovesCounters | controllers/replica_set_controller.go:210-229 | a reconcile leaves the counters alone or moves all of them as the getters say |
| Runs.MemberCountersAgree | api/v1/mongodbcommunity_types.go:880-885 | in every run the two member counters agree and never return to zero |
| Runs.CountersMoveOneStep | pkg/util/scale/scale.go:13-46 | they move by at most one towards the spec; config arbiters wait for the member target |
| Runs.CountersCountCompletions | controllers/replica_set_controller.go:203-256 | in every run without edits the counters are those after as many ready reconciles as were completed |
| Runs.TargetIsReachedExactly | pkg/util/scale/scale.go:13-34 | in such a run all counters equal the spec from exactly the needed number of completed reconciles on |
| Runs.ShownRunningIsTruthful | controllers/replica_set_controller.go:203-256 | in every run without edits from such counters a resource that shows Running has all counters at its spec, whatever fails |
| Ordering.StagesKeepOrder | controllers/replica_set_controller.go:426-434 | the ordering invariant holds after each stage; two ready stages reach this reconcile's target |
| Ordering.ReconcileKeepsOrder | controllers/replica_set_controller.go:123-256 | the invariant holds at every moment of a reconcile, whatever fails |
| Ordering.ReconcilePublishesExactly | controllers/replica_set_controller.go:426-434 | a reconcile publishes exactly once when it gets to its config stage, from the resource and pods it started with, and never otherwise |
| Publication.PublishedIsAskedFor | controllers/replica_set_controller.go:508-598 | after every successful publication the secret holds what the resource asks for: members with kind, id, votes and options, processes with arguments, version and override, and all sections |
| Completion.StsStageWrites | controllers/replica_set_controller.go:324-345 | what both stateful sets are told, and when that is a new generation |
| Completion.StsStageReadyExactly | pkg/kube/statefulset/statefulset.go:173-178 | ready exactly when no call fails and the version changes, or all replicas are updated and ready under an observed generation |
| Completion.ConfigStageReadyExactly | controllers/replica_set_controller.go:349-382 | ready exactly when the config was published and all agents have reported it, or there is nobody to wait for |
| Completion.ConfigIsFirstExactly | controllers/replica_set_controller.go:386-421 | in which cases the config is written first, with and without TLS |
| Completion.UnpreparedReconcile | controllers/replica_set_controller.go:144-193 | a reconcile that does not get to its stages changes nothing but the phase |
| Completion.UnreadyReconcile | controllers/replica_set_controller.go:195-206 | a reconcile that fails or has to wait reports that and keeps the counters |
| Completion.UnfinishedReconcile | controllers/replica_set_controller.go:208-236 | two ready stages without the end: Failed if the strategy cannot be reset, nothing shown if the status cannot be written |
| Completion.CompletedExactly | controllers/replica_set_controller.go:208-256 | a reconcile that completes leaves stateful sets and config at the counts that its status shows, Running exactly if these are those of the spec, and no stateful set on-delete |
| Completion.StrategyIsReset | controllers/replica_set_controller.go:208-213 | the end of a reconcile changes the update strategy of the stateful set and nothing else |
| Completion.CompletionSawReadySts | controllers/replica_set_controller.go:324-345 | outside a version change it has read a stateful set of that size with all replicas updated and ready |
| Completion.CompletionSawAgents | controllers/replica_set_controller.go:349-382 | and the agents of all its pods have reported the config that is then stored, or no pod exists |
| Completion.NewlyRunningSawReady | controllers/replica_set_controller.go:123-256 | both over every run from a new resource, whenever Running is newly reported |
| Ordering.ConfigStaysWithinStatefulSet | controllers/replica_set_controller.go:324-434 | in every allowed run, at every moment, no published data-bearing process lacks a place in the stateful set |
| Ordering.ShrinksOnlyAfterGoal | controllers/replica_set_controller.go:349-382 | the stateful set shrinks only when the agents of all remaining pods have reported the config that dropped the member, or none of these pods exists |
| Placement.ReconcileIsSafeExactly | controllers/replica_set_controller.go:324-434 | in any state of scaling, every moment of a reconcile keeps each published member placed exactly when it has room for what it publishes, or publishes nothing beyond what it shrinks to |
| Placement.EditIsUnsafeExactly | controllers/replica_set_controller.go:386-421 | the four cases in which an edit, in any state of scaling, makes the next reconcile unsafe |
| Placement.EditIsSafeExactly | controllers/replica_set_controller.go:386-421 | the next reconcile after an edit keeps every published member placed exactly when it is safe |
| Placement.SettledEditIsSafeExactly | controllers/replica_set_controller.go:386-421 | for settled members: exactly unless the edit removes members while it adds arbiters |
| Placement.RunIsPlacedExactly | controllers/replica_set_controller.go:123-256 | over all runs from a fresh resource, with edits at any time: no published member ever lacks its place exactly when all reconciles are safe |
| Placement.AllowedRunNeverWaitsInVain | controllers/replica_set_controller.go:349-382 | in a run with allowed edits the config never waits for more pods than the stateful set is told to run |
| Placement.EditWaitsInVainExactly | controllers/replica_set_controller.go:349-382 | after which edits the config waits for more pods than the stateful set is told to run |
| Placement.ShrinkingLeavesCounterBehind | controllers/replica_set_controller.go:324-345 | every shrinking step passes through a cluster whose stateful set has one replica less than its counter says |
| Placement.StuckNeverFinishes | controllers/replica_set_controller.go:349-382 | a config that waits for such a pod waits forever, whatever fails and whatever the agents report |
| Placement.EditNeverFinishes | controllers/replica_set_controller.go:349-382 | every edit after which the config waits for more pods than the stateful set is told to run leads there, with the pods as the stateful set has them |
| WitnessDeployment.DeploymentSettles | controllers/replica_set_controller.go:123-256 | from every new resource with an FCV and without arbiters two reconciles can lead to a healthy cluster |
| WitnessRuns.RaisingDuringDeploymentIsStuck | controllers/replica_set_controller.go:386-421 | a run from a new resource whose members are raised too early to a cluster that never finishes |
| WitnessRuns.BackDuringShrinkIsStuck | controllers/replica_set_controller.go:386-421 | a run from a new resource to a cluster that never finishes |
| WitnessRuns.BackDuringGrowthIsUnsafe | controllers/replica_set_controller.go:386-421 | a run from a new resource after which the stateful set shrinks under a config that still lists the member |
| PortProperties.BuiltPorts | pkg/agent/replica_set_port_manager.go:38-47 | the port map alone decides every port; a missing name means port 0 |
| PortProperties.NoZeroPortExactly | pkg/agent/replica_set_port_manager.go:38-47 | no process is built with port 0 exactly when the config has no more arbiters than their stateful set |
| PortProperties.BuildsPortZeroExactly | pkg/agent/replica_set_port_manager.go:38-47 | the same in terms of the counters, whatever they are |
| PortProperties.EditBuildsPortZeroExactly | pkg/agent/replica_set_port_manager.go:38-47 | after which edits of settled arbiters the next config has a process on port 0 |
| PortProperties.ProcessPortsAreNext | pkg/agent/replica_set_port_manager.go:91-147 | for a resource that aims at its spec the port map is the published ports with at most the first unexpected one moved |
| PortProperties.PublicationMovesOnePort | controllers/replica_set_controller.go:466-515 | one publication moves at most one port, and then the version |
| PortProtocol.ReconcileIsOnePublication | controllers/replica_set_controller.go:123-256 | a whole reconcile is one publication of the protocol, or leaves the config alone |
| PortProtocol.AtGoalMeansInStep | pkg/agent/agent_readiness.go:104-115 | when every agent is seen at goal, none runs or will apply another port |
| PortProtocol.RunKeepsInv | pkg/agent/replica_set_port_manager.go:91-147 | the protocol invariant over every interleaving, from nothing published or from rest |
| PortProtocol.AtMostOneDiffers | pkg/agent/replica_set_port_manager.go:91-147 | in every interleaving at most one process runs on a port other than the published one |
| PortRuns.RunIsProtocolRun | controllers/replica_set_controller.go:123-256 | every run of the operator and its agents in which the counts stay is a run of the protocol, with the same config and agents |
| PortRuns.AtMostOneRunsElsewhere | pkg/agent/replica_set_port_manager.go:91-147 | from the creation of a resource on, in every such run, at most one process runs on a port other than the published one |
| PortRuns.ServiceCoversProcessesExactly | pkg/agent/replica_set_port_manager.go:24-77 | in such a run, if another port is asked for only at rest, the service covers every running port exactly when nobody runs on a port that is no longer published |
| PortProgress.PublicationIsUpToDate | pkg/automationconfig/automation_config_builder.go:386-432 | what is stored is what the resource asks for, exactly when it carries an FCV |
| PortProgress.PublicationIsInUseExactly | pkg/automationconfig/automation_config_builder.go:386-432 | what a publication stores, on top of nothing or of any config, is in use exactly when it carries an FCV |
| PortProgress.PortEditKeepsInUse | pkg/agent/replica_set_port_manager.go:91-104 | a config in use stays in use when another port is asked for, and the processes not on it become the pending ones |
| PortProgress.ServingReconcile | controllers/replica_set_controller.go:123-256 | a whole reconcile moves one pending port under the next version when it publishes with every agent at goal, and otherwise leaves the config alone |
| PortProgress.ChangeTakesOneGoalReconcilePerPort | pkg/agent/replica_set_port_manager.go:106-146 | over every run of the cluster without edits: each reconcile at goal moves one of the k pending processes and bumps the version, until none is left; no other reconcile writes the config |
| PortProgress.PortEditTakesOneGoalReconcilePerProcess | pkg/agent/replica_set_port_manager.go:106-146 | the same for the edit of the port of a cluster that serves, at any moment |
| PortProgress.SettledReconcilesPublish | controllers/replica_set_controller.go:386-421 | with settled counters, TLS off and no version change every reconcile that proceeds and can read the stateful set publishes |
| PortService.MayShowExactly | pkg/agent/replica_set_port_manager.go:53-77 | which service ports a published config allows |
| PortService.ServiceCoversExactly | pkg/agent/replica_set_port_manager.go:53-77 | every choice covers all published ports exactly when there is at most one unexpected port |
| PortService.ServiceCoversBeforeAndAfter | pkg/agent/replica_set_port_manager.go:53-147 | in runs that ask for a new port only at rest, the service covers the ports before and after each reconcile |
| PortService.ServiceCoversRunningExactly | pkg/agent/replica_set_port_manager.go:24-77 | in such runs every port on which a process runs is covered exactly when nobody runs on a port that is no longer published |
| WitnessPorts.LastProcessIsMissed | pkg/agent/replica_set_port_manager.go:24-77 | a run from a new resource, edited at rest, after which the service misses the process that has not moved yet |
| Base64.RoundTrip | pkg/authentication/scramcredentials/scram_credentials.go:142-156 | what was encoded decodes to itself |
| Base64.EncodesVectors | pkg/authentication/scramcredentials/scram_credentials.go:142-156 | the encoding is the standard one, by the vectors of section 10 of RFC 4648 |
| ScramCredentials.HmacIteration | pkg/authentication/scramcredentials/scram_credentials.go:64-99 | the in-place loop computes Hi() of section 2.2 of RFC 5802 for every count, or rejects the salt's size |
| ScramCredentials.GenerateSecrets | pkg/authentication/scramcredentials/scram_credentials.go:118-140 | StoredKey and ServerKey of section 3 of RFC 5802 |
| ScramCredentials.ComputeScramCredentials | pkg/authentication/scramcredentials/scram_credentials.go:142-166 | the credentials for an encoded salt |
| ScramCredentials.ComputeScramShaCredentials | pkg/authentication/scram/scram.go:182-194 | both credentials of a user, the SHA-1 ones from the digested password |
| ScramCredentials.PasswordAuthenticates | pkg/authentication/scramcredentials/scram_credentials.go:101-166 | who knows the password is accepted against the stored credentials, and can recognise the server |
| ScramCredentials.CredentialsExistExactly | pkg/authentication/scramcredentials/scram_credentials.go:51-72 | credentials exist exactly for a preparable password and a salt of the demanded size |
| Secrets.SecretStore.CreateOrUpdate | pkg/kube/secret/secret.go:101-110 | the secret holds exactly the new data, or nothing changed |
| Secrets.SecretStore.EnsureSecretWithKey | pkg/kube/secret/secret.go:125-144 | returns the existing field or creates the secret |
| Secrets.EnsuredValueIsKept | pkg/kube/secret/secret.go:125-144 | the first ensured value is returned ever after, and nothing is written again |
| Scram.NeedToGenerateNewCredentials | pkg/authentication/scram/scram.go:124-164 | whether the password would give other credentials with the stored salts |
| Scram.GenerateAndStore | pkg/authentication/scram/scram.go:168-211 | new credentials are stored and returned, or nothing changed |
| Scram.EnsureScramCredentials | pkg/authentication/scram/scram.go:80-120 | the whole decision, with every error |
| Scram.ComputedPairMatches | pkg/authentication/scram/scram.go:140-164 | computed credentials are found unchanged when computed again from their stored salts |
| Scram.EstablishedIsReused | pkg/authentication/scram/scram.go:80-120 | established credentials are returned without writing |
| Scram.SuccessEstablishes | pkg/authentication/scram/scram.go:80-120 | a call that succeeds establishes what it returns |
| Scram.SuccessBelongsToPassword | pkg/authentication/scram/scram.go:80-120 | with the password at hand the result are credentials of that password |
| ScramLogin.SuccessLogsIn | pkg/authentication/scramcredentials/scram_credentials.go:39-166 | with the password at hand the result lets a SCRAM-SHA-1 client with the digest of name and password in, and a SCRAM-SHA-256 client with the password |
| ScramLogin.FirstCallExactly | pkg/authentication/scram/scram.go:80-211 | when the first call for a user succeeds, and which fields it stores |
| ScramLogin.CallWithoutPasswordExactly | pkg/authentication/scram/scram.go:80-240 | what a call returns when the password secret is gone |
| Scram.CredentialsAreStable | pkg/authentication/scram/scram.go:80-240 | in every run with an unchanged or deleted password, all successful calls return one pair and later ones write nothing |
| Scram.WrittenAtMostOnce | pkg/authentication/scram/scram.go:80-240 | in such a run no two calls write |
| Scram.SharedSecretNeverWorks | pkg/authentication/scram/scram.go:80-147 | with one secret for both and no complete credentials in it, no call of any run succeeds or writes |
| Scram.SharedSecretLosesPassword | pkg/authentication/scram/scram.go:80-120 | if complete credentials were put there by hand, the call after a write fails |
| NormalizeName.ConformsExactly | api/v1/mongodbcommunity_types.go:538-559 | for which names the result is a valid RFC 1123 subdomain |
| NormalizeName.NormalizedExactly | api/v1/mongodbcommunity_types.go:538-559 | a name that is not valid becomes its words in lower case with a dash between each two, cut to 253 characters |
| AuthTypes.GetAuthOptions | api/v1/mongodbcommunity_types.go:736-768 | the options, with the mechanism of every mode and the agent's one |
| AuthTypes.GetAuthUsers | api/v1/mongodbcommunity_types.go:772-810 | every user of the spec in order, with its secret names and connection string settings; external ones without password and credentials |
| AuthenticationPromise.UserOfSpec | api/v1/mongodbcommunity_types.go:772-810 | every field of the user that a user of the spec becomes |
| AuthTypes.AgentModeIsOpenExactly | api/v1/mongodbcommunity_types.go:843-859 | for which modes the agent mode is left open |
| Validation.ValidateUsers | controllers/validation/validation.go:54-139 | accepts exactly sound users with distinct secret names, and which error is reported |
| Validation.ValidateAuthModeSpec | controllers/validation/validation.go:154-187 | accepts exactly known, unrepeated modes with the agent's mode among them |
| Validation.UserIsSoundExactly | controllers/validation/validation.go:98-127 | which of the user checks can fail for users of a spec |
| Validation.ExternalUsersCollide | controllers/validation/validation.go:86-96 | a valid spec has at most one user of the external database |
| AuthenticationPromise.ValidModesExactly | controllers/validation/validation.go:154-187 | which modes and agent modes are accepted, in terms of their labels |
| AuthenticationPromise.ValidUsersExactly | controllers/validation/validation.go:54-139 | which users are accepted, in terms of the spec |
| AuthenticationPromise.ReportedProblemExactly | controllers/validation/validation.go:98-127 | which problem is reported about a user |
| UserConversion.ConvertScramUsers | pkg/authentication/scram/scram.go:243-279 | the exact users, store and error of the conversion, which stops at the first failure |
| UserConversion.ConversionEstablishes | pkg/authentication/scram/scram.go:243-279 | a conversion that succeeds lists every SCRAM user once, in order, each with credentials that are still stored at the end |
| UserConversion.ConversionSucceedsExactly | pkg/authentication/scram/scram.go:243-255 | it succeeds exactly when the call for each SCRAM user does, on the store that the calls before it leave |
| UserConversion.FailedConversionExactly | pkg/authentication/scram/scram.go:243-255 | a conversion that fails reports its first failure and keeps what the calls before it have stored |
| UserConversion.ConversionWritesOwnSecrets | pkg/authentication/scram/scram.go:168-211 | no other secrets are written than the credentials of these users |
| UserConversion.OtherUsersStayEstablished | pkg/authentication/scram/scram.go:243-255 | a call for one user leaves the credentials of the others alone |
| UserConversion.ConvertExternalUsers | pkg/authentication/x509/x509.go:75-102 | every external user once, in order |
| Authentication.Auth.EnsureScramAgent | pkg/authentication/scram/scram.go:52-76 | password and keyfile are read back from their secrets or generated into them, then the agent is configured with them; the whole store and every error |
| Authentication.Auth.EnsureX509Agent | pkg/authentication/x509/x509.go:45-72 | the same with the keyfile and the subject of the certificate in the agent's certificate secret |
| Authentication.Auth.EnableScram | pkg/authentication/scram/scram.go:35-50 | the exact section, store and error after users, agent and clients |
| Authentication.Auth.EnableX509 | pkg/authentication/x509/x509.go:31-43 | the exact section, store and error after users, agent and clients |
| Authentication.Auth.Enable | pkg/authentication/authentication.go:18-36 | the exact section, store and error of the pass over the mechanisms; SCRAM is configured once and the first failure ends it |
| AuthenticationProperties.KindsPartitionUsers | pkg/authentication/scram/scram.go:245-253 | SCRAM and external users together are all users |
| AuthenticationProperties.SoundOptionsAreEnabled | pkg/authentication/authentication.go:18-36 | the promise below, for any sound options and users |
| AuthenticationProperties.ValidatedSpecIsEnabled | pkg/authentication/authentication.go:18-36 | for a validated spec every user is listed once, exactly its mechanisms are deployed, and the agent's mechanism is one of them |
| AuthenticationSecrets.ScramAgentIsFoundExactly | pkg/authentication/scram/scram.go:52-76 | which failures and missing secrets decide whether the agent's password and keyfile are found |
| AuthenticationSecrets.ValidatedSpecCanLogIn | pkg/authentication/authentication.go:18-36 | besides that, every SCRAM user is listed with credentials that are in the store, and the agent's part of the section is what its secrets hold |
| AuthenticationPromise.ValidSpecIsHonoured | pkg/authentication/authentication.go:18-36 | for a valid spec every user is listed with database and roles, every user with a password can log in with it, exactly the mechanisms of the modes are deployed, and the agent is configured with what its secrets hold |
| NamedMerge.SortedIsUnique | pkg/util/merge/merge.go:281-285 | strictly sorted lists with the same contents are equal |
| NamedMerge.NamesAreUnion | pkg/util/merge/merge.go:259-285 | the names of a merge are the names of both lists |
| NamedMerge.MergeIsAssociative | pkg/util/merge/merge.go:259-335 | merging by name is associative when combining two items is |
| NamedMerge.MergeIsIdempotentExactly | pkg/util/merge/merge.go:259-335 | when merging the same override again changes nothing |
| NamedMerge.SortByName | pkg/util/merge/merge.go:331-333 | strictly sorted, with the same items |
| NamedMerge.MergeThroughMap | pkg/util/merge/merge.go:308-335 | the one merge of the two lists, in whatever order the maps are visited |
| NamedMerge.MergeByLookup | pkg/util/merge/merge.go:397-422 | the same, by appending |
| NamedMerge.MergedItemExactly | pkg/util/merge/merge.go:259-335 | an item of both lists is the combination of their last items of that name, another one the last item of its list |
| PodMerge.EnvsAreAssociative | pkg/util/merge/merge.go:308-349 | associative for all lists |
| PodMerge.EnvsAreIdempotentExactly | pkg/util/merge/merge.go:337-349 | idempotent in the override exactly when no variable that only the override has sets both value and reference |
| PodMerge.OverriddenEnvIsUnambiguous | pkg/util/merge/merge.go:337-349 | an overridden variable has what the override sets and nothing else |
| PodMerge.MergedEnvExactly | pkg/util/merge/merge.go:337-349 | a variable of both lists has what the override sets, and the original if it sets nothing |
| PodMerge.VolumeDevicesAreAssociative | pkg/util/merge/merge.go:259-304 | associative for all lists |
| PodMerge.VolumeDevicesAreIdempotent | pkg/util/merge/merge.go:295-304 | idempotent in the override |
| PodMerge.MergedDeviceExactly | pkg/util/merge/merge.go:295-304 | a device of both lists has the path of the override, if there is one |
| PodMerge.ContainerPortsAreAssociative | pkg/util/merge/merge.go:374-422 | associative for all lists |
| PodMerge.ContainerPortsAreIdempotent | pkg/util/merge/merge.go:374-392 | idempotent in the override |
| PodMerge.MergedPortExactly | pkg/util/merge/merge.go:374-392 | every field of a port of both lists is that of the override, if it is set there |
| PodMerge.UnionExtends | pkg/util/merge/merge.go:13-22 | the first list is kept as it is, and no duplicate is added |
| PodMerge.UnionIsAssociative | pkg/util/merge/merge.go:13-22 | associative for all lists |
| StateMachine.Machine.AddTransition | pkg/util/state/statemachine.go:161-174 | appends the transition and registers both states |
| StateMachine.Machine.DetermineState | pkg/util/state/statemachine.go:140-151 | the state of the saved name, or which of the errors |
| StateMachine.Machine.GetTransitionForState | pkg/util/state/statemachine.go:178-186 | the first open transition from a state |
| StateMachine.Machine.Reconcile | pkg/util/state/statemachine.go:90-136 | one reconcile, with every error |
| StateMachine.RegisteredIsLog | pkg/util/state/statemachine.go:161-174 | the registered map of lists is the log of registrations by name |
| StateMachine.EntersThenReconciles | pkg/util/state/statemachine.go:90-136 | a state is entered first and then reconciled in the world that entering leaves; the first failure is reported |
| StateMachine.ReconcileMoves | pkg/util/state/statemachine.go:90-136 | the saved name moves only after completion, along the first registered open transition or to nothing |
| StateMachine.SavedIsKnownOrEmpty | pkg/util/state/statemachine.go:90-151 | in every run the saved name is known or empty |
| StateMachine.EmptyIsFinal | pkg/util/state/statemachine.go:140-151 | after the last state every reconcile fails |
| StateMachine.EndsExactly | pkg/util/state/statemachine.go:104-131 | when a run comes to its end |

## Hypotheses

* Reconciles of one resource are serial and read the cluster atomically; agents, pods and stateful set controllers act
  at any time between them, and any API call may fail.
* `Ordering`, `Placement`: valid counts, TLS off, no custom replica count. `Ordering.ConfigStaysWithinStatefulSet` is about
  edits before the first deployment or of settled members; `Placement` decides all other edits.
* `PortProtocol`, `PortProgress`, `PortService`, `PortRuns`: the counts of the spec stay, and the reconciles deploy all of
  them, as they do from the creation of a resource with at most one arbiter on, and after any change of the counts. An
  agent reports a version only after applying it.
* `ConfigStoreProperties`: the override is fixed over the run for the version count.
* `Scram`, `AuthenticationSecrets`: passwords, credentials and the agent's secrets are in different secrets, where a result
  says so; validation does not check that.

## Left out

- Kubernetes client, watches, logging, contexts, owner references and environment variables: I/O and wrappers; the store
  is a map, and faults are inputs.
- Cryptographic primitives, SASLprep, UTF-8, certificate parsing and random generation: function and value parameters.
- JSON encoding of the config: equality of configs is equality of contents; ports are integers, while JSON reads them
  back as floating point numbers that the source converts.
- The version library is not part of this model: `Versions.Make` and `Versions.Later` follow the grammar and the precedence
  of Semantic Versioning 2.0.0, sections 2 and 9 to 11, with numbers of 64 bits.
- Parsing of the pod annotation: a pod reports a version number or none.
- Aliasing of process argument maps inside one build: the builder never shares a map between two processes.
- The builder's setters: their values are gathered in one `Settings` value, as nothing happens between setting and
  building; top-level sections without structure of their own are strings.
- Fields of a process that are constants.
- The service object and the TLS and user resources as such: each is one step of a reconcile that may fail or, for an
  incomplete TLS configuration, has to be retried.
- TLS-enabled ordering and runs with a custom replica count: other branches are taken there, modelled in
  `Controller.ShouldRunInOrder` but without the placement result.
- Port changes while the counts change: the protocol results are about runs between such changes.
- Override edits in the version count; `ConfigStoreProperties.SilentChangeExactly` says what they do.
- The readiness probe's shortcut that reports the target version without plans.
- Users deleted from the spec, the connection strings themselves, Prometheus and roles: set differences and formatting.
- Merges of containers, probes, security contexts, pod templates: field-by-field copying. Merges of volumes and volume
  mounts: not associative, and keyed by a joined string.
- Sorting itself is a library function in the source; here it is an insertion sort, of which only the result matters.
