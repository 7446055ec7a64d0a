/** The reconciler object, method by method, proved against the cluster functions of `Controller`. */
module Reconciler {
  import opened AgentReadiness
  import opened ConfigBuilder
  import opened Config
  import opened ConfigStore
  import opened Controller
  import opened Functions
  import opened PortManager
  import opened Resource
  import opened Wrappers

  class ReplicaSetReconciler {
    var mdb: Resource
    var sts: Option<StatefulSet>
    var arbiterSts: Option<StatefulSet>
    const store: ConfigSecret
    const pods: Pods

    constructor (mdb: Resource, store: ConfigSecret, pods: Pods)
      ensures this.mdb == mdb && this.store == store && this.pods == pods && sts == None && arbiterSts == None
    {
      this.mdb, this.store, this.pods := mdb, store, pods;
      this.sts, this.arbiterSts := None, None;
    }

    function State(): World
      reads this, store
    {
      World(store.secret, sts, arbiterSts, pods)
    }

    /** The ports for the config that is about to be built on `current`. */
    method CalculateProcessPorts(current: AutomationConfig) returns (r: Result<map<string, int>, PodError>)
      requires ValidCounts(mdb.spec)
      ensures r.Ok? <==> PortInputsReadable(mdb, pods)
      ensures r.Ok? ==> r.value == ProcessPorts(mdb, current, pods)
    {
      var states := GetAllDesiredMembersAndArbitersPodState(
        pods, mdb.name, StatefulSetReplicasThisReconciliation(mdb), StatefulSetArbitersThisReconciliation(mdb), current.version);
      if states.Err? {
        return Err(states.error);
      }
      var manager := new ReplicaSetPortManager(ExpectedPort(mdb.spec), states.value, current.processes);
      var ports, _, _ := manager.CalculateExpectedPorts();
      return Ok(ports);
    }

    method EnsureAutomationConfig(f: Faults) returns (r: Result<AutomationConfig, StoreError>)
      requires ValidCounts(mdb.spec)
      modifies store
      ensures var e := Controller.EnsureAutomationConfig(mdb, old(store.secret), pods, f);
              store.secret == e.secret && r.Ok? == e.result.Ok? && (r.Ok? ==> r.value == e.result.value)
    {
      var current := store.ReadFromSecret(f.acStore.read);
      if current.Err? || f.acInputs {
        return Err(Unreadable);
      }
      var ports := CalculateProcessPorts(current.value);
      if ports.Err? {
        return Err(Unreadable);
      }
      var builder := new Builder(BuildSettings(mdb), BuildModifications(mdb, ports.value), current.value, mdb.spec.fcv);
      var built := builder.Build();
      if built.Err? {
        return Err(Unreadable);
      }
      var merged := MergeAutomationConfigs(built.value, mdb.spec.overrides);
      r := store.EnsureSecret(merged, f.acStore);
    }

    method DeployAutomationConfig(f: Faults) returns (outcome: Outcome)
      requires ValidCounts(mdb.spec)
      modifies store
      ensures (State(), outcome) == Controller.DeployAutomationConfig(mdb, old(State()), f)
    {
      if f.stsRead {
        return Error;
      }
      var ac := EnsureAutomationConfig(f);
      if ac.Err? {
        return Error;
      }
      if sts.None? || !sts.value.readinessProbe {
        return Ready;
      }
      var reached := AllReachedGoalState(pods, mdb.name, StatefulSetReplicasThisReconciliation(mdb), ac.value.version);
      if reached.Err? {
        return Error;
      }
      return if reached.value then Ready else NotReady;
    }

    method DeployStatefulSet(f: Faults) returns (outcome: Outcome)
      requires ValidCounts(mdb.spec)
      modifies this`sts, this`arbiterSts
      ensures (State(), outcome) == Controller.DeployStatefulSet(mdb, old(State()), f)
    {
      if f.stsWrite {
        return Error;
      }
      sts := Some(UpdatedSts(sts, TargetReplicas(mdb), IsChangingVersion(mdb)));
      if f.arbiterStsWrite {
        return Error;
      }
      arbiterSts := Some(UpdatedSts(arbiterSts, StatefulSetArbitersThisReconciliation(mdb), IsChangingVersion(mdb)));
      if f.stsReadBack {
        return Error;
      }
      var isReady := IsReady(sts.value, StatefulSetReplicasThisReconciliation(mdb));
      return if isReady || sts.value.onDelete then Ready else NotReady;
    }

    /** Stage 0 deploys the config, stage 1 the stateful sets. */
    method Run(stage: nat, f: Faults) returns (outcome: Outcome)
      requires ValidCounts(mdb.spec) && stage < 2
      modifies store, this`sts, this`arbiterSts
      ensures (State(), outcome) == (if stage == 0 then Controller.DeployAutomationConfig(mdb, old(State()), f)
                                     else Controller.DeployStatefulSet(mdb, old(State()), f))
    {
      if stage == 0 {
        outcome := DeployAutomationConfig(f);
      } else {
        outcome := DeployStatefulSet(f);
      }
    }

    /** Runs the stages in order or reversed, with an early exit. */
    method RunStages(inOrder: bool, f: Faults) returns (outcome: Outcome)
      requires ValidCounts(mdb.spec)
      modifies store, this`sts, this`arbiterSts
      ensures (State(), outcome) == RunSequentially(inOrder, Stages(mdb, f), old(State()))
    {
      ghost var order := if inOrder then Stages(mdb, f) else Reversed(Stages(mdb, f));
      for i := 0 to 2
        invariant RunInOrder(order, old(State())) == RunInOrder(order[i..], State())
      {
        assert order[i..][1..] == order[i + 1..];
        outcome := Run(if inOrder then i else 1 - i, f);
        if outcome != Ready {
          return;
        }
      }
      outcome := Ready;
    }

    method SetPhase(phase: Phase, f: Faults)
      modifies this`mdb
      ensures mdb == WithPhase(old(mdb), phase, f)
    {
      if !f.statusWrite {
        mdb := mdb.(status := mdb.status.(phase := phase));
      }
    }

    method Complete(f: Faults)
      requires ValidCounts(mdb.spec)
      modifies this`mdb, this`sts
      ensures Cluster(mdb, State()) == Finish(old(mdb), old(State()), f)
    {
      if IsChangingVersion(mdb) {
        if f.strategyWrite {
          SetPhase(Phase.Failed, f);
          return;
        }
        if sts.Some? {
          sts := Some(Bumped(sts.value, sts.value.(onDelete := false)));
        }
      }
      if f.statusWrite {
        return;
      }
      var stillScaling := IsStillScaling(mdb);
      mdb := mdb.(status := ReadyStatus(mdb));
      if !stillScaling && !f.annotationWrite {
        mdb := mdb.(lastVersion := mdb.spec.version);
      }
    }

    method Reconcile(f: Faults)
      modifies this, store
      ensures Cluster(mdb, State()) == Controller.Reconcile(Cluster(old(mdb), old(State())), f)
    {
      if !ValidCounts(mdb.spec) || f.preflight {
        SetPhase(Phase.Failed, f);
        return;
      }
      if f.tlsPending && mdb.spec.tlsEnabled {
        SetPhase(Pending, f);
        return;
      }
      if f.resources {
        SetPhase(Phase.Failed, f);
        return;
      }
      var outcome := RunStages(ShouldRunInOrder(mdb, StsLookup(State(), f.orderRead)), f);
      match outcome
      case Error => SetPhase(Phase.Failed, f);
      case NotReady => SetPhase(Pending, f);
      case Ready => Complete(f);
    }
  }
}
