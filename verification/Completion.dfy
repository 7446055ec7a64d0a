/**
 * What the two stages and a whole reconcile do, in terms of what they read and write: which stateful set and which pods a
 * reconcile has seen when it completes, what it leaves behind, in which order it writes, and which phase it reports.
 */
module Completion {
  import opened AgentReadiness
  import opened Controller
  import opened Functions
  import opened Names
  import opened Ordering
  import opened Resource
  import opened Runs
  import opened Wrappers

  // ---------------------------------------------------------------- the stateful set stage

  /** All replicas are updated and ready, and the controller has seen the last change. */
  predicate AllReady(sts: StatefulSet, n: int) {
    sts.updatedReplicas == n && sts.readyReplicas == n && sts.observedGeneration == sts.generation
  }

  /** The version change that a new version in the spec asks for has not been completed. */
  predicate ChangesVersion(m: Resource) {
    m.lastVersion != "" && m.spec.version != m.lastVersion
  }

  /** A stateful set after it was told these settings: what it reports stays, and a change is a new generation. */
  predicate Told(before: Option<StatefulSet>, after: Option<StatefulSet>, replicas: int, onDelete: bool) {
    && after.Some? && after.value.replicas == replicas && after.value.onDelete == onDelete && after.value.readinessProbe
    && match before
       case None => after.value.generation == 1 && after.value.observedGeneration == 0
                    && after.value.updatedReplicas == 0 && after.value.readyReplicas == 0
       case Some(sts) =>
         && after.value.updatedReplicas == sts.updatedReplicas && after.value.readyReplicas == sts.readyReplicas
         && after.value.observedGeneration == sts.observedGeneration
         && after.value.generation == if sts.replicas == replicas && sts.onDelete == onDelete && sts.readinessProbe
                                      then sts.generation else sts.generation + 1
  }

  /** What the stage writes, step by step up to the first failure. */
  lemma StsStageWrites(m: ValidResource, w: World, f: Faults)
    ensures var v := DeployStatefulSet(m, w, f).0;
            && v.secret == w.secret && v.pods == w.pods
            && (if f.stsWrite then v.sts == w.sts
                else Told(w.sts, v.sts, if m.spec.customReplicas.Some? then m.spec.customReplicas.value
                                        else StatefulSetReplicasThisReconciliation(m), ChangesVersion(m)))
            && (if f.stsWrite || f.arbiterStsWrite then v.arbiterSts == w.arbiterSts
                else Told(w.arbiterSts, v.arbiterSts, StatefulSetArbitersThisReconciliation(m), ChangesVersion(m)))
  {
  }

  /**
   * The stage is ready exactly when no call fails and the stateful set is on-delete, which it is while the version changes,
   * or has all replicas of this reconcile updated and ready under a generation that was observed.
   */
  lemma StsStageReadyExactly(m: ValidResource, w: World, f: Faults)
    ensures var (v, outcome) := DeployStatefulSet(m, w, f);
            && (outcome == Error <==> f.stsWrite || f.arbiterStsWrite || f.stsReadBack)
            && (outcome == Ready <==>
                && !f.stsWrite && !f.arbiterStsWrite && !f.stsReadBack
                && v.sts.Some? && (ChangesVersion(m) || AllReady(v.sts.value, StatefulSetReplicasThisReconciliation(m))))
  {
  }

  // ---------------------------------------------------------------- the config stage

  /** There are agents to wait for once the stateful set has the readiness probe. */
  predicate HasAgents(w: World) {
    w.sts.Some? && w.sts.value.readinessProbe
  }

  /** Every pod of this reconcile can be read. */
  predicate PodsReadable(m: ValidResource, pods: Pods) {
    forall i: nat :: i < StatefulSetReplicasThisReconciliation(m) ==>
      var pod := ProcessName(m.name, i, false); pod in pods ==> !pods[pod].Failed?
  }

  lemma PodsReadableExactly(m: ValidResource, pods: Pods)
    ensures AllReadable(pods, AllNames(m.name, StatefulSetReplicasThisReconciliation(m), 0)) <==> PodsReadable(m, pods)
  {
    var n := StatefulSetReplicasThisReconciliation(m);
    assert forall i: nat :: i < n ==> AllNames(m.name, n, 0)[i] == ProcessName(m.name, i, false);
  }

  /**
   * The config stage is ready exactly when the config was published and, if there are agents, all of them have reported its
   * version or no pod exists.
   */
  lemma ConfigStageReadyExactly(m: ValidResource, w: World, f: Faults)
    ensures var (v, outcome) := DeployAutomationConfig(m, w, f);
            var e := EnsureAutomationConfig(m, w.secret, w.pods, f);
            && v == w.(secret := if f.stsRead then w.secret else e.secret)
            && (outcome == Error <==> f.stsRead || e.result.Err? || (HasAgents(w) && !PodsReadable(m, w.pods)))
            && (outcome == Ready <==>
                && !f.stsRead && e.result.Ok?
                && (HasAgents(w) ==>
                      PodsReadable(m, w.pods)
                      && Released(w.pods, m.name, StatefulSetReplicasThisReconciliation(m), e.result.value.version)))
  {
    PodsReadableExactly(m, w.pods);
    var e := EnsureAutomationConfig(m, w.secret, w.pods, f);
    if e.result.Ok? {
      GoalReachedExactly(w.pods, m.name, StatefulSetReplicasThisReconciliation(m), e.result.value.version);
    }
  }

  // ---------------------------------------------------------------- the order of the stages

  /**
   * Config first.  With TLS: until the stateful set can be read and is ready.  Without: for a new deployment, when members
   * are removed and no arbiters added, and when neither the counts nor the version change.
   */
  lemma ConfigIsFirstExactly(m: ValidResource, w: World, f: Faults)
    ensures InOrder(m, w, f) <==>
            var sts, members, arbiters := w.sts, m.status.stsMembers, m.status.stsArbiters;
            if m.spec.tlsEnabled
            then f.orderRead || sts.None? || !AllReady(sts.value, StatefulSetReplicasThisReconciliation(m))
            else if 0 < members < m.spec.members then false
            else if arbiters < m.spec.arbiters then members == 0
            else m.spec.members < members || !ChangesVersion(m)
  {
  }

  // ---------------------------------------------------------------- the end of a reconcile

  /** The phase of the resource, unless the status cannot be written. */
  predicate Reports(before: Resource, after: Resource, phase: Phase, f: Faults) {
    after == if f.statusWrite then before else before.(status := before.status.(phase := phase))
  }

  /** A resource that is not valid, or whose preparations fail, is Failed; incomplete TLS is Pending; nothing is written. */
  lemma UnpreparedReconcile(c: Cluster, f: Faults)
    requires !ValidCounts(c.mdb.spec) || f.preflight || (f.tlsPending && c.mdb.spec.tlsEnabled)
             || f.resources
    ensures var d := Reconcile(c, f);
            && d.world == c.world
            && Reports(c.mdb, d.mdb, if !ValidCounts(c.mdb.spec) || f.preflight then Phase.Failed
                                     else if f.tlsPending && c.mdb.spec.tlsEnabled then Pending else Phase.Failed, f)
  {
  }

  /** A stage that fails ends in Failed, one that has to wait in Pending; the world is what the stages left. */
  lemma UnreadyReconcile(c: Cluster, f: Faults)
    requires Proceeds(c.mdb, f) && SecondStage(c.mdb, c.world, f).1 != Ready
    ensures var d := Reconcile(c, f);
            && d.world == SecondStage(c.mdb, c.world, f).0
            && Reports(c.mdb, d.mdb, if SecondStage(c.mdb, c.world, f).1 == Error then Phase.Failed else Pending, f)
  {
    StagesOfReconcile(c.mdb, c.world, f);
  }

  /**
   * Two ready stages are not enough if the strategy of a version change cannot be reset, which is Failed, or the status
   * cannot be written, which shows nothing; in both cases no counter moves, and the next reconcile does the same again.
   */
  lemma UnfinishedReconcile(c: Cluster, f: Faults)
    requires Proceeds(c.mdb, f) && SecondStage(c.mdb, c.world, f).1 == Ready && !Completes(c, f)
    ensures var v, d := SecondStage(c.mdb, c.world, f).0, Reconcile(c, f);
            if ChangesVersion(c.mdb) && f.strategyWrite then d.world == v && Reports(c.mdb, d.mdb, Phase.Failed, f)
            else d.mdb == c.mdb && d.world == v.(sts := d.world.sts)
                 && (v.sts.Some? ==> d.world.sts.Some? && d.world.sts.value.replicas == v.sts.value.replicas)
  {
    StagesOfReconcile(c.mdb, c.world, f);
  }

  /** What a reconcile with two ready stages leaves behind. */
  ghost predicate Concluded(c: Cluster, f: Faults, d: Cluster) {
    var m: Resource, n: Resource := c.mdb, d.mdb;
    ValidCounts(m.spec) &&
    var members, arbiters := StatefulSetReplicasThisReconciliation(m), StatefulSetArbitersThisReconciliation(m);
    && d.world.sts.Some? && d.world.arbiterSts.Some? && d.world.secret.Stored?
    && d.world.sts.value.replicas == (if m.spec.customReplicas.Some? then m.spec.customReplicas.value else members)
    && !d.world.sts.value.onDelete && d.world.arbiterSts.value.replicas == arbiters
    && DataMembers(d.world.secret) == AutomationConfigMembersThisReconciliation(m)
    && n.spec == m.spec && n.name == m.name
    && n.status.stsMembers == members && n.status.stsArbiters == arbiters
    && n.status.acMembers == AutomationConfigMembersThisReconciliation(m)
    && n.status.acArbiters == AutomationConfigArbitersThisReconciliation(m)
    && n.status.phase == (if members == m.spec.members && arbiters == m.spec.arbiters then Running else Pending)
    && n.lastVersion == if n.status.phase == Running && !f.annotationWrite then m.spec.version else m.lastVersion
  }

  lemma SecondStageWritesBoth(m: ValidResource, w: World, f: Faults)
    requires SecondStage(m, w, f).1 == Ready
    ensures var v := SecondStage(m, w, f).0;
            && v.sts.Some? && v.arbiterSts.Some? && v.secret.Stored?
            && v.sts.value.replicas == (if m.spec.customReplicas.Some? then m.spec.customReplicas.value
                                        else StatefulSetReplicasThisReconciliation(m))
            && v.sts.value.onDelete == ChangesVersion(m)
            && v.arbiterSts.value.replicas == StatefulSetArbitersThisReconciliation(m)
            && DataMembers(v.secret) == AutomationConfigMembersThisReconciliation(m)
            && (!ChangesVersion(m) ==> AllReady(v.sts.value, StatefulSetReplicasThisReconciliation(m)))
  {
    var first := FirstStage(m, w, f).0;
    if InOrder(m, w, f) {
      AcStage(m, w, f);
      StsStageWrites(m, first, f);
      StsStageReadyExactly(m, first, f);
    } else {
      StsStageWrites(m, w, f);
      StsStageReadyExactly(m, w, f);
      AcStage(m, first, f);
    }
  }

  /**
   * A reconcile that completes has brought both stateful sets and the config to the counts that its status then shows,
   * reports Running exactly if these are the counts of the spec, and leaves no stateful set on-delete.
   */
  lemma CompletedExactly(c: Cluster, f: Faults)
    requires Completes(c, f)
    ensures Concluded(c, f, Reconcile(c, f))
  {
    StagesOfReconcile(c.mdb, c.world, f);
    SecondStageWritesBoth(c.mdb, c.world, f);
    FinishCompletes(c, SecondStage(c.mdb, c.world, f).0, f);
  }

  lemma FinishCompletes(c: Cluster, w: World, f: Faults)
    requires ValidCounts(c.mdb.spec) && !f.statusWrite && !(IsChangingVersion(c.mdb) && f.strategyWrite)
    requires var m := c.mdb;
             && w.sts.Some? && w.arbiterSts.Some? && w.secret.Stored? && w.sts.value.onDelete == ChangesVersion(m)
             && w.sts.value.replicas == (if m.spec.customReplicas.Some? then m.spec.customReplicas.value
                                         else StatefulSetReplicasThisReconciliation(m))
             && w.arbiterSts.value.replicas == StatefulSetArbitersThisReconciliation(m)
             && DataMembers(w.secret) == AutomationConfigMembersThisReconciliation(m)
    ensures Concluded(c, f, Finish(c.mdb, w, f))
  {
  }

  /** Of the stateful set the end of the reconcile changes the update strategy only, and that is a new generation. */
  lemma StrategyIsReset(c: Cluster, f: Faults)
    requires Completes(c, f)
    ensures var before, after := SecondStage(c.mdb, c.world, f).0, Reconcile(c, f).world;
            && before.sts.Some? && after.secret == before.secret && after.pods == before.pods
            && after.arbiterSts == before.arbiterSts
            && after.sts == Some(before.sts.value.(onDelete := false, generation := before.sts.value.generation
                                                   + if before.sts.value.onDelete then 1 else 0))
  {
    StagesOfReconcile(c.mdb, c.world, f);
    SecondStageWritesBoth(c.mdb, c.world, f);
  }

  /**
   * What it has seen: outside a version change a stateful set of this reconcile's size with all replicas updated and
   * ready, provided that no controller claims to have observed a generation that has not been.
   */
  lemma CompletionSawReadySts(c: Cluster, f: Faults)
    requires Completes(c, f) && !ChangesVersion(c.mdb)
    requires c.world.sts.Some? ==> c.world.sts.value.observedGeneration <= c.world.sts.value.generation
    ensures var n := StatefulSetReplicasThisReconciliation(c.mdb);
            && c.world.sts.Some? && AllReady(c.world.sts.value, n) && !c.world.sts.value.onDelete
            && c.world.sts.value.replicas == (if c.mdb.spec.customReplicas.Some? then c.mdb.spec.customReplicas.value else n)
  {
    var m: ValidResource, w := c.mdb, c.world;
    StagesOfReconcile(m, w, f);
    var first := FirstStage(m, w, f).0;
    if InOrder(m, w, f) {
      AcStage(m, w, f);
      ReadyStsWasReady(m, first, f);
    } else {
      ReadyStsWasReady(m, w, f);
    }
  }

  lemma ReadyStsWasReady(m: ValidResource, w: World, f: Faults)
    requires DeployStatefulSet(m, w, f).1 == Ready && !ChangesVersion(m)
    requires w.sts.Some? ==> w.sts.value.observedGeneration <= w.sts.value.generation
    ensures var n := StatefulSetReplicasThisReconciliation(m);
            && w.sts.Some? && AllReady(w.sts.value, n) && !w.sts.value.onDelete
            && w.sts.value.replicas == (if m.spec.customReplicas.Some? then m.spec.customReplicas.value else n)
  {
    StsStageWrites(m, w, f);
    StsStageReadyExactly(m, w, f);
  }

  /** And the agents of all its pods have reported the config that is then stored, or no pod exists. */
  lemma CompletionSawAgents(c: Cluster, f: Faults)
    requires Completes(c, f) && HasAgents(c.world)
    ensures var n, d := StatefulSetReplicasThisReconciliation(c.mdb), Reconcile(c, f);
            d.world.secret.Stored? && Released(c.world.pods, c.mdb.name, n, d.world.secret.ac.version)
  {
    var m: ValidResource, w := c.mdb, c.world;
    StagesOfReconcile(m, w, f);
    ReconcilePublishesExactly(c, f);
    PublishesTarget(m, w.secret, w.pods, f);
    if InOrder(m, w, f) {
      ConfigStageReadyExactly(m, w, f);
    } else {
      StsStageWrites(m, w, f);
      ConfigStageReadyExactly(m, FirstStage(m, w, f).0, f);
    }
  }

  // ---------------------------------------------------------------- over runs

  /** Stateful set controllers observe generations that there have been. */
  predicate ObservedRun(c: Cluster, events: seq<Event>) {
    events == [] ||
    (var front, last := events[..|events| - 1], events[|events| - 1];
     ObservedRun(c, front) &&
     (last.Environment? && After(c, front).world.sts.Some? ==>
        last.observedGeneration <= After(c, front).world.sts.value.generation))
  }

  /** No generation is observed before it exists. */
  predicate NothingAhead(w: World) {
    w.sts.Some? ==> w.sts.value.observedGeneration <= w.sts.value.generation
  }

  lemma StagesKeepNothingAhead(m: ValidResource, w: World, f: Faults)
    requires NothingAhead(w)
    ensures NothingAhead(SecondStage(m, w, f).0)
  {
    var first := FirstStage(m, w, f).0;
    if InOrder(m, w, f) {
      AcStage(m, w, f);
      StsStageWrites(m, first, f);
    } else {
      StsStageWrites(m, w, f);
      AcStage(m, first, f);
    }
  }

  lemma ReconcileKeepsNothingAhead(c: Cluster, f: Faults)
    requires NothingAhead(c.world)
    ensures NothingAhead(Reconcile(c, f).world)
  {
    if Proceeds(c.mdb, f) {
      StagesOfReconcile(c.mdb, c.world, f);
      StagesKeepNothingAhead(c.mdb, c.world, f);
    }
  }

  lemma {:induction false} RunKeepsNothingAhead(c: Cluster, events: seq<Event>)
    requires Fresh(c) && ObservedRun(c, events)
    ensures NothingAhead(After(c, events).world)
  {
    if events != [] {
      var front, last := events[..|events| - 1], events[|events| - 1];
      RunKeepsNothingAhead(c, front);
      if last.Reconciles? {
        ReconcileKeepsNothingAhead(After(c, front), last.faults);
      }
    }
  }

  /**
   * In every run from a new resource, whatever is edited and whatever fails: when a reconcile outside a version change
   * newly reports Running, all counts that it shows are those of the spec, the stateful set that it read had that many
   * replicas, all of them updated and ready, and the agents of all pods had reported the stored config, or no pod existed.
   */
  lemma NewlyRunningSawReady(c: Cluster, events: seq<Event>, f: Faults)
    requires Fresh(c) && ObservedRun(c, events)
    requires var d := After(c, events);
             !d.mdb.status.phase.Running? && Reconcile(d, f).mdb.status.phase.Running? && !ChangesVersion(d.mdb)
    ensures var d, e := After(c, events), Reconcile(After(c, events), f);
            && d.world.sts.Some? && AllReady(d.world.sts.value, d.mdb.spec.members)
            && e.mdb.status.stsMembers == d.mdb.spec.members && e.mdb.status.stsArbiters == d.mdb.spec.arbiters
            && e.world.secret.Stored?
            && d.mdb.spec.members > 0
            && (HasAgents(d.world) ==>
                  Released(d.world.pods, d.mdb.name, d.mdb.spec.members, e.world.secret.ac.version))
  {
    var d := After(c, events);
    RunKeepsNothingAhead(c, events);
    OnlyCompletionReportsRunning(d, f);
    CompletedExactly(d, f);
    CompletionSawReadySts(d, f);
    if HasAgents(d.world) {
      CompletionSawAgents(d, f);
    }
  }
}
