/**
 * The order of config and stateful set writes: the published config never names a data-bearing process without a
 * place in the stateful set, and the stateful set shrinks only after the agents have let go of the member.
 */
module Ordering {
  import opened AgentReadiness
  import opened Config
  import opened ConfigBuilderProperties
  import opened ConfigStore
  import opened ConfigStoreProperties
  import opened Controller
  import opened Functions
  import opened Names
  import opened Resource
  import opened Runs

  // ---------------------------------------------------------------- what a run publishes

  /** The number of data-bearing members a stored config lists, or -1. */
  function DataMembers(secret: AcSecret): int {
    if secret.Stored? && |secret.ac.replicaSets| == 1
    then |secret.ac.replicaSets[0].members| - secret.ac.replicaSets[0].numberArbiters else -1
  }

  /** The replicas of the stateful set, or -1. */
  function Replicas(w: World): int {
    if w.sts.Some? then w.sts.value.replicas else -1
  }

  /** The names of a stored config are those of its member and arbiter counts. */
  predicate WellNamed(secret: AcSecret, name: string) {
    secret.Stored? ==>
      && |secret.ac.replicaSets| == 1 && 0 <= secret.ac.replicaSets[0].numberArbiters && 0 <= DataMembers(secret)
      && HasTopology(secret.ac, name, DataMembers(secret), secret.ac.replicaSets[0].numberArbiters)
  }

  lemma PassPublishesTarget(secret: AcSecret, p: Pass)
    ensures var e := Publish(secret, p);
            && (e.result.Err? ==> e.secret == secret)
            && (e.result.Ok? ==> e.secret == Stored(e.result.value) && WellNamed(e.secret, p.settings.name)
                                 && DataMembers(e.secret) == p.settings.members)
  {
    PublishedTopology(secret, p);
  }

  /** Publishing leaves the secret alone, or well named with this reconcile's member count. */
  lemma PublishesTarget(m: ValidResource, secret: AcSecret, pods: Pods, f: Faults)
    ensures var e := EnsureAutomationConfig(m, secret, pods, f);
            && (e.result.Err? ==> e.secret == secret)
            && (e.result.Ok? ==> e.secret == Stored(e.result.value) && WellNamed(e.secret, m.name)
                                 && DataMembers(e.secret) == AutomationConfigMembersThisReconciliation(m))
  {
    var read := ReadSpec(secret, f.acStore.read);
    if read.Ok? {
      PassPublishesTarget(secret, PassFor(m, read.value, pods, f.acStore));
    }
  }

  /** The agents of the first n pods have all reported this version, or there is no pod. */
  predicate Released(pods: Pods, name: string, n: nat, version: int) {
    AllReported(pods, name, n, version) || NoneExists(pods, name, n)
  }

  /** A config stage either leaves the secret alone or brings the config to this reconcile's member count. */
  predicate AcEffect(m: ValidResource, w: World, v: World, outcome: Outcome) {
    && v == w.(secret := v.secret)
    && (WellNamed(w.secret, m.name) ==> WellNamed(v.secret, m.name))
    && (v.secret == w.secret || (v.secret.Stored? && DataMembers(v.secret) == AutomationConfigMembersThisReconciliation(m)))
    && (outcome != Error ==> v.secret.Stored? && DataMembers(v.secret) == AutomationConfigMembersThisReconciliation(m))
    && (outcome == Ready && w.sts.Some? && w.sts.value.readinessProbe ==>
          Released(w.pods, m.name, StatefulSetReplicasThisReconciliation(m), v.secret.ac.version))
  }

  lemma AcStageFrom(m: ValidResource, w: World, e: Ensured)
    requires e.result.Err? ==> e.secret == w.secret
    requires e.result.Ok? ==> e.secret == Stored(e.result.value) && WellNamed(e.secret, m.name)
                              && DataMembers(e.secret) == AutomationConfigMembersThisReconciliation(m)
    ensures AcEffect(m, w, AfterPublishing(m, w, e).0, AfterPublishing(m, w, e).1)
  {
    if e.result.Ok? {
      GoalReachedExactly(w.pods, m.name, StatefulSetReplicasThisReconciliation(m), e.result.value.version);
    }
  }

  lemma AcStage(m: ValidResource, w: World, f: Faults)
    ensures AcEffect(m, w, DeployAutomationConfig(m, w, f).0, DeployAutomationConfig(m, w, f).1)
  {
    PublishesTarget(m, w.secret, w.pods, f);
    AcStageFrom(m, w, EnsureAutomationConfig(m, w.secret, w.pods, f));
  }

  /** What the stateful set stage does to the counts. */
  lemma StsStage(m: ValidResource, w: World, f: Faults)
    requires m.spec.customReplicas.None?
    ensures var (v, outcome) := DeployStatefulSet(m, w, f);
            && v.secret == w.secret && v.pods == w.pods
            && (v.sts == w.sts || (v.sts.Some? && v.sts.value.readinessProbe
                                   && Replicas(v) == StatefulSetReplicasThisReconciliation(m)))
            && (outcome != Error ==> v.sts.Some? && Replicas(v) == StatefulSetReplicasThisReconciliation(m))
  {
  }

  // ---------------------------------------------------------------- the invariant

  /** What the ordering argument is about: valid counts, TLS off, no custom replica count. */
  predicate Covered(spec: Spec) {
    ValidCounts(spec) && !spec.tlsEnabled && spec.customReplicas.None?
  }

  /**
   * With n the member counter, a the data members of the config and s the replicas of the stateful set: the pair
   * (a, s) is at most one step ahead of n in the scaling direction, and always a <= s.
   */
  predicate Ordered(m: Resource, w: World) {
    var n, d, a, s := m.status.stsMembers, m.spec.members, DataMembers(w.secret), Replicas(w);
    && Covered(m.spec)
    && m.status.acMembers == n
    && !w.secret.WithoutConfig?
    && (w.sts.Some? ==> w.sts.value.readinessProbe && w.secret.Stored?)
    && if n == 0 then m.lastVersion == "" && (w.secret.Stored? ==> a == d) && (w.sts.Some? ==> s == d)
       else w.sts.Some? &&
            if n == d then a == s == n
            else if n < d then n <= a <= s <= n + 1
            else n - 1 <= a <= s <= n && m.status.stsArbiters >= m.spec.arbiters
  }

  /** No published data-bearing process has an ordinal at or beyond the replicas of the stateful set. */
  ghost predicate Placed(m: Resource, w: World) {
    w.secret.Stored? && w.sts.Some? ==>
      forall ordinal: nat :: ordinal >= w.sts.value.replicas ==>
        ProcessName(m.name, ordinal, false) !in ProcessNames(w.secret.ac.processes)
  }

  /** A well-named config is placed exactly when it has no more data members than there are replicas. */
  lemma PlacedExactly(m: Resource, w: World)
    requires WellNamed(w.secret, m.name) && Replicas(w) >= 0
    ensures Placed(m, w) <==> DataMembers(w.secret) <= Replicas(w)
  {
    if w.secret.Stored? {
      var arbiters := w.secret.ac.replicaSets[0].numberArbiters;
      forall ordinal: nat
        ensures ProcessName(m.name, ordinal, false) in ProcessNames(w.secret.ac.processes) <==> ordinal < DataMembers(w.secret)
      {
        NamedExactly(m.name, DataMembers(w.secret), arbiters, ordinal, false);
      }
      if DataMembers(w.secret) > Replicas(w) {
        assert ProcessName(m.name, Replicas(w), false) in ProcessNames(w.secret.ac.processes);
      }
    }
  }

  // ---------------------------------------------------------------- one reconcile

  function InOrder(m: ValidResource, w: World, f: Faults): bool {
    ShouldRunInOrder(m, StsLookup(w, f.orderRead))
  }

  /** The world after the first stage and its outcome. */
  function FirstStage(m: ValidResource, w: World, f: Faults): (World, Outcome) {
    if InOrder(m, w, f) then DeployAutomationConfig(m, w, f) else DeployStatefulSet(m, w, f)
  }

  function SecondStage(m: ValidResource, w: World, f: Faults): (World, Outcome) {
    if FirstStage(m, w, f).1 != Ready then FirstStage(m, w, f)
    else if InOrder(m, w, f) then DeployStatefulSet(m, FirstStage(m, w, f).0, f)
    else DeployAutomationConfig(m, FirstStage(m, w, f).0, f)
  }

  lemma StagesOfReconcile(m: ValidResource, w: World, f: Faults)
    ensures DeployReplicaSet(m, w, f) == SecondStage(m, w, f)
  {
    RunTwo(Stages(m, f)[0], Stages(m, f)[1], w);
  }

  /** Up means stateful set first, down means config first; nothing is deployed yet means config first. */
  lemma OrderFollowsDirection(m: ValidResource, w: World, f: Faults)
    requires Ordered(m, w)
    ensures var n, d := m.status.stsMembers, m.spec.members;
            && (0 < n < d ==> !InOrder(m, w, f))
            && (n == 0 || n > d ==> InOrder(m, w, f))
  {
  }

  /** The invariant holds after every stage; after two ready stages both counts are at this reconcile's target. */
  lemma StagesKeepOrder(m: ValidResource, w: World, f: Faults)
    requires Ordered(m, w)
    ensures Ordered(m, FirstStage(m, w, f).0) && Ordered(m, SecondStage(m, w, f).0)
    ensures SecondStage(m, w, f).1 == Ready ==>
              var v := SecondStage(m, w, f).0;
              DataMembers(v.secret) == Replicas(v) == StatefulSetReplicasThisReconciliation(m)
  {
    OrderFollowsDirection(m, w, f);
    var (v, outcome) := FirstStage(m, w, f);
    if InOrder(m, w, f) {
      AcStage(m, w, f);
      StsStage(m, v, f);
    } else {
      StsStage(m, w, f);
      AcStage(m, v, f);
    }
  }

  /** The moments of one reconcile: start, after the first stage, after the stages, end. */
  function Moments(c: Cluster, f: Faults): (r: seq<Cluster>)
    ensures |r| == 4
  {
    if !Proceeds(c.mdb, f) then [c, c, c, Reconcile(c, f)]
    else [c, Cluster(c.mdb, FirstStage(c.mdb, c.world, f).0), Cluster(c.mdb, SecondStage(c.mdb, c.world, f).0),
          Reconcile(c, f)]
  }

  lemma FinishKeepsOrder(m: ValidResource, w: World, f: Faults)
    requires Ordered(m, w) && DataMembers(w.secret) == Replicas(w) == StatefulSetReplicasThisReconciliation(m)
    ensures Ordered(Finish(m, w, f).mdb, Finish(m, w, f).world)
  {
  }

  lemma ReconcileKeepsOrder(c: Cluster, f: Faults)
    requires Ordered(c.mdb, c.world)
    ensures forall k :: 0 <= k < 4 ==> Ordered(Moments(c, f)[k].mdb, Moments(c, f)[k].world)
  {
    if Proceeds(c.mdb, f) {
      StagesOfReconcile(c.mdb, c.world, f);
      StagesKeepOrder(c.mdb, c.world, f);
      var (w, outcome) := SecondStage(c.mdb, c.world, f);
      if outcome == Ready {
        FinishKeepsOrder(c.mdb, w, f);
      }
    }
  }

  lemma StagesKeepNames(m: ValidResource, w: World, f: Faults)
    requires WellNamed(w.secret, m.name)
    ensures WellNamed(FirstStage(m, w, f).0.secret, m.name) && WellNamed(SecondStage(m, w, f).0.secret, m.name)
  {
    var v := FirstStage(m, w, f).0;
    if InOrder(m, w, f) {
      AcStage(m, w, f);
      assert DeployStatefulSet(m, v, f).0.secret == v.secret;
    } else {
      assert v.secret == w.secret;
      AcStage(m, v, f);
    }
  }

  /** The last moment of a reconcile differs from the one before in status and update strategy at most. */
  lemma EndKeepsWorld(c: Cluster, f: Faults)
    ensures var before, end := Moments(c, f)[2], Moments(c, f)[3];
            && Replicas(end.world) == Replicas(before.world) && end.world.secret == before.world.secret
            && end.mdb.name == before.mdb.name
  {
    if Proceeds(c.mdb, f) {
      StagesOfReconcile(c.mdb, c.world, f);
    }
  }

  lemma ReconcileKeepsNames(c: Cluster, f: Faults)
    requires WellNamed(c.world.secret, c.mdb.name)
    ensures forall k :: 0 <= k < 4 ==>
              Moments(c, f)[k].mdb.name == c.mdb.name && WellNamed(Moments(c, f)[k].world.secret, c.mdb.name)
  {
    EndKeepsWorld(c, f);
    if Proceeds(c.mdb, f) {
      StagesKeepNames(c.mdb, c.world, f);
    }
  }

  /** The config stage runs: first, or after a stateful set stage that is ready. */
  predicate ConfigStageRuns(m: ValidResource, w: World, f: Faults) {
    (InOrder(m, w, f) || DeployStatefulSet(m, w, f).1 == Ready) && !f.stsRead
  }

  /** The secret after the stages, or after the whole reconcile, of the world `w`. */
  predicate PublishedFrom(m: ValidResource, w: World, f: Faults, runs: bool, v: World) {
    && v.pods == w.pods
    && v.secret == if runs then EnsureAutomationConfig(m, w.secret, w.pods, f).secret else w.secret
  }

  lemma AcStagePublishes(m: ValidResource, w: World, f: Faults, u: World)
    requires w.secret == u.secret && w.pods == u.pods
    ensures PublishedFrom(m, w, f, !f.stsRead, DeployAutomationConfig(m, u, f).0)
  {
    var e := EnsureAutomationConfig(m, w.secret, w.pods, f);
    assert AfterPublishing(m, u, e).0 == u.(secret := e.secret);
  }

  lemma StagesPublishOnce(m: ValidResource, w: World, f: Faults)
    ensures PublishedFrom(m, w, f, ConfigStageRuns(m, w, f), SecondStage(m, w, f).0)
  {
    AcStagePublishes(m, w, f, w);
    var v := DeployAutomationConfig(m, w, f).0;
    assert DeployStatefulSet(m, v, f).0.secret == v.secret && DeployStatefulSet(m, v, f).0.pods == v.pods;
    var u := DeployStatefulSet(m, w, f).0;
    AcStagePublishes(m, w, f, u);
  }

  /**
   * Whatever the order and the failures: a reconcile publishes exactly once if it gets as far as its config stage, from
   * the resource and pods it started with, and otherwise leaves the config alone.
   */
  lemma ReconcilePublishesExactly(c: Cluster, f: Faults)
    requires ValidCounts(c.mdb.spec)
    ensures PublishedFrom(c.mdb, c.world, f, Proceeds(c.mdb, f) && ConfigStageRuns(c.mdb, c.world, f), Reconcile(c, f).world)
  {
    if Proceeds(c.mdb, f) {
      StagesOfReconcile(c.mdb, c.world, f);
      StagesPublishOnce(c.mdb, c.world, f);
      var (w, outcome) := SecondStage(c.mdb, c.world, f);
      if outcome == Ready {
        assert Finish(c.mdb, w, f).world.secret == w.secret && Finish(c.mdb, w, f).world.pods == w.pods;
      }
    }
  }

  // ---------------------------------------------------------------- runs

  /** An edit that removes members while it adds arbiters. */
  predicate ShrinksWhileAddingArbiters(m: Resource, spec: Spec) {
    spec.members < m.status.stsMembers && spec.arbiters > m.status.stsArbiters
  }

  /** Edits of a covered run: before anything is deployed, or once the members have settled. */
  predicate AllowedEdit(c: Cluster, spec: Spec) {
    Covered(spec)
    && (Fresh(c) || (0 < c.mdb.status.stsMembers == c.mdb.spec.members && !ShrinksWhileAddingArbiters(c.mdb, spec)))
  }

  predicate AllowedRun(c: Cluster, events: seq<Event>) {
    events == [] ||
    (var front, last := events[..|events| - 1], events[|events| - 1];
     AllowedRun(c, front) && (last.Edit? ==> AllowedEdit(After(c, front), last.spec)))
  }

  lemma {:induction false} RunKeepsNames(c: Cluster, events: seq<Event>)
    requires Fresh(c)
    ensures After(c, events).mdb.name == c.mdb.name && WellNamed(After(c, events).world.secret, c.mdb.name)
  {
    if events != [] {
      var front, last := events[..|events| - 1], events[|events| - 1];
      RunKeepsNames(c, front);
      if last.Reconciles? {
        ReconcileKeepsNames(After(c, front), last.faults);
        assert Step(After(c, front), last) == Moments(After(c, front), last.faults)[3];
      }
    }
  }

  lemma {:induction false} RunKeepsOrder(c: Cluster, events: seq<Event>)
    requires Fresh(c) && Covered(c.mdb.spec) && AllowedRun(c, events)
    ensures Ordered(After(c, events).mdb, After(c, events).world)
  {
    if events != [] {
      var front, last := events[..|events| - 1], events[|events| - 1];
      RunKeepsOrder(c, front);
      if last.Reconciles? {
        ReconcileKeepsOrder(After(c, front), last.faults);
        assert Step(After(c, front), last) == Moments(After(c, front), last.faults)[3];
      }
    }
  }

  /**
   * In every run from a fresh resource with allowed edits, whatever API calls fail and whatever pods, agents and
   * stateful set controllers do: at every moment of every reconcile each published member has its place.
   */
  lemma ConfigStaysWithinStatefulSet(c: Cluster, events: seq<Event>, f: Faults, k: nat)
    requires Fresh(c) && Covered(c.mdb.spec) && AllowedRun(c, events) && k < 4
    ensures var x := Moments(After(c, events), f)[k]; Placed(x.mdb, x.world)
  {
    var d := After(c, events);
    RunKeepsOrder(c, events);
    RunKeepsNames(c, events);
    ReconcileKeepsOrder(d, f);
    ReconcileKeepsNames(d, f);
    var x := Moments(d, f)[k];
    if x.world.sts.Some? {
      PlacedExactly(x.mdb, x.world);
    }
  }

  /** The config that dropped the members is published, and the agents that remain have let go of them. */
  predicate ReleasedDownTo(name: string, w: World, replicas: int) {
    w.secret.Stored? && DataMembers(w.secret) == replicas >= 0
        && Released(w.pods, name, replicas, w.secret.ac.version)
  }

  lemma FirstStageNeverShrinks(m: ValidResource, w: World, f: Faults)
    requires Ordered(m, w) && w.sts.Some?
    ensures Replicas(FirstStage(m, w, f).0) >= Replicas(w)
  {
    OrderFollowsDirection(m, w, f);
    if InOrder(m, w, f) {
      AcStage(m, w, f);
    } else {
      StsStage(m, w, f);
    }
  }

  lemma SecondStageShrinksReleased(m: ValidResource, w: World, f: Faults)
    requires Ordered(m, w) && w.sts.Some?
    requires Replicas(SecondStage(m, w, f).0) < Replicas(FirstStage(m, w, f).0)
    ensures ReleasedDownTo(m.name, FirstStage(m, w, f).0, Replicas(SecondStage(m, w, f).0))
  {
    OrderFollowsDirection(m, w, f);
    var v := FirstStage(m, w, f).0;
    if InOrder(m, w, f) {
      AcStage(m, w, f);
      StsStage(m, v, f);
    } else {
      AcStage(m, v, f);
    }
  }

  /**
   * Whenever a reconcile of such a run shrinks the stateful set, the config that dropped the member is published
   * already, and every remaining agent has reported its version, or no remaining pod exists.
   */
  lemma ShrinksOnlyAfterGoal(c: Cluster, events: seq<Event>, f: Faults, k: nat)
    requires Fresh(c) && Covered(c.mdb.spec) && AllowedRun(c, events) && k < 3
    requires var ms := Moments(After(c, events), f);
             0 <= Replicas(ms[k + 1].world) < Replicas(ms[k].world)
    ensures var ms := Moments(After(c, events), f);
            ReleasedDownTo(After(c, events).mdb.name, ms[k].world, Replicas(ms[k + 1].world))
  {
    var d := After(c, events);
    RunKeepsOrder(c, events);
    EndKeepsWorld(d, f);
    if Proceeds(d.mdb, f) {
      if k == 0 {
        FirstStageNeverShrinks(d.mdb, d.world, f);
      } else {
        if d.world.sts.None? {
          assert Replicas(d.world) == -1;
          OrderFollowsDirection(d.mdb, d.world, f);
          AcStage(d.mdb, d.world, f);
        } else {
          SecondStageShrinksReleased(d.mdb, d.world, f);
        }
      }
    }
  }
}
