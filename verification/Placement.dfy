/**
 * Which reconciles, and which edits, keep every published member placed: exact conditions, for clusters in any state of
 * scaling.
 */
module Placement {
  import opened AgentReadiness
  import opened Config
  import opened ConfigBuilder
  import opened ConfigStore
  import opened Controller
  import opened Functions
  import opened Names
  import opened Ordering
  import opened Resource
  import opened Runs
  import opened Versions
  import opened Wrappers

  const NO_FAULTS := Faults(false, false, false, false, false, false, StoreFaults(false, false), false, false, false,
                            false, false, false)

  // ---------------------------------------------------------------- one reconcile

  /** The pods can be read, there is no secret without a config, and the FCV of the next build can be decided. */
  predicate Publishable(m: ValidResource, w: World) {
    && !w.secret.WithoutConfig? && PortInputsReadable(m, w.pods)
    && EffectiveFcv(if w.secret.Stored? then w.secret.ac else EMPTY_CONFIG, m.spec.fcv, m.spec.version).Ok?
  }

  /** A publication succeeds exactly then, if no call fails; failing calls do not help. */
  lemma PublishesExactly(m: ValidResource, w: World, f: Faults)
    ensures EnsureAutomationConfig(m, w.secret, w.pods, NO_FAULTS).result.Ok? <==> Publishable(m, w)
    ensures EnsureAutomationConfig(m, w.secret, w.pods, f).result.Ok? ==> Publishable(m, w)
  {
    if !w.secret.WithoutConfig? {
      var current := ReadSpec(w.secret, false).value;
      BuildsExactly(m, current, w.pods, NO_FAULTS.acStore);
      BuildsExactly(m, current, w.pods, f.acStore);
    }
  }

  /** A build fails only over the FCV. */
  lemma BuildsExactly(m: ValidResource, current: AutomationConfig, pods: Pods, faults: StoreFaults)
    ensures var p := PassFor(m, current, pods, faults);
            BuildSpec(p.settings, p.modifications, p.fcv, [], current).Ok? <==>
            EffectiveFcv(current, m.spec.fcv, m.spec.version).Ok?
  {
  }

  /** The spec gives a well-formed FCV, so that it can be built on top of any config. */
  predicate GivesFcv(spec: Spec) {
    spec.fcv != "" && Make(spec.fcv + ".0").Some?
  }

  lemma GivenFcvIsPublishable(m: ValidResource, w: World)
    requires GivesFcv(m.spec) && !w.secret.WithoutConfig? && PortInputsReadable(m, w.pods)
    ensures Publishable(m, w) && EnsureAutomationConfig(m, w.secret, w.pods, NO_FAULTS).result.Ok?
  {
    PublishesExactly(m, w, NO_FAULTS);
  }

  /** With TLS off the order depends on the resource only. */
  predicate ConfigFirst(m: ValidResource) {
    ShouldRunInOrder(m, NotFound)
  }

  /** What a reconcile needs: room for what it publishes first, or nothing published beyond what it shrinks to first. */
  predicate SafeReconcile(m: ValidResource, w: World) {
    var n := StatefulSetReplicasThisReconciliation(m);
    if ConfigFirst(m) then w.sts.Some? && Publishable(m, w) ==> n <= Replicas(w) else DataMembers(w.secret) <= n
  }

  /** A cluster of the ordering argument: TLS off, equal member counters, a config with its own names. */
  predicate Plain(c: Cluster) {
    && Covered(c.mdb.spec) && c.mdb.status.acMembers == c.mdb.status.stsMembers
    && WellNamed(c.world.secret, c.mdb.name) && (c.world.sts.Some? ==> Replicas(c.world) >= 0)
  }

  predicate HasRoom(w: World) {
    w.secret.Stored? && w.sts.Some? ==> DataMembers(w.secret) <= Replicas(w)
  }

  lemma PlacedIsRoom(m: Resource, w: World)
    requires WellNamed(w.secret, m.name) && (w.sts.Some? ==> Replicas(w) >= 0)
    ensures Placed(m, w) <==> HasRoom(w)
  {
    if w.sts.Some? {
      PlacedExactly(m, w);
    }
  }

  /** A config stage that has room keeps it, and if it ends ready the config has this reconcile's members. */
  lemma ConfigStageHasRoom(m: ValidResource, w: World, f: Faults)
    requires Plain(Cluster(m, w)) && HasRoom(w)
    requires w.sts.Some? && Publishable(m, w) ==> StatefulSetReplicasThisReconciliation(m) <= Replicas(w)
    ensures var (v, outcome) := DeployAutomationConfig(m, w, f);
            && Plain(Cluster(m, v)) && HasRoom(v) && v.sts == w.sts
            && (outcome == Ready ==> DataMembers(v.secret) == StatefulSetReplicasThisReconciliation(m))
  {
    AcStage(m, w, f);
    PublishesTarget(m, w.secret, w.pods, f);
    if DeployAutomationConfig(m, w, f).0.secret != w.secret {
      PublishesExactly(m, w, f);
    }
  }

  /** A stateful set stage that shrinks to no less than the published members leaves room. */
  lemma StsStageHasRoom(m: ValidResource, w: World, f: Faults)
    requires Plain(Cluster(m, w)) && HasRoom(w) && DataMembers(w.secret) <= StatefulSetReplicasThisReconciliation(m)
    ensures var (v, outcome) := DeployStatefulSet(m, w, f);
            && Plain(Cluster(m, v)) && HasRoom(v)
            && (outcome == Ready ==> v.sts.Some? && Replicas(v) == StatefulSetReplicasThisReconciliation(m))
  {
    StsStage(m, w, f);
  }

  lemma SafeStagesHaveRoom(m: ValidResource, w: World, f: Faults)
    requires Plain(Cluster(m, w)) && HasRoom(w) && SafeReconcile(m, w)
    ensures Plain(Cluster(m, FirstStage(m, w, f).0)) && HasRoom(FirstStage(m, w, f).0)
    ensures Plain(Cluster(m, SecondStage(m, w, f).0)) && HasRoom(SecondStage(m, w, f).0)
  {
    var (v, outcome) := FirstStage(m, w, f);
    if ConfigFirst(m) {
      ConfigStageHasRoom(m, w, f);
      if outcome == Ready {
        StsStageHasRoom(m, v, f);
      }
    } else {
      StsStageHasRoom(m, w, f);
      if outcome == Ready {
        ConfigStageHasRoom(m, v, f);
      }
    }
  }

  /** A moment at which every published member is placed. */
  ghost predicate PlacedAt(x: Cluster) {
    Placed(x.mdb, x.world)
  }

  /** There is room at every moment of a safe reconcile. */
  lemma SafeReconcileHasRoom(c: Cluster, f: Faults)
    requires Plain(c) && HasRoom(c.world) && SafeReconcile(c.mdb, c.world)
    ensures forall k :: 0 <= k < 4 ==> HasRoom(Moments(c, f)[k].world) && Replicas(Moments(c, f)[k].world) >= -1
  {
    EndKeepsWorld(c, f);
    if Proceeds(c.mdb, f) {
      SafeStagesHaveRoom(c.mdb, c.world, f);
    }
  }

  lemma SafeReconcileStaysPlaced(c: Cluster, f: Faults, k: nat)
    requires Plain(c) && HasRoom(c.world) && SafeReconcile(c.mdb, c.world) && k < 4
    ensures PlacedAt(Moments(c, f)[k])
  {
    SafeReconcileHasRoom(c, f);
    ReconcileKeepsNames(c, f);
    RoomIsEnough(Moments(c, f)[k]);
  }

  lemma RoomIsEnough(x: Cluster)
    requires WellNamed(x.world.secret, x.mdb.name) && HasRoom(x.world) && Replicas(x.world) >= -1
    ensures PlacedAt(x)
  {
    if x.world.sts.Some? && Replicas(x.world) >= 0 {
      PlacedExactly(x.mdb, x.world);
    }
  }

  /** The first stage of an unsafe reconcile, without any failure, leaves a member without a place. */
  lemma UnsafeReconcileBreaks(c: Cluster)
    requires Plain(c) && !SafeReconcile(c.mdb, c.world)
    ensures !PlacedAt(Moments(c, NO_FAULTS)[1])
  {
    var m, w := c.mdb, c.world;
    var x := Moments(c, NO_FAULTS)[1];
    ReconcileKeepsNames(c, NO_FAULTS);
    if ConfigFirst(m) {
      PublishesExactly(m, w, NO_FAULTS);
      PublishesTarget(m, w.secret, w.pods, NO_FAULTS);
    } else {
      StsStage(m, w, NO_FAULTS);
    }
    PlacedIsRoom(x.mdb, x.world);
  }

  /**
   * For every plain cluster, in whatever state of scaling: each published member stays placed at every moment of a
   * reconcile, under all faults, exactly when the reconcile is safe.
   */
  lemma ReconcileIsSafeExactly(c: Cluster)
    requires Plain(c) && PlacedAt(c)
    ensures (forall f: Faults, k :: 0 <= k < 4 ==> PlacedAt(Moments(c, f)[k])) <==> SafeReconcile(c.mdb, c.world)
  {
    PlacedIsRoom(c.mdb, c.world);
    if SafeReconcile(c.mdb, c.world) {
      forall f: Faults, k: nat | k < 4
        ensures PlacedAt(Moments(c, f)[k])
      {
        SafeReconcileStaysPlaced(c, f, k);
      }
    } else {
      UnsafeReconcileBreaks(c);
    }
  }

  // ---------------------------------------------------------------- edits in any state of scaling

  /** The edit takes the members back to the counter while the stateful set has already shrunk below it. */
  predicate BackWhileShrunk(c: Cluster, spec: Spec) {
    spec.members == c.mdb.status.stsMembers == Replicas(c.world) + 1
  }

  /** The reconcile after such an edit of the members writes the config first. */
  predicate StaysConfigFirst(m: Resource, spec: Spec) {
    spec.arbiters <= m.status.stsArbiters && !IsChangingVersion(m.(spec := spec))
  }

  /** The edit takes the members back to the counter while the config already lists one more. */
  predicate BackWhileGrown(c: Cluster, spec: Spec) {
    spec.members == c.mdb.status.stsMembers == DataMembers(c.world.secret) - 1
  }

  /** The edit raises the members while the first deployment is still under way. */
  predicate RaisesWhileDeploying(c: Cluster, spec: Spec) {
    c.mdb.status.stsMembers == 0 && c.world.sts.Some? && spec.members > Replicas(c.world)
  }

  /** The edits after which the config is to list more members than the stateful set is told to run. */
  predicate ConfigRunsAhead(c: Cluster, spec: Spec) {
    RaisesWhileDeploying(c, spec) || (BackWhileShrunk(c, spec) && StaysConfigFirst(c.mdb, spec))
  }

  /**
   * For every edit, in any state of scaling, the next reconcile is unsafe exactly in four cases: raising the members during
   * the first deployment, and back during a shrink with the config first, if the config can be published; back during a
   * growth with the stateful set first; removing members while adding arbiters before the config has let go of the next
   * member.
   */
  lemma EditIsUnsafeExactly(c: Cluster, spec: Spec)
    requires Ordered(c.mdb, c.world) && WellNamed(c.world.secret, c.mdb.name) && Covered(spec)
    ensures var d := Step(c, Edit(spec));
            !SafeReconcile(d.mdb, d.world) <==>
            || (ConfigRunsAhead(c, spec) && Publishable(d.mdb, d.world))
            || (BackWhileGrown(c, spec) && !StaysConfigFirst(c.mdb, spec))
            || (ShrinksWhileAddingArbiters(c.mdb, spec) && DataMembers(c.world.secret) >= c.mdb.status.stsMembers)
  {
  }

  /** In terms of moments: the next reconcile after an edit keeps every published member placed exactly otherwise. */
  lemma EditIsSafeExactly(c: Cluster, spec: Spec)
    requires Ordered(c.mdb, c.world) && WellNamed(c.world.secret, c.mdb.name) && Covered(spec)
    ensures var d := Step(c, Edit(spec));
            (forall f: Faults, k :: 0 <= k < 4 ==> PlacedAt(Moments(d, f)[k])) <==> SafeReconcile(d.mdb, d.world)
  {
    var d := Step(c, Edit(spec));
    PlacedIsRoom(d.mdb, d.world);
    ReconcileIsSafeExactly(d);
  }

  /** Edits of settled members are safe exactly when they do not remove members while they add arbiters. */
  lemma SettledEditIsSafeExactly(c: Cluster, spec: Spec)
    requires Ordered(c.mdb, c.world) && WellNamed(c.world.secret, c.mdb.name)
    requires 0 < c.mdb.status.stsMembers == c.mdb.spec.members && Covered(spec)
    ensures var d := Step(c, Edit(spec));
            (forall f: Faults, k :: 0 <= k < 4 ==> PlacedAt(Moments(d, f)[k])) <==> !ShrinksWhileAddingArbiters(c.mdb, spec)
  {
    EditIsSafeExactly(c, spec);
    EditIsUnsafeExactly(c, spec);
  }

  // ---------------------------------------------------------------- whole runs

  /** Edits at any time, as long as they are covered. */
  predicate CoveredRun(events: seq<Event>) {
    forall i :: 0 <= i < |events| && events[i].Edit? ==> Covered(events[i].spec)
  }

  /** Every reconcile that could start in this run is safe. */
  predicate SafeRun(c: Cluster, events: seq<Event>)
    requires Fresh(c) && Covered(c.mdb.spec) && CoveredRun(events)
  {
    RunIsPlain(c, events);
    SafeReconcile(After(c, events).mdb, After(c, events).world)
    && (events == [] || SafeRun(c, events[..|events| - 1]))
  }

  lemma {:induction false} RunIsPlain(c: Cluster, events: seq<Event>)
    requires Fresh(c) && Covered(c.mdb.spec) && CoveredRun(events)
    ensures Plain(After(c, events))
  {
    RunKeepsNames(c, events);
    MemberCountersAgree(c, events, 0);
    if events != [] {
      var front, last := events[..|events| - 1], events[|events| - 1];
      RunIsPlain(c, front);
      if last.Reconciles? {
        ReconcileKeepsPlain(After(c, front), last.faults);
      }
    }
  }

  lemma ReconcileKeepsPlain(c: Cluster, f: Faults)
    requires Plain(c)
    ensures Covered(Reconcile(c, f).mdb.spec)
    ensures Reconcile(c, f).world.sts.Some? ==> Replicas(Reconcile(c, f).world) >= 0
  {
    EndKeepsWorld(c, f);
    if Proceeds(c.mdb, f) {
      StagesKeepCount(c.mdb, c.world, f);
    }
  }

  lemma StagesKeepCount(m: ValidResource, w: World, f: Faults)
    requires Plain(Cluster(m, w))
    ensures SecondStage(m, w, f).0.sts.Some? ==> Replicas(SecondStage(m, w, f).0) >= 0
  {
    var v := FirstStage(m, w, f).0;
    if ConfigFirst(m) {
      AcStage(m, w, f);
      StsStage(m, v, f);
    } else {
      StsStage(m, w, f);
      AcStage(m, v, f);
    }
  }

  /** At every moment of every reconcile that could start in this run, each published member is placed. */
  ghost predicate PlacedRun(c: Cluster, events: seq<Event>) {
    (forall f: Faults, k :: 0 <= k < 4 ==> PlacedAt(Moments(After(c, events), f)[k]))
    && (events == [] || PlacedRun(c, events[..|events| - 1]))
  }

  lemma {:induction false} SafeRunHasRoom(c: Cluster, events: seq<Event>)
    requires Fresh(c) && Covered(c.mdb.spec) && CoveredRun(events) && SafeRun(c, events)
    ensures HasRoom(After(c, events).world)
  {
    if events != [] {
      var front, last := events[..|events| - 1], events[|events| - 1];
      SafeRunHasRoom(c, front);
      RunIsPlain(c, front);
      if last.Reconciles? {
        SafeReconcileHasRoom(After(c, front), last.faults);
        assert Step(After(c, front), last) == Moments(After(c, front), last.faults)[3];
      }
    }
  }

  /**
   * Over every run from a fresh resource, with edits at any time: no published member is ever without its place exactly
   * when every reconcile that could start in it is safe.
   */
  lemma {:induction false} RunIsPlacedExactly(c: Cluster, events: seq<Event>)
    requires Fresh(c) && Covered(c.mdb.spec) && CoveredRun(events)
    ensures PlacedRun(c, events) <==> SafeRun(c, events)
  {
    var d := After(c, events);
    RunIsPlain(c, events);
    if events != [] {
      RunIsPlacedExactly(c, events[..|events| - 1]);
    }
    if SafeRun(c, events) {
      SafeRunHasRoom(c, events);
      PlacedIsRoom(d.mdb, d.world);
      ReconcileIsSafeExactly(d);
    } else if PlacedRun(c, events) {
      assert PlacedAt(Moments(d, NO_FAULTS)[0]);
      assert Moments(d, NO_FAULTS)[0] == d;
      ReconcileIsSafeExactly(d);
    }
  }

  // ---------------------------------------------------------------- waiting for pods that cannot come

  /** The world in which the config stage of a reconcile starts, if it does. */
  function ConfigStageStart(m: ValidResource, w: World, f: Faults): Option<World> {
    if ConfigFirst(m) then Some(w)
    else if DeployStatefulSet(m, w, f).1 == Ready then Some(DeployStatefulSet(m, w, f).0) else None
  }

  /** The config stage waits for more pods than the stateful set is told to run. */
  predicate WaitsInVain(m: ValidResource, w: World, f: Faults) {
    var start := ConfigStageStart(m, w, f);
    start.Some? && start.value.sts.Some? && StatefulSetReplicasThisReconciliation(m) > Replicas(start.value)
  }

  /** In an ordered cluster this does not happen, so it does not happen in any run with allowed edits. */
  lemma OrderedNeverWaitsInVain(m: ValidResource, w: World, f: Faults)
    requires Ordered(m, w)
    ensures !WaitsInVain(m, w, f)
  {
    if !ConfigFirst(m) {
      StsStage(m, w, f);
    }
  }

  lemma AllowedRunNeverWaitsInVain(c: Cluster, events: seq<Event>, f: Faults)
    requires Fresh(c) && Covered(c.mdb.spec) && AllowedRun(c, events)
    ensures var d := After(c, events); ValidCounts(d.mdb.spec) && !WaitsInVain(d.mdb, d.world, f)
  {
    RunKeepsOrder(c, events);
    OrderedNeverWaitsInVain(After(c, events).mdb, After(c, events).world, f);
  }

  /**
   * After an edit, in any state of scaling, it happens exactly when the edit raises the members during the first
   * deployment, or takes them back during a shrink with the config first.
   */
  lemma EditWaitsInVainExactly(c: Cluster, spec: Spec)
    requires Ordered(c.mdb, c.world) && Covered(spec)
    ensures var d := Step(c, Edit(spec));
            (exists f: Faults :: WaitsInVain(d.mdb, d.world, f)) <==> ConfigRunsAhead(c, spec)
  {
    var d := Step(c, Edit(spec));
    if ConfigRunsAhead(c, spec) {
      assert WaitsInVain(d.mdb, d.world, NO_FAULTS);
    }
    forall f: Faults | WaitsInVain(d.mdb, d.world, f)
      ensures ConfigRunsAhead(c, spec)
    {
      if !ConfigFirst(d.mdb) {
        StsStage(d.mdb, d.world, f);
      }
    }
  }

  lemma ShrinkingStsIsNotReady(m: ValidResource, w: World, f: Faults)
    requires Covered(m.spec) && !IsChangingVersion(m) && w.sts.Some?
             && w.sts.value.observedGeneration <= w.sts.value.generation
    requires w.sts.value.replicas != StatefulSetReplicasThisReconciliation(m) && !f.stsWrite && !f.arbiterStsWrite
             && !f.stsReadBack
    ensures var (v, outcome) := DeployStatefulSet(m, w, f);
            outcome == NotReady && Replicas(v) == StatefulSetReplicasThisReconciliation(m)
  {
  }

  /**
   * Every shrinking step leaves a cluster with one replica less than its member counter says: the stateful set has a new
   * generation, which nobody has observed yet, so the reconcile ends before it moves the counters.
   */
  lemma ShrinkingLeavesCounterBehind(c: Cluster, f: Faults)
    requires Ordered(c.mdb, c.world) && c.mdb.spec.members < c.mdb.status.stsMembers == Replicas(c.world)
    requires !IsChangingVersion(c.mdb) && c.world.sts.value.observedGeneration <= c.world.sts.value.generation
    requires Proceeds(c.mdb, f) && !f.stsWrite && !f.arbiterStsWrite && !f.stsReadBack
             && FirstStage(c.mdb, c.world, f).1 == Ready
    ensures var d := Reconcile(c, f);
            && Ordered(d.mdb, d.world) && d.mdb.spec == c.mdb.spec && d.mdb.lastVersion == c.mdb.lastVersion
            && Replicas(d.world) == d.mdb.status.stsMembers - 1 == c.mdb.status.stsMembers - 1
            && (f.statusWrite || d.mdb.status.phase.Pending?)
  {
    OrderFollowsDirection(c.mdb, c.world, f);
    AcStage(c.mdb, c.world, f);
    StagesOfReconcile(c.mdb, c.world, f);
    ShrinkingStsIsNotReady(c.mdb, FirstStage(c.mdb, c.world, f).0, f);
    ReconcileKeepsOrder(c, f);
    assert Moments(c, f)[3] == Reconcile(c, f);
  }

  /** The first pod runs, and the n-th one does not exist. */
  predicate SomePodsMissing(pods: Pods, name: string, n: int) {
    && n >= 2
    && ProcessName(name, 0, false) in pods && pods[ProcessName(name, 0, false)].Found?
    && ProcessName(name, n - 1, false) !in pods
  }

  /** The config comes first and waits for a pod that does not exist, beyond what the stateful set is told to run. */
  predicate Stuck(c: Cluster) {
    && Covered(c.mdb.spec) && ConfigFirst(c.mdb) && c.world.sts.Some? && c.world.sts.value.readinessProbe
    && StatefulSetReplicasThisReconciliation(c.mdb) > Replicas(c.world)
    && SomePodsMissing(c.world.pods, c.mdb.name, StatefulSetReplicasThisReconciliation(c.mdb))
  }

  lemma MissingPodBlocks(m: ValidResource, pods: Pods, version: int)
    requires SomePodsMissing(pods, m.name, StatefulSetReplicasThisReconciliation(m))
    ensures AgentsOutcome(m, pods, version) != Ready
  {
    var n := StatefulSetReplicasThisReconciliation(m);
    var states := PodStates(pods, m.name, n, 0, version);
    assert states[0].found && !states[n - 1].found;
  }

  /** The phase differs at most, and not by becoming Running. */
  predicate SameExceptPhase(m: Resource, n: Resource) {
    n == m.(status := m.status.(phase := n.status.phase)) && (n.status.phase.Running? ==> n == m)
  }

  lemma StuckStageBlocks(m: ValidResource, w: World, f: Faults, e: Ensured)
    requires Stuck(Cluster(m, w))
    ensures AfterPublishing(m, w, e).0 == w.(secret := e.secret) && AfterPublishing(m, w, e).1 != Ready
  {
    if e.result.Ok? {
      MissingPodBlocks(m, w.pods, e.result.value.version);
    }
  }

  lemma StuckStep(c: Cluster, f: Faults)
    requires Stuck(c)
    ensures var d := Reconcile(c, f);
            Stuck(d) && SameExceptPhase(c.mdb, d.mdb) && d.world.sts == c.world.sts
  {
    if Proceeds(c.mdb, f) {
      StagesOfReconcile(c.mdb, c.world, f);
      StuckStageBlocks(c.mdb, c.world, f, EnsureAutomationConfig(c.mdb, c.world.secret, c.world.pods, f));
    }
  }

  /** Nobody edits, and the pods stay as they are told: the first one runs, the n-th does not exist. */
  predicate NobodyHelps(events: seq<Event>, name: string, n: int) {
    forall i :: 0 <= i < |events| ==>
      !events[i].Edit? && (events[i].Environment? ==> SomePodsMissing(events[i].pods, name, n))
  }

  /**
   * From a stuck cluster no number of reconciles finishes, whatever fails and whatever the agents report: no counter
   * moves, no replica is added, and the phase does not become Running.
   */
  lemma {:induction false} StuckNeverFinishes(c: Cluster, events: seq<Event>)
    requires Stuck(c) && NobodyHelps(events, c.mdb.name, StatefulSetReplicasThisReconciliation(c.mdb))
    ensures var d := After(c, events);
            Stuck(d) && SameExceptPhase(c.mdb, d.mdb) && Replicas(d.world) == Replicas(c.world)
  {
    if events != [] {
      var front, last := events[..|events| - 1], events[|events| - 1];
      StuckNeverFinishes(c, front);
      if last.Reconciles? {
        StuckStep(After(c, front), last.faults);
      }
    }
  }

  /**
   * The edits after which the config waits in vain lead there, in whatever state of scaling they come: with the pods as the
   * stateful set has them no number of reconciles finishes.
   */
  lemma EditNeverFinishes(c: Cluster, spec: Spec, events: seq<Event>)
    requires Ordered(c.mdb, c.world) && Covered(spec) && ConfigRunsAhead(c, spec)
    requires SomePodsMissing(c.world.pods, c.mdb.name, spec.members) && NobodyHelps(events, c.mdb.name, spec.members)
    ensures var d := After(Step(c, Edit(spec)), events);
            Replicas(d.world) == Replicas(c.world) < spec.members && SameExceptPhase(c.mdb.(spec := spec), d.mdb)
  {
    StuckNeverFinishes(Step(c, Edit(spec)), events);
  }
}
