/**
 * Runs of the operator and its agents, from a resource that was just created, after which the service misses a port; a
 * config with a port of 0, and phases that are reported too early.
 */
module WitnessPorts {
  import opened AgentReadiness
  import opened Config
  import opened ConfigBuilder
  import opened ConfigBuilderProperties
  import opened ConfigStore
  import opened ConfigStoreProperties
  import opened Controller
  import opened Placement
  import opened PortManager
  import opened PortProgress
  import opened PortProperties
  import opened PortProtocol
  import opened PortRuns
  import opened PortService
  import opened Resource
  import opened WitnessDeployment
  import opened Wrappers
  import Ordering
  import Scaling

  // ---------------------------------------------------------------- a port of 0

  /** Five members and one arbiter become two members and none: the next config has an arbiter on port 0. */
  lemma RemovedArbiterGetsPortZero(m: ValidResource, secret: AcSecret, pods: Pods)
    requires m.status.acMembers == m.status.stsMembers == 5 && m.status.acArbiters == m.status.stsArbiters == 1
    requires m.spec.members == 2 && m.spec.arbiters == 0 && ExpectedPort(m.spec) != 0
    requires GivesFcv(m.spec) && secret.Stored? && PortInputsReadable(m, pods)
    ensures var e := EnsureAutomationConfig(m, secret, pods, NO_FAULTS);
            e.result.Ok? && e.secret.Stored? && exists i :: 0 <= i < |Ports(e.secret.ac)| && Ports(e.secret.ac)[i] == 0
  {
    var p, e := PassFor(m, secret.ac, pods, NO_FAULTS.acStore), EnsureAutomationConfig(m, secret, pods, NO_FAULTS);
    GivenFcvIsPublishable(m, World(secret, None, None, pods));
    PublishedPorts(secret.ac, p);
    EditBuildsPortZeroExactly(m, secret.ac, pods);
    var built := BuildSpec(p.settings, p.modifications, p.fcv, [], secret.ac).value;
    var i :| 0 <= i < |built.processes| && built.processes[i].GetPort() == 0;
    assert Ports(e.secret.ac)[i] == 0;
  }

  // ---------------------------------------------------------------- every agent catches up with the config

  lemma EndsOneMore(x: System, events: seq<Happening>, e: Happening)
    ensures Ends(x, events + [e]) == Next(Ends(x, events), e)
  {
    assert (events + [e])[..|events|] == events;
  }

  lemma {:induction false} EndsTwoParts(x: System, front: seq<Happening>, back: seq<Happening>)
    ensures Ends(x, front + back) == Ends(Ends(x, front), back)
  {
    if back == [] {
      assert front + back == front;
    } else {
      var most, last := back[..|back| - 1], back[|back| - 1];
      assert front + back == front + most + [last] && back == most + [last];
      EndsTwoParts(x, front, most);
      EndsOneMore(x, front + most, last);
      EndsOneMore(Ends(x, front), most, last);
    }
  }

  /** The i-th pod starts, and its agent fetches, applies and reports. */
  function CatchUp(i: nat): seq<Happening> {
    [Agents(i, PodStart)] + [Agents(i, Fetch)] + [Agents(i, ApplyGoal)] + [Agents(i, Report)]
  }

  function AllCatchUp(n: nat): seq<Happening> {
    if n == 0 then [] else AllCatchUp(n - 1) + CatchUp(n - 1)
  }

  /** An agent that has applied and reported this goal. */
  function AtGoal(g: Goal): Agent {
    Agent(Some(g), Some(g.port), Some(g.version), Some(g.version))
  }

  function GoalIn(x: System, i: nat): Option<Goal> {
    GoalOf(x.cluster.world.secret, i)
  }

  lemma OneCatchesUp(x: System, i: nat)
    requires i < |x.agents| && x.agents[i].Absent? && GoalIn(x, i).Some?
    ensures Ends(x, CatchUp(i)) == x.(agents := x.agents[i := AtGoal(GoalIn(x, i).value)])
  {
    var a, b, c := [Agents(i, PodStart)], [Agents(i, Fetch)], [Agents(i, ApplyGoal)];
    assert Ends(x, []) == x && [] + a == a;
    EndsOneMore(x, [], Agents(i, PodStart));
    EndsOneMore(x, a, Agents(i, Fetch));
    EndsOneMore(x, a + b, Agents(i, ApplyGoal));
    EndsOneMore(x, a + b + c, Agents(i, Report));
  }

  /** The first n agents are at the goal of the stored config. */
  predicate CaughtUp(x: System, n: nat) {
    n <= |x.agents| && x.cluster.world.secret.Stored? && |x.cluster.world.secret.ac.processes| == |x.agents|
    && forall i :: 0 <= i < n ==> x.agents[i] == AtGoal(GoalIn(x, i).value)
  }

  /** The agents from the n-th on are as in x, the others have caught up. */
  predicate CatchingUp(x: System, y: System, n: nat) {
    CaughtUp(y, n) && y == x.(agents := y.agents) && |y.agents| == |x.agents| && y.agents[n..] == x.agents[n..]
  }

  /** A config is stored, and there is no pod. */
  predicate NobodyRuns(x: System) {
    x.cluster.world.secret.Stored? && |x.cluster.world.secret.ac.processes| == |x.agents|
    && forall i :: 0 <= i < |x.agents| ==> x.agents[i].Absent?
  }

  lemma OneMoreCatchesUp(x: System, y: System, n: nat)
    requires NobodyRuns(x) && CatchingUp(x, y, n) && n < |x.agents|
    ensures CatchingUp(x, Ends(y, CatchUp(n)), n + 1)
  {
    assert y.agents[n] == y.agents[n..][0];
    assert y.agents[n + 1..] == y.agents[n..][1..];
    OneCatchesUp(y, n);
  }

  lemma NextCatchesUp(x: System, front: seq<Happening>, n: nat)
    requires NobodyRuns(x) && n < |x.agents| && CatchingUp(x, Ends(x, front), n)
    ensures CatchingUp(x, Ends(x, front + CatchUp(n)), n + 1)
  {
    EndsTwoParts(x, front, CatchUp(n));
    OneMoreCatchesUp(x, Ends(x, front), n);
  }

  lemma {:induction false} AllAreCaughtUp(x: System, n: nat)
    requires NobodyRuns(x) && n <= |x.agents|
    ensures CatchingUp(x, Ends(x, AllCatchUp(n)), n)
  {
    if n > 0 {
      AllAreCaughtUp(x, n - 1);
      NextCatchesUp(x, AllCatchUp(n - 1), n - 1);
    }
  }

  // ---------------------------------------------------------------- deployment, with agents

  /** A new resource without arbiters, and no pods. */
  predicate Begins(x: System) {
    PortRuns.New(x) && Deployable(x.cluster.mdb.spec)
  }

  const FIRST := PortRuns.Reconciles(NO_PODS, NO_FAULTS)

  /** The pods of a replica set whose agents have all reported the stored version. */
  function PodsNow(x: System): Pods {
    PodsAt(x.cluster.mdb.name, x.members, VersionOf(x.cluster.world.secret))
  }

  function Started(x: System): seq<Happening> {
    [FIRST] + AllCatchUp(x.members) + [StatefulSets(1, x.members, x.members)]
  }

  function Settled(x: System): seq<Happening> {
    Started(x) + [PortRuns.Reconciles(PodsNow(Ends(x, Started(x))), NO_FAULTS)]
  }

  /** A system whose cluster is healthy, with every agent at the stored config. */
  ghost predicate HealthySystem(x: System) {
    && Healthy(x.cluster, x.members) && x.arbiters == 0 && |x.agents| == x.members && CaughtUp(x, x.members)
  }

  lemma StartedRun(x: System)
    requires Begins(x)
    ensures var y := Ends(x, Started(x));
            && y == x.(cluster := y.cluster, agents := y.agents) && |y.agents| == x.members && CaughtUp(y, x.members)
            && Created(y.cluster) && y.cluster.mdb == x.cluster.mdb
            && y.cluster.world.sts == Some(StatefulSet(x.members, 1, 1, x.members, x.members, false, true))
  {
    var y := Ends(x, [FIRST]);
    FirstHappening(x);
    EndsTwoParts(x, [FIRST], AllCatchUp(x.members));
    AllAreCaughtUp(y, x.members);
    EndsOneMore(x, [FIRST] + AllCatchUp(x.members), StatefulSets(1, x.members, x.members));
    ReportKeepsCreated(Ends(y, AllCatchUp(x.members)));
  }

  lemma FirstHappening(x: System)
    requires Begins(x)
    ensures var y := Ends(x, [FIRST]);
            && y == x.(cluster := y.cluster) && NobodyRuns(y)
            && Created(y.cluster) && y.cluster.mdb == x.cluster.mdb
            && y.cluster.world.sts == Some(StatefulSet(x.members, 1, 0, 0, 0, false, true))
  {
    EndsOneMore(x, [], FIRST);
    assert Ends(x, []) == x && [] + [FIRST] == [FIRST];
    FirstReconcile(Seen(x.cluster, NO_PODS));
    PortCount(x.cluster.mdb, Ends(x, [FIRST]).cluster.world.secret.ac);
  }

  /** The resource does not see what its stateful set reports. */
  lemma CreatedForAnyReport(c: Cluster, n: nat)
    requires Created(c) && c.world.sts == Some(StatefulSet(n, 1, 0, 0, 0, false, true))
    ensures Created(c.(world := c.world.(sts := Some(StatefulSet(n, 1, 1, n, n, false, true)))))
  {
  }

  lemma ReportKeepsCreated(y: System)
    requires Created(y.cluster) && y.cluster.world.sts == Some(StatefulSet(y.members, 1, 0, 0, 0, false, true))
    ensures var z := Next(y, StatefulSets(1, y.members, y.members));
            && z == y.(cluster := z.cluster) && Created(z.cluster) && z.cluster.mdb == y.cluster.mdb
            && z.cluster.world.secret == y.cluster.world.secret
            && z.cluster.world.sts == Some(StatefulSet(y.members, 1, 1, y.members, y.members, false, true))
  {
    var c := y.cluster;
    CreatedForAnyReport(c, y.members);
    assert Next(y, StatefulSets(1, y.members, y.members)).cluster
           == c.(world := c.world.(sts := Some(StatefulSet(y.members, 1, 1, y.members, y.members, false, true))));
  }

  /** A reconcile reads those pods. */
  lemma PodsNowShow(x: System)
    requires x.arbiters == 0 && |x.agents| == x.members && CaughtUp(x, x.members)
    ensures ShowsAgents(PodsNow(x), View(x, 0))
  {
  }

  lemma SettledRun(x: System)
    requires Begins(x)
    ensures var y := Ends(x, Settled(x));
            HealthySystem(y) && y == x.(cluster := y.cluster, agents := y.agents)
            && y.cluster.mdb.spec == x.cluster.mdb.spec && y.cluster.mdb.name == x.cluster.mdb.name
  {
    var y := Ends(x, Started(x));
    StartedRun(x);
    PodsNowShow(y);
    EndsOneMore(x, Started(x), PortRuns.Reconciles(PodsNow(y), NO_FAULTS));
    SecondReconcile(Seen(y.cluster, PodsNow(y)));
    SecondReconcileKeepsConfig(y.cluster, PodsNow(y), x.members);
  }

  lemma SecondReconcileKeepsConfig(c: Cluster, pods: Pods, n: nat)
    requires Created(c) && c.mdb.spec.members == n && c.world.sts == Some(StatefulSet(n, 1, 1, n, n, false, true))
    requires pods == PodsAt(c.mdb.name, n, c.world.secret.ac.version)
    ensures Reconcile(Seen(c, pods), NO_FAULTS).world.secret == c.world.secret
  {
    Ordering.ReconcilePublishesExactly(Seen(c, pods), NO_FAULTS);
    PodsAtAreReadable(c.mdb, n, c.world.secret.ac.version);
    PublicationIsIdle(c.mdb, c.world.secret.ac, pods);
  }

  // ---------------------------------------------------------------- a change of port, up to its first publication

  /** The deployment settles, another port is asked for, and a reconcile sees every agent at goal. */
  function Change(x: System, port: int): seq<Happening> {
    Settled(x) + [PortRuns.Edit(Asking(x.cluster.mdb, port).spec)]
    + [PortRuns.Reconciles(PodsNow(Ends(x, Settled(x))), NO_FAULTS)]
  }

  /** The first process is told to move, the others are not, and all of them still run on the old port. */
  predicate Moving(x: System, port: int, port': int) {
    && x.cluster.world.secret.Stored?
    && var ports := Ports(x.cluster.world.secret.ac);
       && |ports| == |x.agents| == x.members > 0 && ports[0] == port'
          && (forall i :: 0 < i < x.members ==> ports[i] == port)
       && forall i :: 0 <= i < x.members ==> x.agents[i].Agent? && x.agents[i].running == Some(port)
  }

  /** The config of a moving system belongs to its resource, which asks for the new port. */
  predicate Asked(x: System, m: Resource, port': int) {
    && x.cluster.mdb.spec == Asking(m, port').spec && AimsAtSpec(x.cluster.mdb) && x.cluster.mdb.name == m.name
    && x.cluster.world.secret.Stored?
    && HasTopology(x.cluster.world.secret.ac, m.name, m.spec.members, m.spec.arbiters)
    && NonZero(Ports(x.cluster.world.secret.ac))
  }

  lemma FirstMoves(ports: seq<int>, port: int, port': int)
    requires |ports| > 0 && AllAre(ports, port) && port != port'
    ensures NextPorts(ports, port', true) == ports[0 := port']
  {
  }

  /** What the reconcile after the edit publishes. */
  lemma EditMovesFirst(c: Cluster, n: nat, port': int)
    requires Healthy(c, n) && port' != 0 && port' != ExpectedPort(c.mdb.spec)
    ensures |c.world.secret.ac.processes| == n > 0
    ensures var edited := Cluster(Asking(c.mdb, port'), c.world);
            var d := Reconcile(edited, NO_FAULTS);
            && d.mdb.spec == edited.mdb.spec && d.mdb.name == c.mdb.name && AimsAtSpec(d.mdb)
            && d.world.secret.Stored? && HasTopology(d.world.secret.ac, c.mdb.name, n, 0)
            && NonZero(Ports(d.world.secret.ac))
            && Ports(d.world.secret.ac) == Ports(c.world.secret.ac)[0 := port']
  {
    var edited := Cluster(Asking(c.mdb, port'), c.world);
    PortEditKeepsAim(c.mdb, port');
    PortCount(c.mdb, c.world.secret.ac);
    Ordering.ReconcilePublishesExactly(edited, NO_FAULTS);
    SettledReconcilesPublish(edited, NO_FAULTS);
    PublicationMovesFirst(edited.mdb, c.world.secret.ac, n, ExpectedPort(c.mdb.spec));
    OnTargetStays(edited, NO_FAULTS);
  }

  /** With every agent at goal the publication for another port moves the first process. */
  lemma PublicationMovesFirst(asking: ValidResource, ac: AutomationConfig, n: nat, port: int)
    requires OnTarget(asking, asking.name, n, 0) && GivesFcv(asking.spec)
    requires n > 0 && HasTopology(ac, asking.name, n, 0) && |Ports(ac)| == n
    requires AllAre(Ports(ac), port) && port != 0 && port != ExpectedPort(asking.spec)
    ensures var pods := PodsAt(asking.name, n, ac.version);
            var after := EnsureAutomationConfig(asking, Stored(ac), pods, NO_FAULTS).secret;
            after.Stored? && HasTopology(after.ac, asking.name, n, 0)
            && Ports(after.ac) == Ports(ac)[0 := ExpectedPort(asking.spec)]
  {
    var pods := PodsAt(asking.name, n, ac.version);
    PodsAtAreAtGoal(asking, n, ac.version);
    GivenFcvIsPublishable(asking, World(Stored(ac), None, None, pods));
    PublicationMovesOnePort(asking, ac, PassFor(asking, ac, pods, NO_FAULTS.acStore), pods, n, 0);
    FirstMoves(Ports(ac), port, ExpectedPort(asking.spec));
  }

  lemma PodsAtAreAtGoal(m: ValidResource, n: nat, version: int)
    requires OnTarget(m, m.name, n, 0)
    ensures AllAtGoal(StatesOf(m, version, PodsAt(m.name, n, version)))
    ensures PortInputsReadable(m, PodsAt(m.name, n, version))
  {
  }

  lemma ChangeMoves(x: System, port: int, port': int)
    requires Begins(x) && port == ExpectedPort(x.cluster.mdb.spec) && port' != 0 && port != port'
    ensures var y := Ends(x, Change(x, port'));
            Moving(y, port, port') && Asked(y, x.cluster.mdb, port') && y.members == x.members
  {
    var y := Ends(x, Settled(x));
    var edit, read := PortRuns.Edit(Asking(x.cluster.mdb, port').spec), PortRuns.Reconciles(PodsNow(y), NO_FAULTS);
    SettledRun(x);
    EndsOneMore(x, Settled(x), edit);
    EndsOneMore(x, Settled(x) + [edit], read);
    EditedMoves(y, port, port');
  }

  lemma EditedMoves(y: System, port: int, port': int)
    requires HealthySystem(y) && port == ExpectedPort(y.cluster.mdb.spec) && port' != 0 && port != port'
    ensures var edited := Next(y, PortRuns.Edit(Asking(y.cluster.mdb, port').spec));
            var z := Next(edited, PortRuns.Reconciles(PodsNow(y), NO_FAULTS));
            Moving(z, port, port') && Asked(z, y.cluster.mdb, port') && z.members == y.members
  {
    var edited := Next(y, PortRuns.Edit(Asking(y.cluster.mdb, port').spec));
    PodsNowShow(y);
    assert View(edited, 0) == View(y, 0);
    assert Seen(edited.cluster, PodsNow(y)) == Cluster(Asking(y.cluster.mdb, port'), y.cluster.world);
    EditMovesFirst(y.cluster, y.members, port');
    forall i | 0 <= i < y.members
      ensures y.agents[i].Agent? && y.agents[i].running == Some(port)
    {
      assert Ports(y.cluster.world.secret.ac)[i] == y.cluster.world.secret.ac.processes[i].GetPort();
    }
  }

  // ---------------------------------------------------------------- what the service misses

  lemma AskedStaysAsked(y: System, m: Resource, port': int, port: int)
    requires Asked(y, m, port') && port != 0
    ensures AimsAtSpec(Asking(y.cluster.mdb, port)) && ExpectedPort(Asking(y.cluster.mdb, port).spec) == port
  {
    PortEditKeepsAim(y.cluster.mdb, port);
  }

  /**
   * Two members are about to move from one port to another, and a third port is asked for: the service may leave out one
   * of the two ports that are published.
   */
  lemma ThirdPortIsMissed(x: System, port': int, port'': int, pods: Pods)
    requires Begins(x) && x.members == 2 && port' != 0 && port'' != 0 && port' != port''
    requires port' != ExpectedPort(x.cluster.mdb.spec) && port'' != ExpectedPort(x.cluster.mdb.spec)
    ensures var y := Ends(x, Change(x, port'));
            && y.cluster.world.secret.Stored? && AimsAtSpec(Asking(y.cluster.mdb, port''))
            && exists r :: MayShow(Asking(y.cluster.mdb, port''), y.cluster.world.secret.ac, pods, r)
                           && !Covers(r, Ports(y.cluster.world.secret.ac))
  {
    var y, port := Ends(x, Change(x, port')), ExpectedPort(x.cluster.mdb.spec);
    ChangeMoves(x, port, port');
    AskedStaysAsked(y, x.cluster.mdb, port', port'');
    assert Ports(y.cluster.world.secret.ac)[0] == port' && Ports(y.cluster.world.secret.ac)[1] == port;
    ServiceCoversExactly(Asking(y.cluster.mdb, port''), y.cluster.world.secret.ac, pods);
  }

  lemma StaleProcessIsMissed(m: ValidResource, ac: AutomationConfig, pods: Pods, agents: seq<Agent>, port: int)
    requires AimsAtSpec(m) && HasTopology(ac, m.name, m.spec.members, m.spec.arbiters) && NonZero(Ports(ac))
    requires Ports(ac) == [ExpectedPort(m.spec)] && port != ExpectedPort(m.spec)
    requires |agents| == 1 && agents[0].Agent? && agents[0].running == Some(port)
    ensures !ServiceCoversRunning(m, ac, pods, agents)
  {
    ConfigCoversRunningExactly(m, ac, pods, agents);
  }

  /**
   * A single member, at rest before the port was edited, has been told to move and has not moved yet: the service of the
   * next reconcile does not show the port on which it still runs.
   */
  lemma LastProcessIsMissed(x: System, port': int, pods: Pods)
    requires Begins(x) && x.members == 1 && port' != 0 && port' != ExpectedPort(x.cluster.mdb.spec)
    ensures HealthySystem(Ends(x, Settled(x)))
    ensures var y := Ends(x, Change(x, port'));
            && y.cluster.world.secret.Stored? && AimsAtSpec(y.cluster.mdb) && |y.agents| == 1 && RunsElsewhere(y, 0)
            && !ServiceCoversRunning(y.cluster.mdb, y.cluster.world.secret.ac, pods, y.agents)
  {
    var y, port := Ends(x, Change(x, port')), ExpectedPort(x.cluster.mdb.spec);
    SettledRun(x);
    ChangeMoves(x, port, port');
    var ac := y.cluster.world.secret.ac;
    PortEditKeepsExpected(x.cluster.mdb, port');
    assert Ports(ac) == [port'] && ac.processes[0].GetPort() == Ports(ac)[0];
    StaleProcessIsMissed(y.cluster.mdb, ac, pods, y.agents, port);
  }

  lemma PortEditKeepsExpected(m: Resource, port: int)
    ensures ExpectedPort(Asking(m, port).spec) == port
  {
  }

  // ---------------------------------------------------------------- Running too early

  /** Five members and two arbiters become three members and none: after two reconciles the config has an arbiter. */
  lemma RunningTooEarly(m: ValidResource)
    requires m.status.acMembers == m.status.stsMembers == 5 && m.status.acArbiters == m.status.stsArbiters == 2
    requires m.spec.members == 3 && m.spec.arbiters == 0
    ensures var d := Scaling.Advance(m, 2); d.status.phase.Running? && d.status.acArbiters == 1
  {
    Scaling.PhaseAfter(m, 2);
    Scaling.CountersAfter(m, 2);
  }

  /**
   * Three members become nine, and no arbiters four; after four reconciles the spec goes back to the seven members that
   * are there.  The next reconcile reports Running with one arbiter in the config.
   */
  lemma RunningTooEarlyAfterEdit(m: ValidResource)
    requires m.status.acMembers == m.status.stsMembers == 3 && m.status.acArbiters == m.status.stsArbiters == 0
    requires m.spec.members == 9 && m.spec.arbiters == 4 && m.spec.customReplicas.None?
    ensures var n: ValidResource := Scaling.Advance(m, 4);
            var edited: ValidResource := n.(spec := m.spec.(members := 7));
            var d := Scaling.Advance(edited, 1); d.status.phase.Running? && d.status.acArbiters == 1
  {
    Scaling.CountersAfter(m, 4);
    var n: ValidResource := Scaling.Advance(m, 4);
    var edited: ValidResource := n.(spec := m.spec.(members := 7));
    Scaling.PhaseAfter(edited, 1);
    Scaling.CountersAfter(edited, 1);
  }
}
