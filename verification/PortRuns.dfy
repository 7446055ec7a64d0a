/**
 * Runs of the operator together with its agents: every one of them, as long as the counts stay, is a run of the port change
 * protocol, so what holds of the protocol holds of the operator from the creation of the resource on.
 */
module PortRuns {
  import opened AgentReadiness
  import opened Config
  import opened Controller
  import opened PortProperties
  import opened PortProtocol
  import opened PortService
  import opened Resource
  import Ordering
  import Runs

  /** The cluster, with the counts that its resource asks for, and the agent of every process. */
  datatype System = System(cluster: Cluster, members: nat, arbiters: nat, agents: seq<Agent>)

  /** Reconciles read the pods as the agents have left them; single reads may fail. */
  datatype Happening =
    | Reconciles(pods: Pods, faults: Faults)
    | Edit(spec: Spec)
    | StatefulSets(observedGeneration: nat, updatedReplicas: int, readyReplicas: int)
    | Agents(i: nat, act: Act)

  /** The protocol's view of a system. */
  function View(x: System, expected: int): State {
    State(x.cluster.mdb.name, x.members, x.arbiters, x.cluster.world.secret, x.agents, expected)
  }

  /** The cluster as a reconcile reads it. */
  function Seen(c: Cluster, pods: Pods): Cluster {
    c.(world := c.world.(pods := pods))
  }

  function Next(x: System, e: Happening): System {
    match e
    case Reconciles(pods, f) =>
      if ShowsAgents(pods, View(x, 0)) then x.(cluster := Reconcile(Seen(x.cluster, pods), f)) else x
    case Edit(spec) => x.(cluster := Runs.Step(x.cluster, Runs.Edit(spec)))
    case StatefulSets(observed, updated, ready) =>
      x.(cluster := Runs.Step(x.cluster, Runs.Environment(x.cluster.world.pods, observed, updated, ready)))
    case Agents(i, act) =>
      if i < |x.agents|
      then x.(agents := x.agents[i := NextAgent(x.agents[i], act, GoalOf(x.cluster.world.secret, i))]) else x
  }

  function Ends(x: System, events: seq<Happening>): System {
    if events == [] then x else Next(Ends(x, events[..|events| - 1]), events[|events| - 1])
  }

  /** The spec may be edited in everything but its counts. */
  predicate KeepsCounts(x: System, events: seq<Happening>) {
    forall i :: 0 <= i < |events| && events[i].Edit? ==> HasCounts(events[i].spec, x.members, x.arbiters)
  }

  predicate HasCounts(spec: Spec, members: nat, arbiters: nat) {
    ValidCounts(spec) && spec.members == members && spec.arbiters == arbiters && ExpectedPort(spec) != 0
  }

  /** The resource aims at the counts of the system. */
  predicate Aims(x: System) {
    ValidCounts(x.cluster.mdb.spec) && OnTarget(x.cluster.mdb, x.cluster.mdb.name, x.members, x.arbiters)
  }

  // ---------------------------------------------------------------- the operator runs the protocol

  /** The publications and acts among the events: a reconcile that does not get to its config stage is none of them. */
  function Translated(x: System, events: seq<Happening>): seq<Event> {
    if events == [] then [] else
    var front, last := events[..|events| - 1], events[|events| - 1];
    Translated(x, front) + AsEvents(Ends(x, front), last)
  }

  function AsEvents(x: System, e: Happening): seq<Event> {
    match e
    case Reconciles(pods, f) => if Publication(Seen(x.cluster, pods), f) then [Publishes(x.cluster.mdb, pods, f)] else []
    case Agents(i, act) => [Acts(i, act)]
    case _ => []
  }

  predicate Publication(c: Cluster, f: Faults) {
    Proceeds(c.mdb, f) && Ordering.ConfigStageRuns(c.mdb, c.world, f)
  }

  /** A state of the protocol shows this system, whatever port was last asked for. */
  predicate Shows(st: State, x: System) {
    st == View(x, st.expected)
  }

  lemma ReconcileIsTranslated(st: State, x: System, pods: Pods, f: Faults)
    requires Shows(st, x) && Aims(x) && ShowsAgents(pods, st)
    ensures var y := x.(cluster := Reconcile(Seen(x.cluster, pods), f));
            Aims(y) && Shows(PortProtocol.After(st, AsEvents(x, Reconciles(pods, f))), y)
  {
    var c := Seen(x.cluster, pods);
    OnTargetStays(c, f);
    Ordering.ReconcilePublishesExactly(c, f);
    assert PortProtocol.After(st, []) == st;
    if Publication(c, f) {
      SingleEvent(st, Publishes(c.mdb, pods, f));
    }
  }

  lemma SingleEvent(st: State, e: Event)
    ensures PortProtocol.After(st, [e]) == PortProtocol.Step(st, e)
  {
    assert [e][..0] == [];
  }

  lemma EditKeepsAim(x: System, spec: Spec)
    requires Aims(x) && HasCounts(spec, x.members, x.arbiters)
    ensures Aims(Next(x, Edit(spec)))
  {
  }

  lemma ReadIsTranslated(st: State, x: System, pods: Pods, f: Faults)
    requires Shows(st, x) && Aims(x)
    ensures var e := Reconciles(pods, f); Aims(Next(x, e)) && Shows(PortProtocol.After(st, AsEvents(x, e)), Next(x, e))
  {
    if ShowsAgents(pods, View(x, 0)) {
      ReconcileIsTranslated(st, x, pods, f);
    } else {
      assert PortProtocol.After(st, []) == st;
      SingleEvent(st, Publishes(x.cluster.mdb, pods, f));
    }
  }

  lemma ActIsTranslated(st: State, x: System, i: nat, act: Act)
    requires Shows(st, x) && Aims(x)
    ensures var e := Agents(i, act); Aims(Next(x, e)) && Shows(PortProtocol.After(st, AsEvents(x, e)), Next(x, e))
  {
    SingleEvent(st, Acts(i, act));
  }

  /** Neither edits nor stateful set controllers are events of the protocol. */
  lemma OtherIsTranslated(st: State, x: System, e: Happening)
    requires Shows(st, x) && Aims(x) && (e.StatefulSets? || (e.Edit? && HasCounts(e.spec, x.members, x.arbiters)))
    ensures Aims(Next(x, e)) && Shows(PortProtocol.After(st, AsEvents(x, e)), Next(x, e))
  {
    assert PortProtocol.After(st, []) == st;
    if e.Edit? {
      EditKeepsAim(x, e.spec);
    }
  }

  lemma NextIsTranslated(st: State, x: System, e: Happening)
    requires Shows(st, x) && Aims(x) && (e.Edit? ==> HasCounts(e.spec, x.members, x.arbiters))
    ensures Aims(Next(x, e)) && Shows(PortProtocol.After(st, AsEvents(x, e)), Next(x, e))
  {
    match e
    case Reconciles(pods, f) => ReadIsTranslated(st, x, pods, f);
    case Agents(i, act) => ActIsTranslated(st, x, i, act);
    case _ => OtherIsTranslated(st, x, e);
  }

  /**
   * For every run of the operator and its agents in which the counts stay, whatever else is edited and whichever API calls
   * fail: its publications and acts are a run of the protocol, which stores the same config and has the same agents.
   */
  lemma {:induction false} RunIsProtocolRun(st: State, x: System, events: seq<Happening>)
    requires Shows(st, x) && Aims(x) && KeepsCounts(x, events)
    ensures var y := Ends(x, events);
            Aims(y) && y.members == x.members && y.arbiters == x.arbiters
            && Shows(PortProtocol.After(st, Translated(x, events)), y)
  {
    if events == [] {
      assert PortProtocol.After(st, []) == st;
    } else {
      var front, last := events[..|events| - 1], events[|events| - 1];
      RunIsProtocolRun(st, x, front);
      var y, mid := Ends(x, front), PortProtocol.After(st, Translated(x, front));
      NextIsTranslated(mid, y, last);
      AfterTwoParts(st, Translated(x, front), AsEvents(y, last));
    }
  }

  // ---------------------------------------------------------------- what holds of the operator

  /** A resource that was just created, with at most one arbiter, and no pods yet. */
  predicate New(x: System) {
    && Runs.Fresh(x.cluster) && x.arbiters <= 1 && HasCounts(x.cluster.mdb.spec, x.members, x.arbiters)
    && |x.agents| == x.members + x.arbiters && forall i :: 0 <= i < |x.agents| ==> x.agents[i].Absent?
  }

  /** A system in which the counts have been reached and every agent is in step. */
  predicate AtRest(x: System) {
    Aims(x) && Resting(View(x, 0))
  }

  lemma NewAims(x: System)
    requires New(x)
    ensures Aims(x) && PortProtocol.Fresh(View(x, 0))
  {
  }

  /** A process of the system runs on a port that is not the published one. */
  predicate RunsElsewhere(x: System, i: nat)
    requires i < |x.agents|
  {
    Differs(View(x, 0), i)
  }

  /**
   * From the creation of a resource on, or from rest, in every interleaving of reconciles, edits, stateful set controllers
   * and agents, with any API call failing: at most one process runs on a port that is not the published one.
   */
  lemma AtMostOneRunsElsewhere(x: System, events: seq<Happening>, i: nat, j: nat)
    requires (New(x) || AtRest(x)) && KeepsCounts(x, events)
    requires i < |Ends(x, events).agents| && RunsElsewhere(Ends(x, events), i)
    requires j < |Ends(x, events).agents| && RunsElsewhere(Ends(x, events), j)
    ensures i == j
  {
    if New(x) {
      NewAims(x);
    }
    RunIsProtocolRun(View(x, 0), x, events);
    AtMostOneDiffers(View(x, 0), Translated(x, events), i, j);
  }

  /** The reconcile of a system that reads these pods, as an event of the protocol. */
  function ReadBy(x: System, pods: Pods, f: Faults): Event {
    Publishes(x.cluster.mdb, pods, f)
  }

  /**
   * In such a run, if another port is asked for only when no change is pending: the service of a reconcile covers every
   * port on which a process runs exactly when nobody runs on a port that is no longer published.
   */
  lemma ServiceCoversProcessesExactly(x: System, port: int, events: seq<Happening>, pods: Pods, f: Faults)
    requires (New(x) || AtRest(x)) && KeepsCounts(x, events) && TwoPortsAtMost(View(x, port))
    requires var y := Ends(x, events);
             && y.cluster.world.secret.Stored? && ShowsAgents(pods, View(y, 0))
             && AllowedRun(View(x, port), Translated(x, events) + [ReadBy(y, pods, f)])
    ensures var y := Ends(x, events);
            var m, ac := y.cluster.mdb, y.cluster.world.secret.ac;
            ValidCounts(m.spec) && (ServiceCoversRunning(m, ac, pods, y.agents) <==>
                                    RunsOnKnownPorts(y.agents, Ports(ac), ExpectedPort(m.spec)))
  {
    var y := Ends(x, events);
    if New(x) {
      NewAims(x);
    }
    RunIsProtocolRun(View(x, port), x, events);
    ServiceCoversRunningExactly(View(x, port), Translated(x, events), ReadBy(y, pods, f));
  }
}
