/**
 * The port change protocol over whole runs: the operator publishes configs, and each agent in its own time fetches the
 * config, applies it to its process, and reports the version it has applied.
 */
module PortProtocol {
  import opened AgentReadiness
  import opened Config
  import opened ConfigBuilder
  import opened ConfigBuilderProperties
  import opened ConfigStore
  import opened ConfigStoreProperties
  import opened Controller
  import opened Names
  import opened PortManager
  import opened PortProperties
  import opened Resource
  import opened Wrappers
  import Ordering

  /** What an agent has taken from a config for its own process. */
  datatype Goal = Goal(version: int, port: int)

  /**
   * An agent and its pod.  `running` is the port its process runs on, `applied` the version it was applied from, and
   * `reported` the version in the pod's annotation.  A lost pod takes all of it along.
   */
  datatype Agent =
    | Absent
    | Agent(fetched: Option<Goal>, running: Option<int>, applied: Option<int>, reported: Option<int>)

  /** The replica set: fixed name and counts, its config secret, one agent per process, the port last asked for. */
  datatype State = State(name: string, members: nat, arbiters: nat, secret: AcSecret, agents: seq<Agent>, expected: int)

  /** Pods as one read of the API server shows them; single reads may fail. */
  predicate ShowsAgents(pods: Pods, st: State) {
    forall i :: 0 <= i < |st.agents| && i < st.members + st.arbiters ==>
      var name := AllNames(st.name, st.members, st.arbiters)[i];
      if name in pods && pods[name].Found? then st.agents[i].Agent?
          && pods[name].item.agentVersion == st.agents[i].reported
      else (name in pods && pods[name].Failed?) || st.agents[i].Absent?
  }

  datatype Act = Fetch | ApplyGoal | Report | PodStart | PodStop

  datatype Event = Publishes(m: Resource, pods: Pods, faults: Faults) | Acts(i: nat, act: Act)

  /** What the stored config asks of the i-th process. */
  function GoalOf(secret: AcSecret, i: nat): Option<Goal> {
    if secret.Stored? && i < |secret.ac.processes|
    then Some(Goal(secret.ac.version, secret.ac.processes[i].GetPort())) else None
  }

  /** An act that is not possible changes nothing. */
  function NextAgent(a: Agent, act: Act, goal: Option<Goal>): Agent {
    match (a, act)
    case (Absent, PodStart) => Agent(None, None, None, None)
    case (Absent, _) => Absent
    case (Agent(_, _, _, _), PodStop) => Absent
    case (Agent(_, _, _, _), Fetch) => if goal.Some? then a.(fetched := goal) else a
    case (Agent(Some(g), _, _, _), ApplyGoal) => a.(running := Some(g.port), applied := Some(g.version))
    case (Agent(_, _, applied, _), Report) => a.(reported := applied)
    case _ => a
  }

  function Step(st: State, e: Event): State {
    match e
    case Publishes(m, pods, faults) =>
      if OnTarget(m, st.name, st.members, st.arbiters) && ShowsAgents(pods, st)
      then st.(secret := EnsureAutomationConfig(m, st.secret, pods, faults).secret, expected := ExpectedPort(m.spec)) else st
    case Acts(i, act) =>
      if i < |st.agents| then st.(agents := st.agents[i := NextAgent(st.agents[i], act, GoalOf(st.secret, i))]) else st
  }

  function After(st: State, events: seq<Event>): State {
    if events == [] then st else Step(After(st, events[..|events| - 1]), events[|events| - 1])
  }

  lemma AfterOneMore(st: State, events: seq<Event>, e: Event)
    ensures After(st, events + [e]) == Step(After(st, events), e)
  {
    assert (events + [e])[..|events|] == events;
  }

  lemma {:induction false} AfterTwoParts(st: State, front: seq<Event>, back: seq<Event>)
    ensures After(st, front + back) == After(After(st, front), back)
  {
    if back == [] {
      assert front + back == front;
    } else {
      var most, last := back[..|back| - 1], back[|back| - 1];
      assert front + back == front + most + [last] && back == most + [last];
      AfterTwoParts(st, front, most);
      AfterOneMore(st, front + most, last);
      AfterOneMore(After(st, front), most, last);
    }
  }

  /** A whole reconcile, in either order and with any failures, is one such publication, or leaves the secret alone. */
  lemma ReconcileIsOnePublication(c: Cluster, f: Faults, st: State)
    requires OnTarget(c.mdb, st.name, st.members, st.arbiters) && ShowsAgents(c.world.pods, st)
             && st.secret == c.world.secret
    ensures Reconcile(c, f).world.secret == st.secret
            || Reconcile(c, f).world.secret == Step(st, Publishes(c.mdb, c.world.pods, f)).secret
  {
    Ordering.ReconcilePublishesExactly(c, f);
  }

  /** No config yet and no agent has seen one. */
  predicate Fresh(st: State) {
    st.secret.Missing? && |st.agents| == st.members + st.arbiters
    && forall i :: 0 <= i < |st.agents| ==> st.agents[i].Absent?
  }

  // ---------------------------------------------------------------- at most one process differs

  /** A running process whose port is not the published one. */
  predicate Differs(st: State, i: nat)
    requires i < |st.agents|
  {
    st.secret.Stored? && i < |st.secret.ac.processes| && st.agents[i].Agent? && st.agents[i].running.Some?
    && st.agents[i].running.value != st.secret.ac.processes[i].GetPort()
  }

  /** Versions along one agent only grow, and whoever is at the current version has the current port. */
  predicate Consistent(a: Agent, version: int, port: int) {
    a.Agent? ==>
      && (a.reported.Some? ==> a.applied.Some? && a.reported.value <= a.applied.value)
      && (a.applied.Some? ==> a.fetched.Some? && a.running.Some? && a.applied.value <= a.fetched.value.version)
      && (a.fetched.Some? ==> a.fetched.value.version <= version)
      && (a.fetched.Some? && a.fetched.value.version == version ==> a.fetched.value.port == port)
      && (a.applied == Some(version) ==> a.running == Some(port))
      && (a.running.Some? ==> a.applied.Some?)
  }

  /** The agent runs the published port, if any, and is about to apply nothing else. */
  predicate InStep(a: Agent, port: int) {
    a.Agent? ==> (a.running.Some? ==> a.running.value == port) && (a.fetched.Some? ==> a.fetched.value.port == port)
  }

  /** All agents are consistent with these ports at this version, and all but the j-th are in step. */
  predicate AllButOne(agents: seq<Agent>, version: int, ports: seq<int>, j: int) {
    |agents| == |ports| &&
    forall i :: 0 <= i < |agents| ==> Consistent(agents[i], version, ports[i])
                                      && (i != j ==> InStep(agents[i], ports[i]))
  }

  ghost predicate Inv(st: State) {
    && |st.agents| == st.members + st.arbiters
    && !st.secret.WithoutConfig?
    && if st.secret.Missing? then forall i :: 0 <= i < |st.agents| ==> Blank(st.agents[i])
       else HasTopology(st.secret.ac, st.name, st.members, st.arbiters) && NonZero(Ports(st.secret.ac))
            && exists j: int :: AllButOne(st.agents, st.secret.ac.version, Ports(st.secret.ac), j)
  }

  /** A config is stored, and every agent is in step with it. */
  predicate Resting(st: State) {
    && |st.agents| == st.members + st.arbiters && st.secret.Stored?
    && HasTopology(st.secret.ac, st.name, st.members, st.arbiters) && NonZero(Ports(st.secret.ac))
    && AllButOne(st.agents, st.secret.ac.version, Ports(st.secret.ac), -1)
  }

  /** Where runs start: with nothing published, or at rest, as after a change of the counts. */
  predicate Starts(st: State) {
    Fresh(st) || Resting(st)
  }

  predicate Blank(a: Agent) {
    a.Agent? ==> a == Agent(None, None, None, None)
  }

  /** Every agent that the pods show at goal has applied the current version, so nobody is out of step. */
  lemma AtGoalMeansInStep(st: State, m: ValidResource, pods: Pods, j: int)
    requires |st.agents| == st.members + st.arbiters && st.secret.Stored?
    requires OnTarget(m, st.name, st.members, st.arbiters) && ShowsAgents(pods, st)
    requires AllButOne(st.agents, st.secret.ac.version, Ports(st.secret.ac), j)
    requires AllAtGoal(StatesOf(m, st.secret.ac.version, pods))
    ensures AllButOne(st.agents, st.secret.ac.version, Ports(st.secret.ac), -1)
  {
    var states := StatesOf(m, st.secret.ac.version, pods);
    forall i | 0 <= i < |st.agents|
      ensures InStep(st.agents[i], Ports(st.secret.ac)[i])
    {
      assert states[i].reachedGoalState;
    }
  }

  /** A new config in which one port moved, or none, and whose version moved with it. */
  lemma PublishingKeepsAllButOne(agents: seq<Agent>, version: int, ports: seq<int>, version': int, ports': seq<int>,
                                 k: nat, j: int)
    requires AllButOne(agents, version, ports, j) && version <= version'
    requires |ports'| == |ports| && k <= |ports| && forall i :: 0 <= i < |ports| && i != k ==> ports'[i] == ports[i]
    requires ports' != ports ==> version' > version && j == -1
    ensures AllButOne(agents, version', ports', if ports' == ports then j else k)
  {
  }

  /** The first config: all agents are blank, and every process gets a port. */
  lemma FirstPublication(st: State, m: ValidResource, pods: Pods, f: Faults)
    requires Inv(st) && st.secret.Missing? && OnTarget(m, st.name, st.members, st.arbiters)
    requires Publish(Missing, PassFor(m, EMPTY_CONFIG, pods, f.acStore)).result.Ok?
    ensures Inv(st.(secret := Publish(Missing, PassFor(m, EMPTY_CONFIG, pods, f.acStore)).secret))
  {
    var p := PassFor(m, EMPTY_CONFIG, pods, f.acStore);
    var built := BuildSpec(p.settings, p.modifications, p.fcv, [], EMPTY_CONFIG).value;
    PublishedTopology(Missing, p);
    NoZeroPortExactly(m, EMPTY_CONFIG, pods);
    MergeKeeps(built, p.overrides);
    var after := Publish(Missing, p).secret.ac;
    assert Ports(after) == Ports(built);
    assert |Ports(after)| == |after.processes| == |ProcessNames(after.processes)|;
    assert AllButOne(st.agents, after.version, Ports(after), -1);
  }

  lemma LaterPublication(st: State, m: ValidResource, p: Pass, pods: Pods)
    requires Inv(st) && st.secret.Stored? && OnTarget(m, st.name, st.members, st.arbiters)
             && ShowsAgents(pods, st)
    requires p == PassFor(m, st.secret.ac, pods, p.faults) && Publish(st.secret, p).result.Ok?
    ensures Inv(st.(secret := Publish(st.secret, p).secret))
  {
    var ac := st.secret.ac;
    PublicationMovesOnePort(m, ac, p, pods, st.members, st.arbiters);
    var after := Publish(st.secret, p).secret.ac;
    var j: int :| AllButOne(st.agents, ac.version, Ports(ac), j);
    var atGoal := AllAtGoal(StatesOf(m, ac.version, pods));
    if atGoal {
      AtGoalMeansInStep(st, m, pods, j);
      j := -1;
    }
    var k := FirstOther(Ports(ac), ExpectedPort(m.spec), 0);
    PublishingKeepsAllButOne(st.agents, ac.version, Ports(ac), after.version, Ports(after), k, j);
  }

  lemma PublishKeepsInv(st: State, e: Event)
    requires Inv(st) && e.Publishes?
    ensures Inv(Step(st, e))
  {
    if OnTarget(e.m, st.name, st.members, st.arbiters) && ShowsAgents(e.pods, st) {
      var ensured := EnsureAutomationConfig(e.m, st.secret, e.pods, e.faults);
      PublicationCases(e.m, st.secret, e.pods, e.faults);
      if ensured.result.Ok? {
        var p := PassFor(e.m, ReadSpec(st.secret, false).value, e.pods, e.faults.acStore);
        if st.secret.Missing? {
          FirstPublication(st, e.m, e.pods, e.faults);
        } else {
          LaterPublication(st, e.m, p, e.pods);
        }
      }
    }
  }

  /** A publication that fails leaves the secret alone; one that succeeds is the pass for what was stored. */
  lemma PublicationCases(m: ValidResource, secret: AcSecret, pods: Pods, f: Faults)
    requires !secret.WithoutConfig?
    ensures var e := EnsureAutomationConfig(m, secret, pods, f);
            if e.result.Err? then e.secret == secret
            else e == Publish(secret, PassFor(m, ReadSpec(secret, false).value, pods, f.acStore))
  {
  }

  lemma AgentKeepsInv(st: State, e: Event)
    requires Inv(st) && !e.Publishes?
    ensures Inv(Step(st, e))
  {
    var t := Step(st, e);
    if st.secret.Stored? {
      var ac := st.secret.ac;
      var j: int :| AllButOne(st.agents, ac.version, Ports(ac), j);
      assert AllButOne(t.agents, ac.version, Ports(ac), j);
    }
  }

  lemma {:induction false} RunKeepsInv(st: State, events: seq<Event>)
    requires Starts(st)
    ensures Inv(After(st, events))
  {
    if events != [] {
      var front, last := events[..|events| - 1], events[|events| - 1];
      RunKeepsInv(st, front);
      if last.Publishes? {
        PublishKeepsInv(After(st, front), last);
      } else {
        AgentKeepsInv(After(st, front), last);
      }
    }
  }

  /**
   * In every interleaving of reconciles, agents and pods, with the expected port, the override and all other content
   * edited at any time and any API call failing: at most one process runs on a port that is not the published one.
   */
  lemma AtMostOneDiffers(st: State, events: seq<Event>, i: nat, j: nat)
    requires Starts(st)
    requires i < |After(st, events).agents| && Differs(After(st, events), i)
    requires j < |After(st, events).agents| && Differs(After(st, events), j)
    ensures i == j
  {
    RunKeepsInv(st, events);
    var d := After(st, events);
    var k: int :| AllButOne(d.agents, d.secret.ac.version, Ports(d.secret.ac), k);
  }
}
