/** Which ports the service shows while a port change is under way. */
module PortService {
  import opened AgentReadiness
  import opened Config
  import opened ConfigBuilder
  import opened ConfigBuilderProperties
  import opened ConfigStore
  import opened ConfigStoreProperties
  import opened Controller
  import opened Names
  import opened PortManager
  import opened PortProperties
  import opened PortProtocol
  import opened Resource

  /** Every one of the ports is exposed. */
  predicate Covers(r: seq<ServicePort>, ports: seq<int>) {
    forall i :: 0 <= i < |ports| ==> exists k :: 0 <= k < |r| && r[k].port == ports[i]
  }

  /** Besides the expected port there is at most one other. */
  predicate AtMostOneOther(ports: seq<int>, expected: int) {
    forall i, j :: 0 <= i < |ports| && 0 <= j < |ports| && ports[i] != expected && ports[j] != expected
        ==> ports[i] == ports[j]
  }

  predicate AllAre(ports: seq<int>, port: int) {
    forall i :: 0 <= i < |ports| ==> ports[i] == port
  }

  /** What the service may show for a stored config. */
  predicate MayShow(m: ValidResource, ac: AutomationConfig, pods: Pods, r: seq<ServicePort>) {
    ValidServicePorts(r, ac.processes, ExpectedPort(m.spec), StatesOf(m, ac.version, pods))
  }

  /** In a config in use, the current port of the i-th pod is the published one. */
  lemma PodPorts(m: ValidResource, ac: AutomationConfig, pods: Pods, i: nat)
    requires AimsAtSpec(m)
    requires HasTopology(ac, m.name, m.spec.members, m.spec.arbiters) && NonZero(Ports(ac)) && i < |ac.processes|
    ensures var states := StatesOf(m, ac.version, pods);
            |states| == |ac.processes| && states[i].name in PodNames(states)
            && CurrentPort(ac.processes, ExpectedPort(m.spec), states[i].name) == Ports(ac)[i]
  {
    var states := StatesOf(m, ac.version, pods);
    assert |ac.processes| == |ProcessNames(ac.processes)|;
    IndexOfOwnName(ac.processes, m.name, m.spec.members, m.spec.arbiters, i);
    assert states[i].name == AllNames(m.name, m.spec.members, m.spec.arbiters)[i];
    assert Ports(ac)[i] == ac.processes[i].GetPort();
  }

  /** The values of the port map are the published ports. */
  lemma PortValues(m: ValidResource, ac: AutomationConfig, pods: Pods, port: int)
    requires AimsAtSpec(m)
    requires HasTopology(ac, m.name, m.spec.members, m.spec.arbiters) && NonZero(Ports(ac))
    ensures port in CurrentPorts(ac.processes, ExpectedPort(m.spec), StatesOf(m, ac.version, pods)).Values <==> port in Ports(ac)
  {
    var expected, states := ExpectedPort(m.spec), StatesOf(m, ac.version, pods);
    var current := CurrentPorts(ac.processes, expected, states);
    assert |ac.processes| == |ProcessNames(ac.processes)|;
    if port in Ports(ac) {
      var i :| 0 <= i < |Ports(ac)| && Ports(ac)[i] == port;
      PodPorts(m, ac, pods, i);
      assert current[states[i].name] == port;
    }
    if port in current.Values {
      var n :| n in current && current[n] == port;
      var i :| 0 <= i < |states| && states[i].name == n;
      PodPorts(m, ac, pods, i);
    }
  }

  lemma ChangeRequiredExactly(m: ValidResource, ac: AutomationConfig, pods: Pods)
    requires AimsAtSpec(m)
    requires HasTopology(ac, m.name, m.spec.members, m.spec.arbiters) && NonZero(Ports(ac))
    ensures ChangeRequired(ac.processes, ExpectedPort(m.spec), StatesOf(m, ac.version, pods))
       <==> exists i :: 0 <= i < |Ports(ac)| && Ports(ac)[i] != ExpectedPort(m.spec)
  {
    var expected, states := ExpectedPort(m.spec), StatesOf(m, ac.version, pods);
    assert |ac.processes| == |ProcessNames(ac.processes)|;
    forall i | 0 <= i < |ac.processes|
      ensures i < |states| && (IsPending(ac.processes, expected, states, i) <==> Ports(ac)[i] != expected)
    {
      PodPorts(m, ac, pods, i);
    }
  }

  /** The two service ports: the expected one, and any one of the others. */
  lemma MayShowExactly(m: ValidResource, ac: AutomationConfig, pods: Pods, r: seq<ServicePort>)
    requires AimsAtSpec(m)
    requires HasTopology(ac, m.name, m.spec.members, m.spec.arbiters) && NonZero(Ports(ac))
    ensures MayShow(m, ac, pods, r) <==>
            if AllAre(Ports(ac), ExpectedPort(m.spec))
            then r == [ServicePort(ExpectedPort(m.spec), "mongodb")]
            else |r| == 2 && r[0] == ServicePort(ExpectedPort(m.spec), "mongodb-new") && r[1].name == "mongodb"
                 && r[1].port != ExpectedPort(m.spec) && r[1].port in Ports(ac)
  {
    ChangeRequiredExactly(m, ac, pods);
    if |r| == 2 {
      PortValues(m, ac, pods, r[1].port);
    }
  }

  /** The expected port and one of the others cover everything when there is just one other. */
  lemma ShownCovers(r: seq<ServicePort>, ports: seq<int>, expected: int)
    requires AtMostOneOther(ports, expected) && |r| > 0 && r[0].port == expected
    requires (exists i :: 0 <= i < |ports| && ports[i] != expected) ==> |r| == 2 && r[1].port != expected
                                                                        && r[1].port in ports
    ensures Covers(r, ports)
  {
    forall i | 0 <= i < |ports|
      ensures exists k :: 0 <= k < |r| && r[k].port == ports[i]
    {
      if ports[i] == expected {
        assert r[0].port == ports[i];
      } else {
        var j :| 0 <= j < |ports| && ports[j] == r[1].port;
        assert r[1].port == ports[i];
      }
    }
  }

  /** With two unexpected ports the map iteration may pick one and leave the other uncovered. */
  lemma OtherPortMissed(m: ValidResource, ac: AutomationConfig, pods: Pods, i: nat, j: nat)
    returns (r: seq<ServicePort>)
    requires AimsAtSpec(m)
    requires HasTopology(ac, m.name, m.spec.members, m.spec.arbiters) && NonZero(Ports(ac))
    requires i < |Ports(ac)| && j < |Ports(ac)| && Ports(ac)[i] != Ports(ac)[j]
    requires Ports(ac)[i] != ExpectedPort(m.spec) && Ports(ac)[j] != ExpectedPort(m.spec)
    ensures MayShow(m, ac, pods, r) && !Covers(r, Ports(ac))
  {
    r := [ServicePort(ExpectedPort(m.spec), "mongodb-new"), ServicePort(Ports(ac)[i], "mongodb")];
    MayShowExactly(m, ac, pods, r);
  }

  /**
   * Whichever of the unexpected ports the map iteration picks, the service covers every published port: exactly when
   * there is at most one unexpected port.
   */
  lemma ServiceCoversExactly(m: ValidResource, ac: AutomationConfig, pods: Pods)
    requires AimsAtSpec(m)
    requires HasTopology(ac, m.name, m.spec.members, m.spec.arbiters) && NonZero(Ports(ac))
    ensures (forall r :: MayShow(m, ac, pods, r) ==> Covers(r, Ports(ac))) <==> AtMostOneOther(Ports(ac), ExpectedPort(m.spec))
  {
    var ports, expected := Ports(ac), ExpectedPort(m.spec);
    if AtMostOneOther(ports, expected) {
      forall r | MayShow(m, ac, pods, r)
        ensures Covers(r, ports)
      {
        MayShowExactly(m, ac, pods, r);
        ShownCovers(r, ports, expected);
      }
    } else {
      var i, j :| 0 <= i < |ports| && 0 <= j < |ports| && ports[i] != expected && ports[j] != expected
          && ports[i] != ports[j];
      var r := OtherPortMissed(m, ac, pods, i, j);
    }
  }

  // ---------------------------------------------------------------- runs

  /** No port is under way to the port last asked for. */
  predicate NoChangePending(st: State) {
    st.secret.Stored? ==> AllAre(Ports(st.secret.ac), st.expected)
  }

  /** Runs in which another port is asked for only when no change is pending. */
  predicate AllowedRun(st: State, events: seq<Event>) {
    events == [] ||
    (var front, last := events[..|events| - 1], events[|events| - 1];
     AllowedRun(st, front)
     && (last.Publishes? && ExpectedPort(last.m.spec) != After(st, front).expected ==> NoChangePending(After(st, front))))
  }

  predicate TwoPortsAtMost(st: State) {
    st.secret.Stored? ==> AtMostOneOther(Ports(st.secret.ac), st.expected)
  }

  /** The first config has the expected port everywhere. */
  lemma FirstPorts(m: ValidResource, pods: Pods, f: Faults)
    requires AimsAtSpec(m)
    requires Publish(Missing, PassFor(m, EMPTY_CONFIG, pods, f.acStore)).result.Ok?
    ensures var ac := Publish(Missing, PassFor(m, EMPTY_CONFIG, pods, f.acStore)).secret.ac;
            AllAre(Ports(ac), ExpectedPort(m.spec))
  {
    var p := PassFor(m, EMPTY_CONFIG, pods, f.acStore);
    var built := BuildSpec(p.settings, p.modifications, p.fcv, [], EMPTY_CONFIG).value;
    var ports := ProcessPorts(m, EMPTY_CONFIG, pods);
    MergeKeeps(built, p.overrides);
    BuiltPorts(m, ports, EMPTY_CONFIG);
    PortMapNames(m, EMPTY_CONFIG, pods);
    assert Ports(Publish(Missing, p).secret.ac) == Ports(built);
    forall i | 0 <= i < |Ports(built)|
      ensures Ports(built)[i] == ExpectedPort(m.spec)
    {
      var name := AllNames(m.name, m.spec.members, m.spec.arbiters)[i];
      assert name in ports && ports[name] == ExpectedPort(m.spec);
    }
  }

  /** From nothing to the expected port everywhere; later one port moves, or none. */
  predicate PortsAdvance(before: AcSecret, after: AcSecret, expected: int) {
    if before.Stored? then
      && after.Stored?
      && (Ports(after.ac) == Ports(before.ac) || Ports(after.ac) == NextPorts(Ports(before.ac), expected, true))
    else after.Stored? ==> AllAre(Ports(after.ac), expected)
  }

  lemma LaterPorts(m: ValidResource, ac: AutomationConfig, pods: Pods, p: Pass)
    requires AimsAtSpec(m)
    requires HasTopology(ac, m.name, m.spec.members, m.spec.arbiters) && NonZero(Ports(ac))
    requires p == PassFor(m, ac, pods, p.faults) && Publish(Stored(ac), p).result.Ok?
    ensures PortsAdvance(Stored(ac), Publish(Stored(ac), p).secret, ExpectedPort(m.spec))
  {
    PublicationMovesOnePort(m, ac, p, pods, m.spec.members, m.spec.arbiters);
  }

  lemma PublicationPorts(m: ValidResource, secret: AcSecret, pods: Pods, f: Faults)
    requires AimsAtSpec(m) && !secret.WithoutConfig?
    requires secret.Stored? ==> HasTopology(secret.ac, m.name, m.spec.members, m.spec.arbiters)
                                && NonZero(Ports(secret.ac))
    ensures PortsAdvance(secret, EnsureAutomationConfig(m, secret, pods, f).secret, ExpectedPort(m.spec))
  {
    PublicationCases(m, secret, pods, f);
    if EnsureAutomationConfig(m, secret, pods, f).result.Ok? {
      if secret.Stored? {
        LaterPorts(m, secret.ac, pods, PassFor(m, secret.ac, pods, f.acStore));
      } else {
        FirstPorts(m, pods, f);
      }
    }
  }

  /** Advancing towards the port last asked for keeps the others alike, and so does asking for a new port at rest. */
  lemma AdvanceKeepsTwoPorts(before: AcSecret, after: AcSecret, last: int, expected: int)
    requires PortsAdvance(before, after, expected)
    requires before.Stored? ==> AtMostOneOther(Ports(before.ac), last)
    requires before.Stored? && expected != last ==> AllAre(Ports(before.ac), last)
    ensures before.Stored? ==> AtMostOneOther(Ports(before.ac), expected)
    ensures after.Stored? ==> AtMostOneOther(Ports(after.ac), expected)
  {
  }

  /** The ports before the next config are covered, so the ports after it are. */
  lemma AdvanceStaysCovered(r: seq<ServicePort>, before: AcSecret, after: AcSecret, expected: int)
    requires PortsAdvance(before, after, expected) && |r| > 0 && r[0].port == expected
    requires before.Stored? ==> Covers(r, Ports(before.ac))
    ensures after.Stored? ==> Covers(r, Ports(after.ac))
  {
    if after.Stored? {
      forall i | 0 <= i < |Ports(after.ac)|
        ensures exists k :: 0 <= k < |r| && r[k].port == Ports(after.ac)[i]
      {
        if before.Stored? && i < |Ports(before.ac)| && Ports(after.ac)[i] == Ports(before.ac)[i] {
        } else {
          assert r[0].port == Ports(after.ac)[i];
        }
      }
    }
  }

  lemma PublishKeepsTwoPorts(st: State, e: Event)
    requires Inv(st) && TwoPortsAtMost(st) && e.Publishes?
    requires ExpectedPort(e.m.spec) != st.expected ==> NoChangePending(st)
    ensures TwoPortsAtMost(Step(st, e))
  {
    if OnTarget(e.m, st.name, st.members, st.arbiters) && ShowsAgents(e.pods, st) {
      PublicationPorts(e.m, st.secret, e.pods, e.faults);
      AdvanceKeepsTwoPorts(st.secret, Step(st, e).secret, st.expected, ExpectedPort(e.m.spec));
    }
  }

  lemma {:induction false} RunKeepsTwoPorts(st: State, events: seq<Event>)
    requires Starts(st) && TwoPortsAtMost(st) && AllowedRun(st, events)
    ensures TwoPortsAtMost(After(st, events))
  {
    if events != [] {
      var front, last := events[..|events| - 1], events[|events| - 1];
      RunKeepsTwoPorts(st, front);
      RunKeepsInv(st, front);
      if last.Publishes? {
        PublishKeepsTwoPorts(After(st, front), last);
      }
    }
  }

  lemma FirstShown(m: ValidResource, pods: Pods, r: seq<ServicePort>)
    requires MayShow(m, EMPTY_CONFIG, pods, r)
    ensures |r| > 0 && r[0].port == ExpectedPort(m.spec)
  {
  }

  /** The config that a reconcile reads: the stored one, or the empty config of a new resource. */
  function Current(secret: AcSecret): AutomationConfig {
    if secret.Stored? then secret.ac else EMPTY_CONFIG
  }

  /**
   * In every run in which another port is asked for only when no change is pending: the service ports of each
   * reconcile, whichever the map iteration picks, cover every port of the config before and of the config after it.
   */
  lemma ServiceCoversBeforeAndAfter(st: State, events: seq<Event>, e: Event, r: seq<ServicePort>)
    requires Starts(st) && TwoPortsAtMost(st) && e.Publishes? && AllowedRun(st, events + [e])
    requires var d := After(st, events); OnTarget(e.m, d.name, d.members, d.arbiters) && ShowsAgents(e.pods, d)
    requires MayShow(e.m, Current(After(st, events).secret), e.pods, r)
    ensures Covers(r, Ports(Current(After(st, events).secret)))
    ensures Covers(r, Ports(Current(Step(After(st, events), e).secret)))
  {
    var d := After(st, events);
    assert (events + [e])[..|events|] == events;
    RunKeepsTwoPorts(st, events);
    RunKeepsInv(st, events);
    var expected := ExpectedPort(e.m.spec);
    PublicationPorts(e.m, d.secret, e.pods, e.faults);
    AdvanceKeepsTwoPorts(d.secret, Step(d, e).secret, d.expected, expected);
    if d.secret.Stored? {
      MayShowExactly(e.m, d.secret.ac, e.pods, r);
      ShownCovers(r, Ports(d.secret.ac), expected);
    } else {
      FirstShown(e.m, e.pods, r);
    }
    AdvanceStaysCovered(r, d.secret, Step(d, e).secret, expected);
  }

  // ---------------------------------------------------------------- ports that processes still run on

  /** Every process runs on a port that is exposed. */
  predicate CoversRunning(r: seq<ServicePort>, agents: seq<Agent>) {
    forall i :: 0 <= i < |agents| && agents[i].Agent? && agents[i].running.Some? ==> Exposes(r, agents[i].running.value)
  }

  predicate Exposes(r: seq<ServicePort>, port: int) {
    exists k :: 0 <= k < |r| && r[k].port == port
  }

  /** Nobody runs on a port that is neither published for some process nor asked for. */
  predicate RunsOnKnownPorts(agents: seq<Agent>, ports: seq<int>, expected: int) {
    forall i :: 0 <= i < |agents| && agents[i].Agent? && agents[i].running.Some? ==>
      agents[i].running.value == expected || agents[i].running.value in ports
  }

  lemma ShownPorts(r: seq<ServicePort>, ports: seq<int>, expected: int, port: int)
    requires r == [ServicePort(expected, "mongodb")]
             || (|r| == 2 && r[0] == ServicePort(expected, "mongodb-new") && r[1].port in ports)
    ensures Exposes(r, port) ==> port == expected || port in ports
    ensures Exposes(r, expected)
  {
    assert r[0].port == expected;
  }

  /** The service exposes the expected port and published ones, and among them there may be any published one. */
  lemma ShownIsKnown(m: ValidResource, ac: AutomationConfig, pods: Pods, r: seq<ServicePort>, port: int)
    requires AimsAtSpec(m)
    requires HasTopology(ac, m.name, m.spec.members, m.spec.arbiters) && NonZero(Ports(ac)) && MayShow(m, ac, pods, r)
    ensures Exposes(r, port) ==> port == ExpectedPort(m.spec) || port in Ports(ac)
    ensures Exposes(r, ExpectedPort(m.spec))
  {
    MayShowExactly(m, ac, pods, r);
    ShownPorts(r, Ports(ac), ExpectedPort(m.spec), port);
  }

  /** There is something to show. */
  lemma SomethingIsShown(m: ValidResource, ac: AutomationConfig, pods: Pods) returns (r: seq<ServicePort>)
    requires AimsAtSpec(m)
    requires HasTopology(ac, m.name, m.spec.members, m.spec.arbiters) && NonZero(Ports(ac))
    ensures MayShow(m, ac, pods, r)
  {
    var expected := ExpectedPort(m.spec);
    if AllAre(Ports(ac), expected) {
      r := [ServicePort(expected, "mongodb")];
    } else {
      var i :| 0 <= i < |Ports(ac)| && Ports(ac)[i] != expected;
      r := [ServicePort(expected, "mongodb-new"), ServicePort(Ports(ac)[i], "mongodb")];
    }
    MayShowExactly(m, ac, pods, r);
  }

  /** Whatever the service may show covers every running port. */
  ghost predicate ServiceCoversRunning(m: ValidResource, ac: AutomationConfig, pods: Pods, agents: seq<Agent>) {
    forall r :: MayShow(m, ac, pods, r) ==> CoversRunning(r, agents)
  }

  /** For one config with at most one unexpected port, and any agents. */
  lemma ConfigCoversRunningExactly(m: ValidResource, ac: AutomationConfig, pods: Pods, agents: seq<Agent>)
    requires AimsAtSpec(m)
    requires HasTopology(ac, m.name, m.spec.members, m.spec.arbiters) && NonZero(Ports(ac))
    requires AtMostOneOther(Ports(ac), ExpectedPort(m.spec))
    ensures ServiceCoversRunning(m, ac, pods, agents) <==> RunsOnKnownPorts(agents, Ports(ac), ExpectedPort(m.spec))
  {
    if RunsOnKnownPorts(agents, Ports(ac), ExpectedPort(m.spec)) {
      ServiceCoversExactly(m, ac, pods);
      forall r | MayShow(m, ac, pods, r)
        ensures CoversRunning(r, agents)
      {
        ShownIsKnown(m, ac, pods, r, ExpectedPort(m.spec));
        KnownIsCovered(r, agents, Ports(ac), ExpectedPort(m.spec));
      }
    } else {
      var i :| 0 <= i < |agents| && agents[i].Agent? && agents[i].running.Some?
               && agents[i].running.value != ExpectedPort(m.spec) && agents[i].running.value !in Ports(ac);
      var r := SomethingIsShown(m, ac, pods);
      ShownIsKnown(m, ac, pods, r, agents[i].running.value);
    }
  }

  lemma KnownIsCovered(r: seq<ServicePort>, agents: seq<Agent>, ports: seq<int>, expected: int)
    requires RunsOnKnownPorts(agents, ports, expected) && Covers(r, ports) && Exposes(r, expected)
    ensures CoversRunning(r, agents)
  {
    forall i | 0 <= i < |agents| && agents[i].Agent? && agents[i].running.Some?
      ensures Exposes(r, agents[i].running.value)
    {
      if agents[i].running.value != expected {
        var j :| 0 <= j < |ports| && ports[j] == agents[i].running.value;
        var k :| 0 <= k < |r| && r[k].port == ports[j];
      }
    }
  }

  /**
   * In every run in which another port is asked for only at rest: the service of a reconcile covers every running port,
   * whichever port the map iteration picks, exactly when nobody runs on a port that is no longer published.  When all
   * published ports are the expected one already, that is exactly when no process differs from its published port: the
   * last process of a change is not covered until it has moved.
   */
  lemma ServiceCoversRunningExactly(st: State, events: seq<Event>, e: Event)
    requires Starts(st) && TwoPortsAtMost(st) && e.Publishes? && AllowedRun(st, events + [e])
    requires var d := After(st, events);
             d.secret.Stored? && OnTarget(e.m, d.name, d.members, d.arbiters) && ShowsAgents(e.pods, d)
    ensures var d, expected := After(st, events), ExpectedPort(e.m.spec);
            var covers := ServiceCoversRunning(e.m, d.secret.ac, e.pods, d.agents);
            && (covers <==> RunsOnKnownPorts(d.agents, Ports(d.secret.ac), expected))
            && (AllAre(Ports(d.secret.ac), expected) ==> (covers <==> NobodyDiffers(d)))
  {
    var d := After(st, events);
    RunHasOneOther(st, events, e);
    ConfigCoversRunningExactly(e.m, d.secret.ac, e.pods, d.agents);
    if AllAre(Ports(d.secret.ac), ExpectedPort(e.m.spec)) {
      KnownWhenNobodyDiffers(d, ExpectedPort(e.m.spec));
    }
  }

  predicate NobodyDiffers(st: State) {
    forall i: nat :: i < |st.agents| ==> !Differs(st, i)
  }

  /** In such a run there is at most one port besides the one now asked for. */
  lemma RunHasOneOther(st: State, events: seq<Event>, e: Event)
    requires Starts(st) && TwoPortsAtMost(st) && e.Publishes? && AllowedRun(st, events + [e])
    requires var d := After(st, events);
             d.secret.Stored? && OnTarget(e.m, d.name, d.members, d.arbiters)
    ensures Inv(After(st, events)) && AtMostOneOther(Ports(After(st, events).secret.ac), ExpectedPort(e.m.spec))
  {
    assert (events + [e])[..|events|] == events;
    RunKeepsTwoPorts(st, events);
    RunKeepsInv(st, events);
    var d := After(st, events);
    AdvanceKeepsTwoPorts(d.secret, d.secret, d.expected, ExpectedPort(e.m.spec));
  }

  /** When only the expected port is published, running on a known port is running on the published one. */
  lemma KnownWhenNobodyDiffers(d: State, expected: int)
    requires Inv(d) && d.secret.Stored? && AllAre(Ports(d.secret.ac), expected)
    ensures RunsOnKnownPorts(d.agents, Ports(d.secret.ac), expected) <==> NobodyDiffers(d)
  {
    var ports := Ports(d.secret.ac);
    assert |ports| == |d.secret.ac.processes| == |ProcessNames(d.secret.ac.processes)| == |d.agents|;
    forall i: nat | i < |d.agents|
      ensures Differs(d, i) <==> d.agents[i].Agent? && d.agents[i].running.Some?
                                 && d.agents[i].running.value != expected
    {
      assert ports[i] == d.secret.ac.processes[i].GetPort();
    }
  }
}
