/** Which ports one publication of a config changes, and which ports the service shows meanwhile. */
module PortProperties {
  import opened AgentReadiness
  import opened Config
  import opened ConfigBuilder
  import opened ConfigBuilderProperties
  import opened ConfigStore
  import opened ConfigStoreProperties
  import opened Controller
  import opened Names
  import opened PortManager
  import opened Resource
  import opened Wrappers
  import Runs
  import Scaling

  // ---------------------------------------------------------------- the port modification

  function PortFor(ports: map<string, int>, name: string): int {
    if name in ports then ports[name] else 0
  }

  /** The port modification comes last, so the port map alone decides every port: a missing name means port 0. */
  lemma BuiltPorts(m: ValidResource, ports: map<string, int>, current: AutomationConfig)
    requires BuildSpec(BuildSettings(m), BuildModifications(m, ports), m.spec.fcv, [], current).Ok?
    ensures var ac := BuildSpec(BuildSettings(m), BuildModifications(m, ports), m.spec.fcv, [], current).value;
            && |ac.processes| == AutomationConfigMembersThisReconciliation(m) + ConfiguredArbiters(m)
            && forall i :: 0 <= i < |ac.processes| ==>
                 ac.processes[i].GetPort() ==
                 PortFor(ports, AllNames(m.name, AutomationConfigMembersThisReconciliation(m), ConfiguredArbiters(m))[i])
  {
    var s, ms := BuildSettings(m), BuildModifications(m, ports);
    var ac := BuildSpec(s, ms, m.spec.fcv, [], current).value;
    BuiltSkeleton(s, ms, m.spec.fcv, [], current);
    var f := EffectiveFcv(current, m.spec.fcv, s.mongodbVersion).value;
    var assembled := Assemble(s, [], f, current.version);
    var n := |ms| - 1;
    var unported := ApplyAll(ms[..n], assembled);
    ModificationsKeepSkeleton(ms[..n], assembled);
    assert ms[n] == SetPorts(ports);
    forall i | 0 <= i < |ac.processes|
      ensures ac.processes[i].GetPort() == PortFor(ports, ProcessNames(ac.processes)[i])
    {
      assert ac.processes[i] == Modify(unported.processes[i], SetPorts(ports));
    }
  }

  /** The pods asked for are those of the names. */
  lemma PodNamesAreNames(pods: Pods, name: string, members: nat, arbiters: nat, version: int, n: string)
    ensures n in PodNames(PodStates(pods, name, members, arbiters, version)) <==> n in AllNames(name, members, arbiters)
  {
    var names, states := AllNames(name, members, arbiters), PodStates(pods, name, members, arbiters, version);
    if n in names {
      var i :| 0 <= i < |names| && names[i] == n;
      assert states[i].name == n;
    }
  }

  /** The port map has an entry, never 0, for exactly the pods of this reconcile. */
  lemma PortMapNames(m: ValidResource, current: AutomationConfig, pods: Pods)
    requires ExpectedPort(m.spec) != 0
    ensures var ports := ProcessPorts(m, current, pods);
            var names := AllNames(m.name, StatefulSetReplicasThisReconciliation(m), StatefulSetArbitersThisReconciliation(m));
            forall n: string :: (n in ports <==> n in names) && (n in ports ==> ports[n] != 0)
  {
    var members, arbiters := StatefulSetReplicasThisReconciliation(m), StatefulSetArbitersThisReconciliation(m);
    var states := PodStates(pods, m.name, members, arbiters, current.version);
    forall n: string
      ensures n in PodNames(states) <==> n in AllNames(m.name, members, arbiters)
    {
      PodNamesAreNames(pods, m.name, members, arbiters, current.version, n);
    }
    MapNames(current.processes, ExpectedPort(m.spec), states);
  }

  /** The port map names the pods, and no pod gets port 0. */
  lemma MapNames(processes: seq<Process>, expected: int, pods: seq<PodState>)
    requires expected != 0
    ensures var ports := ExpectedPorts(processes, expected, pods);
            forall n: string :: (n in ports <==> n in PodNames(pods)) && (n in ports ==> ports[n] != 0)
  {
  }

  lemma PortOfName(m: ValidResource, current: AutomationConfig, pods: Pods, name: string)
    requires ExpectedPort(m.spec) != 0
    ensures PortFor(ProcessPorts(m, current, pods), name) != 0 <==>
            name in AllNames(m.name, StatefulSetReplicasThisReconciliation(m), StatefulSetArbitersThisReconciliation(m))
  {
    PortMapNames(m, current, pods);
  }

  lemma PortsOfNames(m: ValidResource, current: AutomationConfig, pods: Pods, arbiters: nat, i: nat)
    requires ExpectedPort(m.spec) != 0
    requires i < StatefulSetReplicasThisReconciliation(m) + arbiters
    ensures var members := StatefulSetReplicasThisReconciliation(m);
            PortFor(ProcessPorts(m, current, pods), AllNames(m.name, members, arbiters)[i]) != 0
            <==> i < members + StatefulSetArbitersThisReconciliation(m)
  {
    var members := StatefulSetReplicasThisReconciliation(m);
    PortOfName(m, current, pods, AllNames(m.name, members, arbiters)[i]);
    NamedExactly(m.name, members, StatefulSetArbitersThisReconciliation(m), if i < members then i else i - members, i >= members);
  }

  /**
   * With agreeing member targets and a non-zero expected port: no process is built with port 0 exactly when the config
   * has no more arbiters than the arbiters' stateful set of this reconcile.
   */
  lemma NoZeroPortExactly(m: ValidResource, current: AutomationConfig, pods: Pods)
    requires AutomationConfigMembersThisReconciliation(m) == StatefulSetReplicasThisReconciliation(m)
    requires ExpectedPort(m.spec) != 0
    requires BuildSpec(BuildSettings(m), BuildModifications(m, ProcessPorts(m, current, pods)), m.spec.fcv, [], current).Ok?
    ensures var ac := BuildSpec(BuildSettings(m), BuildModifications(m, ProcessPorts(m, current, pods)), m.spec.fcv, [], current).value;
            (forall i :: 0 <= i < |ac.processes| ==> ac.processes[i].GetPort() != 0)
            <==> ConfiguredArbiters(m) <= StatefulSetArbitersThisReconciliation(m)
  {
    var ac := BuildSpec(BuildSettings(m), BuildModifications(m, ProcessPorts(m, current, pods)), m.spec.fcv, [], current).value;
    BuiltPorts(m, ProcessPorts(m, current, pods), current);
    forall i | 0 <= i < |ac.processes|
      ensures ac.processes[i].GetPort() != 0
         <==> i < StatefulSetReplicasThisReconciliation(m) + StatefulSetArbitersThisReconciliation(m)
    {
      PortsOfNames(m, current, pods, ConfiguredArbiters(m), i);
    }
    if ConfiguredArbiters(m) > StatefulSetArbitersThisReconciliation(m) {
      var k := StatefulSetReplicasThisReconciliation(m) + StatefulSetArbitersThisReconciliation(m);
      assert ac.processes[k].GetPort() == 0;
    }
  }

  /** The arbiters of the next config and of the next arbiters' stateful set, from the counters alone. */
  lemma NextArbiters(m: ValidResource)
    requires m.status.acMembers == m.status.stsMembers
    ensures ConfiguredArbiters(m) == if Scaling.ArbiterLag(m.status.stsMembers, m.spec.members) > 0 then m.status.acArbiters
                                     else Scaling.Toward(m.status.acArbiters, m.spec.arbiters, 1)
    ensures StatefulSetArbitersThisReconciliation(m) == Scaling.Toward(m.status.stsArbiters, m.spec.arbiters, 1)
  {
  }

  /**
   * Whatever the arbiter counters: the next config has arbiters without a place, and with them processes on port 0, exactly
   * when the arbiters that it keeps are more than those that the stateful set is taken to.
   */
  lemma BuildsPortZeroExactly(m: ValidResource, current: AutomationConfig, pods: Pods)
    requires m.status.acMembers == m.status.stsMembers && ExpectedPort(m.spec) != 0
    requires BuildSpec(BuildSettings(m), BuildModifications(m, ProcessPorts(m, current, pods)), m.spec.fcv, [], current).Ok?
    ensures var ac := BuildSpec(BuildSettings(m), BuildModifications(m, ProcessPorts(m, current, pods)), m.spec.fcv, [], current).value;
            var s, arbiters := m.status, m.spec.arbiters;
            var lags := Scaling.ArbiterLag(s.stsMembers, m.spec.members) > 0;
            (exists i :: 0 <= i < |ac.processes| && ac.processes[i].GetPort() == 0)
            <==> (if lags then s.acArbiters else Scaling.Toward(s.acArbiters, arbiters, 1))
                 > Scaling.Toward(s.stsArbiters, arbiters, 1)
  {
    NextArbiters(m);
    NoZeroPortExactly(m, current, pods);
  }

  /**
   * For an edit of settled arbiters that is exactly when it removes arbiters and moves the members of an existing
   * deployment by more than one.
   */
  lemma EditBuildsPortZeroExactly(m: ValidResource, current: AutomationConfig, pods: Pods)
    requires m.status.acMembers == m.status.stsMembers && m.status.acArbiters == m.status.stsArbiters
    requires ExpectedPort(m.spec) != 0
    requires BuildSpec(BuildSettings(m), BuildModifications(m, ProcessPorts(m, current, pods)), m.spec.fcv, [], current).Ok?
    ensures var ac := BuildSpec(BuildSettings(m), BuildModifications(m, ProcessPorts(m, current, pods)), m.spec.fcv, [], current).value;
            (exists i :: 0 <= i < |ac.processes| && ac.processes[i].GetPort() == 0)
            <==> m.spec.arbiters < m.status.stsArbiters && Scaling.ArbiterLag(m.status.stsMembers, m.spec.members) > 0
  {
    BuildsPortZeroExactly(m, current, pods);
  }

  // ---------------------------------------------------------------- settled counts: one port at a time

  /**
   * A resource of which the next reconcile deploys all members and arbiters of its spec, and whose expected port is not 0.
   * The counters may be there already, or be about to take their last step, or the jump of a new deployment.
   */
  predicate OnTarget(m: Resource, name: string, members: nat, arbiters: nat) {
    && ValidCounts(m.spec) && m.name == name && m.spec.members == members && m.spec.arbiters == arbiters
    && StatefulSetReplicasThisReconciliation(m) == AutomationConfigMembersThisReconciliation(m) == members
    && StatefulSetArbitersThisReconciliation(m) == ConfiguredArbiters(m) == arbiters
    && ExpectedPort(m.spec) != 0
  }

  /** The same about its own name and counts. */
  predicate AimsAtSpec(m: Resource) {
    ValidCounts(m.spec) && OnTarget(m, m.name, m.spec.members, m.spec.arbiters)
  }

  /** The resource, asking for this port. */
  function Asking(m: Resource, port: int): Resource {
    m.(spec := m.spec.(mongodConfig := m.spec.mongodConfig[PORT_FIELD := Num(port)]))
  }

  /** The first port that is not the expected one, or the number of ports. */
  function FirstOther(ports: seq<int>, expected: int, i: nat): (j: nat)
    requires i <= |ports|
    ensures i <= j <= |ports| && (forall k :: i <= k < j ==> ports[k] == expected)
    ensures j < |ports| ==> ports[j] != expected
    decreases |ports| - i
  {
    if i == |ports| || ports[i] != expected then i else FirstOther(ports, expected, i + 1)
  }

  /** The ports of the next config: when every agent is at goal, the first unexpected one moves. */
  function NextPorts(ports: seq<int>, expected: int, atGoal: bool): seq<int> {
    var j := FirstOther(ports, expected, 0);
    if j == |ports| || !atGoal then ports else ports[j := expected]
  }

  predicate NonZero(ports: seq<int>) {
    forall i :: 0 <= i < |ports| ==> ports[i] != 0
  }

  /** In a config of distinct names the index of the i-th name is i. */
  lemma IndexOfOwnName(ps: seq<Process>, name: string, members: nat, arbiters: nat, i: nat)
    requires ProcessNames(ps) == AllNames(name, members, arbiters) && i < members + arbiters
    ensures |ps| == members + arbiters && IndexByName(ps, AllNames(name, members, arbiters)[i]) == Some(i)
  {
    var names := AllNames(name, members, arbiters);
    assert |ps| == |ProcessNames(ps)|;
    assert ps[i].name == ProcessNames(ps)[i];
    IndexByNameFirst(ps, names[i]);
    var k := IndexByName(ps, names[i]).value;
    assert ProcessNames(ps)[k] == names[i];
    AllNamesDistinct(name, members, arbiters, i, k);
  }

  function StatesOf(m: ValidResource, version: int, pods: Pods): seq<PodState> {
    PodStates(pods, m.name, StatefulSetReplicasThisReconciliation(m), StatefulSetArbitersThisReconciliation(m), version)
  }

  /** The port manager, seen through names: a sequence of ports in which one may move. */
  lemma ProcessPortsAreNext(m: ValidResource, ac: AutomationConfig, pods: Pods, members: nat, arbiters: nat)
    requires OnTarget(m, m.name, members, arbiters) && HasTopology(ac, m.name, members, arbiters)
             && NonZero(Ports(ac))
    ensures |ac.processes| == members + arbiters
    ensures var next := NextPorts(Ports(ac), ExpectedPort(m.spec), AllAtGoal(StatesOf(m, ac.version, pods)));
            forall i :: 0 <= i < members + arbiters ==>
              PortFor(ProcessPorts(m, ac, pods), AllNames(m.name, members, arbiters)[i]) == next[i]
  {
    var names, states := AllNames(m.name, members, arbiters), StatesOf(m, ac.version, pods);
    var expected, ports := ExpectedPort(m.spec), Ports(ac);
    assert |ac.processes| == |ProcessNames(ac.processes)|;
    forall i: nat | i < members + arbiters
      ensures states[i].name == names[i] && names[i] in PodNames(states)
      ensures CurrentPort(ac.processes, expected, names[i]) == ports[i]
    {
      IndexOfOwnName(ac.processes, m.name, members, arbiters, i);
      assert ports[i] == ac.processes[i].GetPort();
      assert states[i].name == names[i];
    }
    var first, j := FirstPending(ac.processes, expected, states, 0), FirstOther(ports, expected, 0);
    assert first == j by {
      assert forall i :: 0 <= i < |states| ==> (IsPending(ac.processes, expected, states, i) <==> ports[i] != expected);
    }
    forall i: nat | i < members + arbiters
      ensures PortFor(ProcessPorts(m, ac, pods), names[i]) ==
              NextPorts(ports, expected, AllAtGoal(states))[i]
    {
      if first < |states| && i != first {
        if names[i] == names[first] {
          AllNamesDistinct(m.name, members, arbiters, i, first);
        }
      }
    }
  }

  lemma BuiltPortsAreNext(m: ValidResource, ac: AutomationConfig, pods: Pods, members: nat, arbiters: nat)
    requires OnTarget(m, m.name, members, arbiters) && HasTopology(ac, m.name, members, arbiters)
             && NonZero(Ports(ac))
    requires BuildSpec(BuildSettings(m), BuildModifications(m, ProcessPorts(m, ac, pods)), m.spec.fcv, [], ac).Ok?
    ensures Ports(BuildSpec(BuildSettings(m), BuildModifications(m, ProcessPorts(m, ac, pods)), m.spec.fcv, [], ac).value) ==
            NextPorts(Ports(ac), ExpectedPort(m.spec), AllAtGoal(StatesOf(m, ac.version, pods)))
  {
    BuiltPorts(m, ProcessPorts(m, ac, pods), ac);
    ProcessPortsAreNext(m, ac, pods, members, arbiters);
  }

  /** The ports are the next ones; the version rises by one when a port moves, and by at most one otherwise. */
  predicate MovesOnePort(m: ValidResource, ac: AutomationConfig, after: AutomationConfig, pods: Pods) {
    && Ports(after) == NextPorts(Ports(ac), ExpectedPort(m.spec), AllAtGoal(StatesOf(m, ac.version, pods)))
    && ac.version <= after.version <= ac.version + 1
    && (Ports(after) != Ports(ac) ==> after.version == ac.version + 1)
  }

  /** One publication on top of a stored config, whatever the resource asks for and whatever its override. */
  lemma PublicationMovesOnePort(m: ValidResource, ac: AutomationConfig, p: Pass, pods: Pods, members: nat,
                                arbiters: nat)
    requires OnTarget(m, m.name, members, arbiters) && HasTopology(ac, m.name, members, arbiters)
             && NonZero(Ports(ac))
    requires p == PassFor(m, ac, pods, p.faults) && Publish(Stored(ac), p).result.Ok?
    ensures var e := Publish(Stored(ac), p);
            e.secret.Stored? && HasTopology(e.secret.ac, m.name, members, arbiters)
                && MovesOnePort(m, ac, e.secret.ac, pods)
  {
    PublishedPorts(ac, p);
    PublishedTopology(Stored(ac), p);
    BuiltPortsAreNext(m, ac, pods, members, arbiters);
  }

  /** A reconcile keeps the resource on its target: the counters stay, or get there. */
  lemma OnTargetStays(c: Cluster, f: Faults)
    requires AimsAtSpec(c.mdb)
    ensures var n := Reconcile(c, f).mdb; n == c.mdb.(status := n.status, lastVersion := n.lastVersion) && AimsAtSpec(n)
  {
    Runs.ReconcileKeepsRequest(c, f);
    Runs.ReconcileMovesCounters(c, f);
  }
}
