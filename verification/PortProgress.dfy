/** Port changes come to an end: how many reconciles and versions they take, and that nothing is written otherwise. */
module PortProgress {
  import opened AgentReadiness
  import opened Config
  import opened ConfigBuilder
  import opened ConfigBuilderProperties
  import opened ConfigStore
  import opened ConfigFcv
  import opened ConfigStoreProperties
  import opened Controller
  import opened Names
  import opened PortManager
  import opened PortProperties
  import opened Resource
  import opened Wrappers
  import Ordering
  import Runs

  // ---------------------------------------------------------------- contents, apart from the version

  /** Everything a resource asks for, given the FCV and the ports. */
  function Contents(m: ValidResource, fcv: string, ports: map<string, int>): AutomationConfig {
    Merge(ApplyAll(BuildModifications(m, ports), Assemble(BuildSettings(m), [], fcv, 0)), m.spec.overrides)
  }

  lemma {:induction false} ModificationsIgnoreVersion(ms: seq<Modification>, ac: AutomationConfig, v: int)
    ensures ApplyAll(ms, ac.(version := v)) == ApplyAll(ms, ac).(version := v)
  {
    if ms != [] {
      ModificationsIgnoreVersion(ms[..|ms| - 1], ac, v);
      var front := ApplyAll(ms[..|ms| - 1], ac);
      assert Apply(ms[|ms| - 1], front.(version := v)) == Apply(ms[|ms| - 1], front).(version := v);
    }
  }

  /** A build on top of any config has these contents; the previous config matters for FCV and version only. */
  lemma BuiltContents(m: ValidResource, ports: map<string, int>, previous: AutomationConfig)
    requires EffectiveFcv(previous, m.spec.fcv, m.spec.version).Ok?
    ensures var built := BuildSpec(BuildSettings(m), BuildModifications(m, ports), m.spec.fcv, [], previous);
            built.Ok? && Merge(built.value, m.spec.overrides).(version := 0)
                         == Contents(m, EffectiveFcv(previous, m.spec.fcv, m.spec.version).value, ports)
  {
    var s, ms, f := BuildSettings(m), BuildModifications(m, ports), EffectiveFcv(previous, m.spec.fcv, m.spec.version).value;
    var built := BuildSpec(s, ms, m.spec.fcv, [], previous).value;
    var zero := ApplyAll(ms, Assemble(s, [], f, 0));
    assert Assemble(s, [], f, previous.version) == Assemble(s, [], f, 0).(version := previous.version);
    ModificationsIgnoreVersion(ms, Assemble(s, [], f, 0), previous.version);
    assert built == zero.(version := built.version);
    assert Merge(built, m.spec.overrides) == Merge(zero, m.spec.overrides).(version := built.version);
    ModificationsKeepSkeleton(ms, Assemble(s, [], f, 0));
  }

  /** Of a port map only the ports of the config's own names matter. */
  lemma ContentsDependOnPorts(m: ValidResource, fcv: string, ports: map<string, int>, ports': map<string, int>)
    requires forall i :: 0 <= i < AutomationConfigMembersThisReconciliation(m) + ConfiguredArbiters(m) ==>
               var name := AllNames(m.name, AutomationConfigMembersThisReconciliation(m), ConfiguredArbiters(m))[i];
               PortFor(ports, name) == PortFor(ports', name)
    ensures Contents(m, fcv, ports) == Contents(m, fcv, ports')
  {
    var s, ms, ms' := BuildSettings(m), BuildModifications(m, ports), BuildModifications(m, ports');
    var n := |ms| - 1;
    assert ms[..n] == ms'[..n];
    var front := ApplyAll(ms[..n], Assemble(s, [], fcv, 0));
    AssembledNames(s, ms[..n], [], fcv, 0);
    assert Apply(SetPorts(ports), front) == Apply(SetPorts(ports'), front) by {
      forall i | 0 <= i < |front.processes|
        ensures Modify(front.processes[i], SetPorts(ports)) == Modify(front.processes[i], SetPorts(ports'))
      {
        assert front.processes[i].name == AllNames(s.name, s.members, s.arbiters)[i];
      }
    }
  }

  lemma AssembledPorts(m: ValidResource, fcv: string, ports: map<string, int>)
    ensures var ac := Contents(m, fcv, ports);
            var names := AllNames(m.name, AutomationConfigMembersThisReconciliation(m), ConfiguredArbiters(m));
            && |ac.processes| == |names|
            && (forall i :: 0 <= i < |names| ==> ac.processes[i].fcv == fcv)
            && (forall i :: 0 <= i < |names| ==> Ports(ac)[i] == PortFor(ports, names[i]))
  {
    var s, ms := BuildSettings(m), BuildModifications(m, ports);
    var n := |ms| - 1;
    var unmerged := ApplyAll(ms, Assemble(s, [], fcv, 0));
    MergeKeeps(unmerged, m.spec.overrides);
    AssembledNames(s, ms, [], fcv, 0);
    AssembledNames(s, ms[..n], [], fcv, 0);
    assert Ports(Contents(m, fcv, ports)) == Ports(unmerged);
    forall i | 0 <= i < |unmerged.processes|
      ensures Ports(unmerged)[i] == PortFor(ports, AllNames(s.name, s.members, s.arbiters)[i])
    {
      assert unmerged.processes[i]
             == Modify(ApplyAll(ms[..n], Assemble(s, [], fcv, 0)).processes[i], SetPorts(ports));
    }
  }

  // ---------------------------------------------------------------- a pending change advances one port per round

  /** The config holds what the resource asks for, with some ports. */
  ghost predicate UpToDate(m: ValidResource, ac: AutomationConfig) {
    EffectiveFcv(ac, m.spec.fcv, m.spec.version).Ok? && exists ports :: BuiltWith(m, ac, ports)
  }

  /** These are the ports. */
  predicate BuiltWith(m: ValidResource, ac: AutomationConfig, ports: map<string, int>)
    requires EffectiveFcv(ac, m.spec.fcv, m.spec.version).Ok?
  {
    ac.(version := 0) == Contents(m, EffectiveFcv(ac, m.spec.fcv, m.spec.version).value, ports)
  }

  /** What a successful publication stores is up to date exactly when it carries an FCV. */
  lemma PublicationIsUpToDate(m: ValidResource, previous: AutomationConfig, ports: map<string, int>,
                              after: AutomationConfig)
    requires EffectiveFcv(previous, m.spec.fcv, m.spec.version).Ok? && AutomationConfigMembersThisReconciliation(m) > 0
    requires var built := BuildSpec(BuildSettings(m), BuildModifications(m, ports), m.spec.fcv, [], previous);
             built.Ok? && AreEqual(Merge(built.value, m.spec.overrides), after)
    ensures UpToDate(m, after) <==> !PublishesNoFcv(previous, m.spec.fcv, m.spec.version)
  {
    var f := EffectiveFcv(previous, m.spec.fcv, m.spec.version).value;
    BuiltContents(m, ports, previous);
    assert after.(version := 0) == Contents(m, f, ports);
    AssembledPorts(m, f, ports);
    FcvFixpoint(previous, m.spec.fcv, m.spec.version, after);
    NoFcvExactly(previous, m.spec.fcv, m.spec.version);
    if f != "" {
      assert BuiltWith(m, after, ports);
    }
  }

  /** Building with ports that agree with those of an up-to-date config gives its contents again. */
  lemma SamePortsSameContents(m: ValidResource, ac: AutomationConfig, ports: map<string, int>)
    requires UpToDate(m, ac)
    requires var names := AllNames(m.name, AutomationConfigMembersThisReconciliation(m), ConfiguredArbiters(m));
             |names| == |ac.processes| && forall i :: 0 <= i < |names| ==> PortFor(ports, names[i]) == Ports(ac)[i]
    ensures var built := BuildSpec(BuildSettings(m), BuildModifications(m, ports), m.spec.fcv, [], ac);
            built.Ok? && AreEqual(Merge(built.value, m.spec.overrides), ac)
  {
    var f := EffectiveFcv(ac, m.spec.fcv, m.spec.version).value;
    var own :| BuiltWith(m, ac, own);
    AssembledPorts(m, f, own);
    assert Ports(ac) == Ports(ac.(version := 0));
    ContentsDependOnPorts(m, f, ports, own);
    BuiltContents(m, ports, ac);
    var merged := Merge(BuildSpec(BuildSettings(m), BuildModifications(m, ports), m.spec.fcv, [], ac).value, m.spec.overrides);
    assert merged.(version := 0) == ac.(version := 0);
    assert merged.(version := ac.version) == merged.(version := 0).(version := ac.version);
  }

  /** A config in use by a settled resource. */
  ghost predicate InUse(m: ValidResource, ac: AutomationConfig) {
    AimsAtSpec(m)
        && HasTopology(ac, m.name, m.spec.members, m.spec.arbiters)
    && NonZero(Ports(ac)) && UpToDate(m, ac)
  }

  /** How many processes are not at the expected port. */
  function PendingCount(m: ValidResource, ac: AutomationConfig): nat {
    |Ports(ac)| - multiset(Ports(ac))[ExpectedPort(m.spec)]
  }

  /** What one round of the operator sees, and which of its API calls fail. */
  datatype Round = Round(pods: Pods, faults: Faults)

  /** No call fails in this round. */
  predicate Undisturbed(m: ValidResource, r: Round) {
    !r.faults.acInputs && !r.faults.acStore.read && !r.faults.acStore.write && PortInputsReadable(m, r.pods)
  }

  predicate GoalRound(m: ValidResource, ac: AutomationConfig, r: Round) {
    Undisturbed(m, r) && AllAtGoal(StatesOf(m, ac.version, r.pods))
  }

  lemma MovingOneLeavesOneLess(ports: seq<int>, expected: int)
    requires FirstOther(ports, expected, 0) < |ports|
    ensures |NextPorts(ports, expected, true)| == |ports| && NextPorts(ports, expected, true) != ports
    ensures multiset(NextPorts(ports, expected, true))[expected] == multiset(ports)[expected] + 1
  {
    var j := FirstOther(ports, expected, 0);
    assert NextPorts(ports, expected, true)[j] == expected;
  }

  lemma NothingPending(ports: seq<int>, expected: int)
    ensures FirstOther(ports, expected, 0) == |ports| <==> |ports| == multiset(ports)[expected]
  {
    CountsAllExactly(ports, expected);
  }

  /** Counting an element gives the whole length exactly when there is no other. */
  lemma {:induction false} CountsAllExactly(xs: seq<int>, x: int)
    ensures multiset(xs)[x] <= |xs|
    ensures multiset(xs)[x] == |xs| <==> forall i :: 0 <= i < |xs| ==> xs[i] == x
  {
    if xs != [] {
      CountsAllExactly(xs[1..], x);
      assert xs == [xs[0]] + xs[1..];
      assert multiset(xs)[x] == (if xs[0] == x then 1 else 0) + multiset(xs[1..])[x];
      assert forall i :: 0 < i < |xs| ==> xs[i] == xs[1..][i - 1];
    }
  }

  lemma DisturbedRound(m: ValidResource, ac: AutomationConfig, r: Round)
    requires !Undisturbed(m, r)
    ensures EnsureAutomationConfig(m, Stored(ac), r.pods, r.faults).secret == Stored(ac)
  {
  }

  lemma UndisturbedPublishes(m: ValidResource, ac: AutomationConfig, r: Round)
    requires Undisturbed(m, r)
    ensures EnsureAutomationConfig(m, Stored(ac), r.pods, r.faults)
            == Publish(Stored(ac), PassFor(m, ac, r.pods, r.faults.acStore))
  {
  }

  lemma UndisturbedRound(m: ValidResource, ac: AutomationConfig, r: Round, ports: map<string, int>,
                         built: AutomationConfig)
    requires Undisturbed(m, r) && ports == ProcessPorts(m, ac, r.pods)
    requires BuildSpec(BuildSettings(m), BuildModifications(m, ports), m.spec.fcv, [], ac) == Ok(built)
    ensures EnsureAutomationConfig(m, Stored(ac), r.pods, r.faults)
            == EnsureSpec(Stored(ac), Merge(built, m.spec.overrides), r.faults.acStore)
  {
    UndisturbedPublishes(m, ac, r);
    PublishStores(ac, PassFor(m, ac, r.pods, r.faults.acStore), built);
  }

  /** The config that an undisturbed round builds: what the resource asks for, with the next ports. */
  lemma NextBuilt(m: ValidResource, ac: AutomationConfig, r: Round)
    requires InUse(m, ac) && Undisturbed(m, r)
    ensures var built := BuildSpec(BuildSettings(m), BuildModifications(m, ProcessPorts(m, ac, r.pods)), m.spec.fcv, [], ac);
            built.Ok? && Ports(built.value) ==
                         NextPorts(Ports(ac), ExpectedPort(m.spec), AllAtGoal(StatesOf(m, ac.version, r.pods)))
  {
    BuiltContents(m, ProcessPorts(m, ac, r.pods), ac);
    BuiltPortsAreNext(m, ac, r.pods, m.spec.members, m.spec.arbiters);
  }

  /** Nothing moves: the port map agrees with the published ports. */
  lemma IdlePorts(m: ValidResource, ac: AutomationConfig, pods: Pods)
    requires InUse(m, ac) && (!AllAtGoal(StatesOf(m, ac.version, pods)) || PendingCount(m, ac) == 0)
    ensures var names := AllNames(m.name, m.spec.members, m.spec.arbiters);
            |names| == |ac.processes| && forall i :: 0 <= i < |names| ==>
                                           PortFor(ProcessPorts(m, ac, pods), names[i]) == Ports(ac)[i]
  {
    NothingPending(Ports(ac), ExpectedPort(m.spec));
    ProcessPortsAreNext(m, ac, pods, m.spec.members, m.spec.arbiters);
  }

  /** A round that moves no port writes nothing. */
  lemma IdleRound(m: ValidResource, ac: AutomationConfig, r: Round)
    requires InUse(m, ac) && (!GoalRound(m, ac, r) || PendingCount(m, ac) == 0)
    ensures EnsureAutomationConfig(m, Stored(ac), r.pods, r.faults).secret == Stored(ac)
  {
    if Undisturbed(m, r) {
      var ports := ProcessPorts(m, ac, r.pods);
      IdlePorts(m, ac, r.pods);
      SamePortsSameContents(m, ac, ports);
      UndisturbedRound(m, ac, r, ports, BuildSpec(BuildSettings(m), BuildModifications(m, ports), m.spec.fcv, [], ac).value);
    } else {
      DisturbedRound(m, ac, r);
    }
  }

  /** A build with other ports than the stored ones is stored, under the next version. */
  lemma OtherPortsAreStored(ac: AutomationConfig, p: Pass, built: AutomationConfig)
    requires BuildSpec(p.settings, p.modifications, p.fcv, [], ac) == Ok(built)
    requires Ports(built) != Ports(ac) && !p.faults.read && !p.faults.write
    ensures var e, after := EnsureSpec(Stored(ac), Merge(built, p.overrides), p.faults), Merge(built, p.overrides);
            && e.written && e.secret == Stored(after)
            && after.version == ac.version + 1 && Ports(after) == Ports(built)
            && HasTopology(after, p.settings.name, p.settings.members, p.settings.arbiters)
  {
    BuiltSkeleton(p.settings, p.modifications, p.fcv, [], ac);
    MergeKeeps(built, p.overrides);
    PortsDecide(Merge(built, p.overrides), ac);
    PortsDecide(ac, built);
  }

  lemma PortsDecide(ac: AutomationConfig, ac': AutomationConfig)
    ensures AreEqual(ac, ac') ==> Ports(ac) == Ports(ac')
  {
  }

  lemma UpToDateHasFcv(m: ValidResource, ac: AutomationConfig)
    requires UpToDate(m, ac) && AutomationConfigMembersThisReconciliation(m) > 0
    ensures !PublishesNoFcv(ac, m.spec.fcv, m.spec.version)
  {
    var ports :| BuiltWith(m, ac, ports);
    AssembledPorts(m, EffectiveFcv(ac, m.spec.fcv, m.spec.version).value, ports);
    FcvFixpoint(ac, m.spec.fcv, m.spec.version, ac);
  }

  /** The config `after` has one pending port less than the config `ac`. */
  lemma OnePendingLess(m: ValidResource, ac: AutomationConfig, after: AutomationConfig)
    requires InUse(m, ac) && PendingCount(m, ac) > 0 && Ports(after) == NextPorts(Ports(ac), ExpectedPort(m.spec), true)
    requires HasTopology(after, m.name, m.spec.members, m.spec.arbiters) && UpToDate(m, after)
    ensures InUse(m, after) && PendingCount(m, after) == PendingCount(m, ac) - 1
  {
    NothingPending(Ports(ac), ExpectedPort(m.spec));
    MovingOneLeavesOneLess(Ports(ac), ExpectedPort(m.spec));
  }

  /** A round with every agent at goal and a port to move: one port moves, under the next version. */
  lemma MovingRound(m: ValidResource, ac: AutomationConfig, r: Round)
    requires InUse(m, ac) && GoalRound(m, ac, r) && PendingCount(m, ac) > 0
    ensures var e := EnsureAutomationConfig(m, Stored(ac), r.pods, r.faults);
            && e.written && e.secret.Stored? && InUse(m, e.secret.ac)
            && e.secret.ac.version == ac.version + 1
            && PendingCount(m, e.secret.ac) == PendingCount(m, ac) - 1
  {
    var ports := ProcessPorts(m, ac, r.pods);
    NextBuilt(m, ac, r);
    var built := BuildSpec(BuildSettings(m), BuildModifications(m, ports), m.spec.fcv, [], ac).value;
    NothingPending(Ports(ac), ExpectedPort(m.spec));
    UndisturbedRound(m, ac, r, ports, built);
    NextIsStored(m, ac, ports, built, r.faults.acStore);
  }

  lemma NextIsStored(m: ValidResource, ac: AutomationConfig, ports: map<string, int>, built: AutomationConfig,
                     faults: StoreFaults)
    requires InUse(m, ac) && PendingCount(m, ac) > 0 && !faults.read && !faults.write
    requires BuildSpec(BuildSettings(m), BuildModifications(m, ports), m.spec.fcv, [], ac) == Ok(built)
    requires Ports(built) == NextPorts(Ports(ac), ExpectedPort(m.spec), true)
    ensures var e := EnsureSpec(Stored(ac), Merge(built, m.spec.overrides), faults);
            && e.written && e.secret.Stored? && InUse(m, e.secret.ac)
            && e.secret.ac.version == ac.version + 1
            && PendingCount(m, e.secret.ac) == PendingCount(m, ac) - 1
  {
    var after := Merge(built, m.spec.overrides);
    NothingPending(Ports(ac), ExpectedPort(m.spec));
    OtherPortsAreStored(ac, Pass(BuildSettings(m), BuildModifications(m, ports), m.spec.fcv, m.spec.overrides, faults), built);
    UpToDateHasFcv(m, ac);
    PublicationIsUpToDate(m, ac, ports, after);
    OnePendingLess(m, ac, after);
  }

  // ---------------------------------------------------------------- an edit of the port

  /** Two processes that differ in the port argument only. */
  predicate SameButPort(p: Process, q: Process) {
    q == p.(args := q.args) && p.args - {PORT_FIELD} == q.args - {PORT_FIELD}
  }

  predicate SameButPorts(a: AutomationConfig, b: AutomationConfig) {
    b == a.(processes := b.processes) && |a.processes| == |b.processes|
    && forall i :: 0 <= i < |a.processes| ==> SameButPort(a.processes[i], b.processes[i])
  }

  /** Modifications do not look at the port; the last one overwrites it. */
  lemma ModifyKeepsSame(p: Process, q: Process, m: Modification)
    requires SameButPort(p, q)
    ensures SameButPort(Modify(p, m), Modify(q, m))
    ensures m.SetPorts? ==> Modify(p, m) == Modify(q, m)
  {
    if m.SetPorts? {
      var port := if p.name in m.ports then m.ports[p.name] else 0;
      assert Modify(p, m).args == (p.args - {PORT_FIELD})[PORT_FIELD := Num(port)];
      assert Modify(q, m).args == (q.args - {PORT_FIELD})[PORT_FIELD := Num(port)];
    } else if m.MergeArgs? {
      assert (p.args + m.args) - {PORT_FIELD} == (p.args - {PORT_FIELD}) + (m.args - {PORT_FIELD});
      assert (q.args + m.args) - {PORT_FIELD} == (q.args - {PORT_FIELD}) + (m.args - {PORT_FIELD});
    }
  }

  lemma ApplyKeepsSame(a: AutomationConfig, b: AutomationConfig, m: Modification)
    requires SameButPorts(a, b)
    ensures SameButPorts(Apply(m, a), Apply(m, b))
    ensures m.SetPorts? ==> Apply(m, a) == Apply(m, b)
  {
    forall i | 0 <= i < |a.processes|
      ensures SameButPort(Modify(a.processes[i], m), Modify(b.processes[i], m))
      ensures m.SetPorts? ==> Modify(a.processes[i], m) == Modify(b.processes[i], m)
    {
      ModifyKeepsSame(a.processes[i], b.processes[i], m);
    }
  }

  lemma OtherPortIsSame(ac: AutomationConfig, args: map<string, Arg>, port: int)
    ensures SameButPorts(Apply(MergeArgs(args), ac), Apply(MergeArgs(args[PORT_FIELD := Num(port)]), ac))
  {
    forall i | 0 <= i < |ac.processes|
      ensures SameButPort(Modify(ac.processes[i], MergeArgs(args)),
                          Modify(ac.processes[i], MergeArgs(args[PORT_FIELD := Num(port)])))
    {
      var p := ac.processes[i];
      assert (p.args + args) - {PORT_FIELD} == (p.args + args[PORT_FIELD := Num(port)]) - {PORT_FIELD};
    }
  }

  lemma {:induction false} OtherPortStaysSame(ac: AutomationConfig, args: map<string, Arg>, port: int,
                                              ms: seq<Modification>)
    ensures SameButPorts(ApplyAll([MergeArgs(args)] + ms, ac), ApplyAll([MergeArgs(args[PORT_FIELD := Num(port)])] + ms, ac))
  {
    var all, all' := [MergeArgs(args)] + ms, [MergeArgs(args[PORT_FIELD := Num(port)])] + ms;
    if ms == [] {
      assert all[..0] == [] && all'[..0] == [];
      OtherPortIsSame(ac, args, port);
    } else {
      var front := ms[..|ms| - 1];
      assert all[..|ms|] == [MergeArgs(args)] + front
             && all'[..|ms|] == [MergeArgs(args[PORT_FIELD := Num(port)])] + front;
      OtherPortStaysSame(ac, args, port, front);
      ApplyKeepsSame(ApplyAll(all[..|ms|], ac), ApplyAll(all'[..|ms|], ac), ms[|ms| - 1]);
    }
  }

  /** The contents that a resource asks for do not depend on its expected port, but on the ports that are published. */
  lemma ContentsForgetExpectedPort(m: ValidResource, fcv: string, ports: map<string, int>, port: int)
    ensures Contents(Asking(m, port), fcv, ports) == Contents(m, fcv, ports)
  {
    var ac := Assemble(BuildSettings(m), [], fcv, 0);
    var ms, ms' := BuildModifications(m, ports), BuildModifications(Asking(m, port), ports);
    var n := |ms| - 1;
    assert ms[..n] == [MergeArgs(m.spec.mongodConfig)] + m.spec.modifications;
    assert ms'[..n] == [MergeArgs(m.spec.mongodConfig[PORT_FIELD := Num(port)])] + m.spec.modifications;
    assert BuildSettings(Asking(m, port)) == BuildSettings(m);
    OtherPortStaysSame(ac, m.spec.mongodConfig, port, m.spec.modifications);
    ApplyKeepsSame(ApplyAll(ms[..n], ac), ApplyAll(ms'[..n], ac), SetPorts(ports));
  }

  lemma PortEditKeepsContents(m: ValidResource, ac: AutomationConfig, port: int)
    requires UpToDate(m, ac)
    ensures UpToDate(Asking(m, port), ac)
  {
    var ports :| BuiltWith(m, ac, ports);
    ContentsForgetExpectedPort(m, EffectiveFcv(ac, m.spec.fcv, m.spec.version).value, ports, port);
    assert BuiltWith(Asking(m, port), ac, ports);
  }

  lemma PortEditKeepsAim(m: ValidResource, port: int)
    requires AimsAtSpec(m) && port != 0
    ensures AimsAtSpec(Asking(m, port)) && ExpectedPort(Asking(m, port).spec) == port
  {
  }

  /** So a config in use stays in use when another port is asked for; what is pending then are the processes not on it. */
  lemma PortEditKeepsInUse(m: ValidResource, ac: AutomationConfig, port: int)
    requires InUse(m, ac) && port != 0
    ensures InUse(Asking(m, port), ac)
    ensures PendingCount(Asking(m, port), ac) == |Ports(ac)| - multiset(Ports(ac))[port]
  {
    PortEditKeepsContents(m, ac, port);
    PortEditKeepsAim(m, port);
  }

  // ---------------------------------------------------------------- where configs in use come from

  /** The ports that are built for a resource that aims at its spec. */
  lemma AimedPortsAreNonZero(m: ValidResource, previous: AutomationConfig, pods: Pods, built: AutomationConfig)
    requires AimsAtSpec(m)
    requires BuildSpec(BuildSettings(m), BuildModifications(m, ProcessPorts(m, previous, pods)), m.spec.fcv, [], previous)
             == Ok(built)
    ensures NonZero(Ports(built)) && NonZero(Ports(Merge(built, m.spec.overrides)))
  {
    NoZeroPortExactly(m, previous, pods);
    MergeKeeps(built, m.spec.overrides);
  }

  /**
   * What a successful publication stores is in use exactly when it carries an FCV, whatever was stored before: nothing, or
   * a config of other counts or contents.
   */
  lemma PublicationIsInUseExactly(m: ValidResource, secret: AcSecret, pods: Pods, f: Faults)
    requires AimsAtSpec(m) && !secret.WithoutConfig? && EnsureAutomationConfig(m, secret, pods, f).result.Ok?
    ensures var e, previous := EnsureAutomationConfig(m, secret, pods, f), ReadSpec(secret, false).value;
            e.secret.Stored? && (InUse(m, e.secret.ac) <==> !PublishesNoFcv(previous, m.spec.fcv, m.spec.version))
  {
    var previous := ReadSpec(secret, false).value;
    var p := PassFor(m, previous, pods, f.acStore);
    var built := BuildSpec(p.settings, p.modifications, p.fcv, [], previous).value;
    PublishedTopology(secret, p);
    AimedPortsAreNonZero(m, previous, pods, built);
    var after := Publish(secret, p).secret.ac;
    StoredIsDesired(secret, p, built);
    PublicationIsUpToDate(m, previous, ProcessPorts(m, previous, pods), after);
  }

  lemma StoredIsDesired(secret: AcSecret, p: Pass, built: AutomationConfig)
    requires Publish(secret, p).result.Ok? && !secret.WithoutConfig?
    requires BuildSpec(p.settings, p.modifications, p.fcv, [], ReadSpec(secret, false).value) == Ok(built)
    ensures Publish(secret, p).secret.Stored? && AreEqual(Merge(built, p.overrides), Publish(secret, p).secret.ac)
    ensures Ports(Publish(secret, p).secret.ac) == Ports(Merge(built, p.overrides))
  {
    PortsDecide(Merge(built, p.overrides), Publish(secret, p).secret.ac);
  }

  // ---------------------------------------------------------------- whole changes, over runs of the cluster

  /** Two states of a resource with one spec, both on its target. */
  predicate SameRequest(m: Resource, n: Resource) {
    && n == m.(status := n.status, lastVersion := n.lastVersion)
    && AimsAtSpec(m) && AimsAtSpec(n)
  }

  lemma InUseDependsOnRequest(m: ValidResource, n: ValidResource, ac: AutomationConfig)
    requires SameRequest(m, n) && InUse(m, ac)
    ensures InUse(n, ac) && PendingCount(n, ac) == PendingCount(m, ac)
  {
    var f := EffectiveFcv(ac, m.spec.fcv, m.spec.version).value;
    var ports :| BuiltWith(m, ac, ports);
    assert BuildSettings(n) == BuildSettings(m) && BuildModifications(n, ports) == BuildModifications(m, ports);
    assert Contents(n, f, ports) == Contents(m, f, ports);
    assert BuiltWith(n, ac, ports);
  }

  /** A cluster whose published config is in use. */
  ghost predicate Serving(c: Cluster) {
    ValidCounts(c.mdb.spec) && c.world.secret.Stored? && InUse(c.mdb, c.world.secret.ac)
  }

  /** A reconcile that gets to its config stage, meets no failure there, and sees every agent at the stored version. */
  predicate GoalReconcile(c: Cluster, f: Faults) {
    && Proceeds(c.mdb, f) && c.world.secret.Stored? && Ordering.ConfigStageRuns(c.mdb, c.world, f)
    && GoalRound(c.mdb, c.world.secret.ac, Round(c.world.pods, f))
  }

  /** How many of the reconciles of a run are such. */
  function GoalReconciles(c: Cluster, events: seq<Runs.Event>): nat {
    if events == [] then 0 else
    var front, last := events[..|events| - 1], events[|events| - 1];
    GoalReconciles(c, front) + if last.Reconciles? && GoalReconcile(Runs.After(c, front), last.faults) then 1 else 0
  }

  /** What one reconcile does to the config: one port and one version further, or nothing. */
  lemma ServingReconcile(c: Cluster, f: Faults)
    requires Serving(c)
    ensures var d, moves := Reconcile(c, f), GoalReconcile(c, f) && PendingCount(c.mdb, c.world.secret.ac) > 0;
            && SameRequest(c.mdb, d.mdb) && d.world.secret.Stored? && InUse(c.mdb, d.world.secret.ac)
            && (if moves then
                  d.world.secret.ac.version == c.world.secret.ac.version + 1
                  && PendingCount(c.mdb, d.world.secret.ac) == PendingCount(c.mdb, c.world.secret.ac) - 1
                else d.world.secret == c.world.secret)
  {
    var m, ac, r := c.mdb, c.world.secret.ac, Round(c.world.pods, f);
    OnTargetStays(c, f);
    Ordering.ReconcilePublishesExactly(c, f);
    if Proceeds(m, f) && Ordering.ConfigStageRuns(m, c.world, f) {
      if GoalRound(m, ac, r) && PendingCount(m, ac) > 0 {
        MovingRound(m, ac, r);
      } else {
        IdleRound(m, ac, r);
      }
    }
  }

  /** The cluster `d` has the same request, and its config is as far as n goal reconciles take it. */
  ghost predicate Advanced(m: ValidResource, ac: AutomationConfig, d: Cluster, n: nat) {
    SameRequest(m, d.mdb) && ConfigAdvanced(m, ac, d.world.secret, n)
  }

  /** The progress of a change from the config `ac` with k pending ports after n goal reconciles. */
  ghost predicate ConfigAdvanced(m: ValidResource, ac: AutomationConfig, secret: AcSecret, n: nat) {
    var k := PendingCount(m, ac);
    && secret.Stored? && InUse(m, secret.ac)
    && PendingCount(m, secret.ac) == (if n < k then k - n else 0)
    && secret.ac.version == ac.version + (if n < k then n else k)
    && (n == 0 || k == 0 ==> secret.ac == ac)
  }

  /**
   * A port change over any run of the cluster without edits, whatever fails and whatever pods, agents and stateful set
   * controllers do: every reconcile at goal moves exactly one of the k pending processes and bumps the version once,
   * until none is left; no other reconcile writes the config.
   */
  lemma {:induction false} ChangeTakesOneGoalReconcilePerPort(c: Cluster, events: seq<Runs.Event>)
    requires Serving(c) && forall i :: 0 <= i < |events| ==> !events[i].Edit?
    ensures Advanced(c.mdb, c.world.secret.ac, Runs.After(c, events), GoalReconciles(c, events))
  {
    if events != [] {
      var front, last := events[..|events| - 1], events[|events| - 1];
      ChangeTakesOneGoalReconcilePerPort(c, front);
      NextAdvances(c.mdb, c.world.secret.ac, Runs.After(c, front), last, GoalReconciles(c, front));
    }
  }

  /** One more event. */
  lemma NextAdvances(m: ValidResource, ac: AutomationConfig, d: Cluster, e: Runs.Event, n: nat)
    requires Advanced(m, ac, d, n) && !e.Edit?
    ensures Advanced(m, ac, Runs.Step(d, e), n + if e.Reconciles? && GoalReconcile(d, e.faults) then 1 else 0)
  {
    if e.Reconciles? {
      AdvanceStep(m, ac, d, e.faults, n);
    } else {
      Runs.EnvironmentKeeps(d, e);
    }
  }

  /** One more reconcile. */
  lemma AdvanceStep(m: ValidResource, ac: AutomationConfig, d: Cluster, f: Faults, n: nat)
    requires Advanced(m, ac, d, n)
    ensures Advanced(m, ac, Reconcile(d, f), n + if GoalReconcile(d, f) then 1 else 0)
  {
    InUseDependsOnRequest(m, d.mdb, d.world.secret.ac);
    ServingReconcile(d, f);
    InUseDependsOnRequest(d.mdb, m, Reconcile(d, f).world.secret.ac);
  }

  /** All counters are at the spec. */
  predicate CountersSettled(m: Resource) {
    && m.status.stsMembers == m.status.acMembers == m.spec.members
    && m.status.stsArbiters == m.status.acArbiters == m.spec.arbiters
  }

  /**
   * With settled counters, TLS off and no version change under way every reconcile that proceeds gets to its config stage,
   * provided the stateful set can be read.
   */
  lemma SettledReconcilesPublish(c: Cluster, f: Faults)
    requires ValidCounts(c.mdb.spec) && CountersSettled(c.mdb) && !c.mdb.spec.tlsEnabled && !IsChangingVersion(c.mdb)
    ensures Ordering.ConfigStageRuns(c.mdb, c.world, f) <==> !f.stsRead
  {
  }

  /**
   * The same as a statement about an edit: in a cluster that serves, at any moment, another port is asked for.  From then on
   * every reconcile at goal moves one of the processes that are not on it, and after as many all are on it.
   */
  lemma PortEditTakesOneGoalReconcilePerProcess(c: Cluster, port: int, events: seq<Runs.Event>)
    requires Serving(c) && port != 0 && forall i :: 0 <= i < |events| ==> !events[i].Edit?
    ensures var d, ports := Runs.Step(c, Runs.Edit(Asking(c.mdb, port).spec)), Ports(c.world.secret.ac);
            var pending := |ports| - multiset(ports)[port];
            var secret, n := Runs.After(d, events).world.secret, GoalReconciles(d, events);
            && Serving(d) && secret.Stored? && |Ports(secret.ac)| == |ports|
            && |ports| - multiset(Ports(secret.ac))[port] == (if n < pending then pending - n else 0)
            && secret.ac.version == c.world.secret.ac.version + (if n < pending then n else pending)
  {
    var d := Runs.Step(c, Runs.Edit(Asking(c.mdb, port).spec));
    PortEditKeepsInUse(c.mdb, c.world.secret.ac, port);
    PortEditKeepsAim(c.mdb, port);
    assert d.mdb == Asking(c.mdb, port);
    ChangeTakesOneGoalReconcilePerPort(d, events);
    PortCount(d.mdb, d.world.secret.ac);
    PortCount(d.mdb, Runs.After(d, events).world.secret.ac);
  }

  lemma PortCount(m: ValidResource, ac: AutomationConfig)
    requires InUse(m, ac)
    ensures |Ports(ac)| == m.spec.members + m.spec.arbiters
  {
    assert |ac.processes| == |ProcessNames(ac.processes)|;
  }
}
