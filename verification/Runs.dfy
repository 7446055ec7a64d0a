/** Runs of a cluster: reconciles, user edits, and whatever agents and stateful set controllers do in between. */
module Runs {
  import opened AgentReadiness
  import opened Controller
  import opened Functions
  import opened Resource
  import opened Wrappers
  import Scaling

  /** The environment may change pods, annotations and stateful set statuses at will, but not what the operator wrote. */
  datatype Event =
    | Reconciles(faults: Faults)
    | Edit(spec: Spec)
    | Environment(pods: Pods, observedGeneration: nat, updatedReplicas: int, readyReplicas: int)

  function Step(c: Cluster, e: Event): Cluster {
    match e
    case Reconciles(f) => Reconcile(c, f)
    case Edit(spec) => c.(mdb := c.mdb.(spec := spec))
    case Environment(pods, observed, updated, ready) =>
      var sts := if c.world.sts.None? then None
                 else Some(c.world.sts.value.(observedGeneration := observed, updatedReplicas := updated, readyReplicas := ready));
      c.(world := c.world.(pods := pods, sts := sts))
  }

  function After(c: Cluster, events: seq<Event>): Cluster {
    if events == [] then c else Step(After(c, events[..|events| - 1]), events[|events| - 1])
  }

  /** The environment leaves the resource and the config alone. */
  lemma EnvironmentKeeps(c: Cluster, e: Event)
    requires e.Environment?
    ensures Step(c, e).mdb == c.mdb && Step(c, e).world.secret == c.world.secret
  {
  }

  /** A resource that was just created. */
  predicate Fresh(c: Cluster) {
    c.mdb.status == Status(0, 0, 0, 0, Pending) && c.mdb.lastVersion == ""
    && c.world.secret.Missing? && c.world.sts.None? && c.world.arbiterSts.None?
  }

  // ---------------------------------------------------------------- the member counters

  lemma ReconcileMovesCounters(c: Cluster, f: Faults)
    ensures var s, t := c.mdb.status, Reconcile(c, f).mdb.status;
            && Reconcile(c, f).mdb.spec == c.mdb.spec && Reconcile(c, f).mdb.name == c.mdb.name
            && (t == s.(phase := t.phase) || (ValidCounts(c.mdb.spec) && t == ReadyStatus(c.mdb)))
  {
  }

  predicate OneStepTowards(before: nat, after: nat, target: int) {
    || after == before
    || (before == 0 && after == target)
    || (before < target && after == before + 1)
    || (before > target && before > 0 && after == before - 1)
  }

  /**
   * Whatever the edits, faults and environment of a run: the two member counters are equal, and once they have left
   * zero they never return to it.
   */
  lemma {:induction false} MemberCountersAgree(c: Cluster, events: seq<Event>, k: nat)
    requires Fresh(c) && k <= |events|
    ensures After(c, events).mdb.status.acMembers == After(c, events).mdb.status.stsMembers
    ensures After(c, events).mdb.status.stsMembers == 0 ==> After(c, events[..k]).mdb.status.stsMembers == 0
  {
    if events != [] {
      var front, last := events[..|events| - 1], events[|events| - 1];
      if k <= |front| {
        assert events[..k] == front[..k];
      } else {
        assert events[..k] == events;
      }
      MemberCountersAgree(c, front, if k <= |front| then k else 0);
      if last.Reconciles? {
        ReconcileMovesCounters(After(c, front), last.faults);
      }
    } else {
      assert events[..k] == [];
    }
  }

  /**
   * In each step of such a run the member counters stay, or move one towards the spec, or jump from zero to it; and
   * the arbiter counter of the config moves only in a reconcile whose member target is already the desired count.
   */
  lemma CountersMoveOneStep(c: Cluster, events: seq<Event>, e: Event)
    requires Fresh(c)
    ensures var d := After(c, events);
            var s, t := d.mdb.status, Step(d, e).mdb.status;
            && OneStepTowards(s.stsMembers, t.stsMembers, d.mdb.spec.members)
            && OneStepTowards(s.acMembers, t.acMembers, d.mdb.spec.members)
            && (t.acArbiters != s.acArbiters ==>
                  ValidCounts(d.mdb.spec) && StatefulSetReplicasThisReconciliation(d.mdb) == d.mdb.spec.members
                  && t.acMembers == d.mdb.spec.members)
  {
    var d := After(c, events);
    MemberCountersAgree(c, events, 0);
    if e.Reconciles? {
      ReconcileMovesCounters(d, e.faults);
    }
  }

  // ---------------------------------------------------------------- reconciles that complete

  /** Both stages are ready, and the status is written. */
  predicate Completes(c: Cluster, f: Faults) {
    && Proceeds(c.mdb, f) && DeployReplicaSet(c.mdb, c.world, f).1 == Ready
    && !(IsChangingVersion(c.mdb) && f.strategyWrite) && !f.statusWrite
  }

  /** How many reconciles of a run complete. */
  function Completed(c: Cluster, events: seq<Event>): nat {
    if events == [] then 0 else
    var front, last := events[..|events| - 1], events[|events| - 1];
    Completed(c, front) + if last.Reconciles? && Completes(After(c, front), last.faults) then 1 else 0
  }

  lemma CountersMoveOnCompletion(c: Cluster, f: Faults)
    ensures var s, t := c.mdb.status, Reconcile(c, f).mdb.status;
            && Reconcile(c, f).mdb.spec == c.mdb.spec
            && t.(phase := s.phase) == if Completes(c, f) then ReadyStatus(c.mdb).(phase := s.phase) else s
  {
  }

  /** Of the resource a reconcile changes the status and the version annotation only. */
  lemma ReconcileKeepsRequest(c: Cluster, f: Faults)
    ensures var d := Reconcile(c, f);
            d.mdb == c.mdb.(status := d.mdb.status, lastVersion := d.mdb.lastVersion)
  {
  }

  /** The counters of the status. */
  predicate SameCounters(m: Resource, n: Resource) {
    m.spec == n.spec && m.status.(phase := n.status.phase) == n.status
  }

  lemma AdvanceDependsOnCounters(m: ValidResource, n: ValidResource)
    requires SameCounters(m, n)
    ensures ReadyStatus(m) == ReadyStatus(n)
  {
  }

  /**
   * Over every run without edits, whatever fails and whatever the environment does: the four counters are those after as
   * many ready reconciles as were completed, so their closed form applies.
   */
  lemma {:induction false} CountersCountCompletions(c: Cluster, events: seq<Event>)
    requires ValidCounts(c.mdb.spec) && forall i :: 0 <= i < |events| ==> !events[i].Edit?
    ensures SameCounters(After(c, events).mdb, Scaling.Advance(c.mdb, Completed(c, events)))
  {
    if events != [] {
      var front, last := events[..|events| - 1], events[|events| - 1];
      var d := After(c, front);
      CountersCountCompletions(c, front);
      if last.Reconciles? {
        CountersMoveOnCompletion(d, last.faults);
        AdvanceDependsOnCounters(d.mdb, Scaling.Advance(c.mdb, Completed(c, front)));
      }
    }
  }

  /** In particular all counters are at their target from exactly the needed number of completed reconciles on. */
  lemma TargetIsReachedExactly(c: Cluster, events: seq<Event>)
    requires ValidCounts(c.mdb.spec) && forall i :: 0 <= i < |events| ==> !events[i].Edit?
    ensures ValidCounts(After(c, events).mdb.spec)
    ensures Scaling.AtTarget(After(c, events).mdb) <==> Completed(c, events) >= Scaling.StepsNeeded(c.mdb)
  {
    CountersCountCompletions(c, events);
    Scaling.ReachesTargetExactly(c.mdb, Completed(c, events));
  }

  // ---------------------------------------------------------------- what the phase tells

  /** Only a completed reconcile reports Running. */
  lemma OnlyCompletionReportsRunning(c: Cluster, f: Faults)
    ensures if Completes(c, f) then Reconcile(c, f).mdb.status == ReadyStatus(c.mdb)
            else Reconcile(c, f).mdb.status.phase.Running? ==> c.mdb.status.phase.Running?
  {
  }

  /** The phase is not Running, or the n-th of the ready reconciles from m on has reported it. */
  predicate RunningIsReported(m: ValidResource, phase: Phase, n: nat) {
    phase.Running? ==> n > 0 && Scaling.Advance(m, n).status.phase.Running?
  }

  lemma NextReports(m: ValidResource, d: Cluster, e: Event, n: nat)
    requires SameCounters(d.mdb, Scaling.Advance(m, n)) && RunningIsReported(m, d.mdb.status.phase, n) && !e.Edit?
    ensures RunningIsReported(m, Step(d, e).mdb.status.phase, n + if e.Reconciles? && Completes(d, e.faults) then 1 else 0)
  {
    if e.Reconciles? {
      OnlyCompletionReportsRunning(d, e.faults);
      AdvanceDependsOnCounters(d.mdb, Scaling.Advance(m, n));
    } else {
      EnvironmentKeeps(d, e);
    }
  }

  lemma {:induction false} RunningComesFromCompletion(c: Cluster, events: seq<Event>)
    requires ValidCounts(c.mdb.spec) && !c.mdb.status.phase.Running?
    requires forall i :: 0 <= i < |events| ==> !events[i].Edit?
    ensures RunningIsReported(c.mdb, After(c, events).mdb.status.phase, Completed(c, events))
  {
    if events != [] {
      var front, last := events[..|events| - 1], events[|events| - 1];
      RunningComesFromCompletion(c, front);
      CountersCountCompletions(c, front);
      NextReports(c.mdb, After(c, front), last, Completed(c, front));
    }
  }

  /**
   * In every run without edits that starts from counters of which Running reports are truthful, whatever fails: a resource
   * that shows Running has all its counters at the spec.
   */
  lemma ShownRunningIsTruthful(c: Cluster, events: seq<Event>)
    requires ValidCounts(c.mdb.spec) && !c.mdb.status.phase.Running?
    requires forall i :: 0 <= i < |events| ==> !events[i].Edit?
    requires Scaling.StepsNeeded(c.mdb) <= Scaling.StepsUntilRunning(c.mdb)
    ensures var d := After(c, events);
            ValidCounts(d.mdb.spec) && (d.mdb.status.phase.Running? ==> Scaling.AtTarget(d.mdb))
  {
    RunningComesFromCompletion(c, events);
    CountersCountCompletions(c, events);
    Scaling.RunningIsTruthfulExactly(c.mdb);
  }
}
