/** Runs of ready reconciles under a fixed spec: how the four counters move, and what `Running` then means. */
module Scaling {
  import opened Resource
  import Scale

  /** The resource after n ready reconciles. */
  function Advance(m: ValidResource, n: nat): ValidResource {
    if n == 0 then m else
    var before := Advance(m, n - 1);
    before.(status := ReadyStatus(before))
  }

  function Distance(a: nat, b: nat): nat {
    if a < b then b - a else a - b
  }

  /** Walking n single steps from c towards d and stopping there. */
  function Toward(c: nat, d: nat, n: nat): nat {
    if n >= Distance(c, d) then d else if c < d then c + n else c - n
  }

  /** A member counter after n ready reconciles; a new deployment jumps. */
  function MembersAfter(c: nat, d: nat, n: nat): nat {
    if c == 0 && n > 0 then d else Toward(c, d, n)
  }

  /** For how many ready reconciles the arbiters of the config have to wait for the members. */
  function ArbiterLag(c: nat, d: nat): nat {
    if c == 0 || c == d then 0 else Distance(c, d) - 1
  }

  predicate CountersAre(m: ValidResource, stsMembers: nat, acMembers: nat, stsArbiters: nat, acArbiters: nat) {
    m.status.stsMembers == stsMembers && m.status.acMembers == acMembers
    && m.status.stsArbiters == stsArbiters && m.status.acArbiters == acArbiters
  }

  predicate AtTarget(m: ValidResource) {
    CountersAre(m, m.spec.members, m.spec.members, m.spec.arbiters, m.spec.arbiters)
  }

  /** One reconcile of a member counter: one step further, or the jump of a new deployment. */
  lemma MemberStep(c: nat, d: nat, n: nat)
    ensures Scale.ReplicasThisReconciliation(Scale.Scaler(MembersAfter(c, d, n), d, false)) == MembersAfter(c, d, n + 1)
    ensures Scale.IsStillScaling(Scale.Scaler(MembersAfter(c, d, n), d, false)) <==> n < ArbiterLag(c, d)
  {
  }

  /** One reconcile of an arbiter counter. */
  lemma ArbiterStep(c: nat, d: nat, n: nat)
    ensures Scale.ReplicasThisReconciliation(Scale.Scaler(Toward(c, d, n), d, true)) == Toward(c, d, n + 1)
  {
  }

  /** The recursion through the scaling getters in closed form. */
  lemma {:induction false} CountersAfter(m: ValidResource, n: nat)
    ensures Advance(m, n).spec == m.spec
    ensures var lag := ArbiterLag(m.status.stsMembers, m.spec.members);
            CountersAre(Advance(m, n),
                        MembersAfter(m.status.stsMembers, m.spec.members, n),
                        MembersAfter(m.status.acMembers, m.spec.members, n),
                        Toward(m.status.stsArbiters, m.spec.arbiters, n),
                        Toward(m.status.acArbiters, m.spec.arbiters, if n > lag then n - lag else 0))
  {
    if n > 0 {
      var s, members, arbiters, lag := m.status, m.spec.members, m.spec.arbiters, ArbiterLag(m.status.stsMembers, m.spec.members);
      CountersAfter(m, n - 1);
      MemberStep(s.stsMembers, members, n - 1);
      MemberStep(s.acMembers, members, n - 1);
      ArbiterStep(s.stsArbiters, arbiters, n - 1);
      ArbiterStep(s.acArbiters, arbiters, if n - 1 > lag then n - 1 - lag else 0);
    }
  }

  function Max(a: nat, b: nat): nat {
    if a < b then b else a
  }

  function MemberSteps(c: nat, d: nat): nat {
    if c == 0 && d != 0 then 1 else Distance(c, d)
  }

  /** The number of ready reconciles a resource needs. */
  function StepsNeeded(m: ValidResource): nat {
    var s, members, arbiters := m.status, m.spec.members, m.spec.arbiters;
    var acArbiterSteps := if s.acArbiters == arbiters then 0
                          else ArbiterLag(s.stsMembers, members) + Distance(s.acArbiters, arbiters);
    Max(Max(MemberSteps(s.stsMembers, members), MemberSteps(s.acMembers, members)),
        Max(Distance(s.stsArbiters, arbiters), acArbiterSteps))
  }

  /** All four counters equal the spec from exactly the needed number of ready reconciles on, and stay there. */
  lemma ReachesTargetExactly(m: ValidResource, n: nat)
    ensures AtTarget(Advance(m, n)) <==> n >= StepsNeeded(m)
  {
    CountersAfter(m, n);
  }

  /** That number is at most the member distance plus the greater arbiter distance. */
  lemma StepsNeededBound(m: ValidResource)
    ensures StepsNeeded(m) <= Max(Distance(m.status.stsMembers, m.spec.members), Distance(m.status.acMembers, m.spec.members))
                              + Max(Distance(m.status.stsArbiters, m.spec.arbiters), Distance(m.status.acArbiters, m.spec.arbiters))
  {
  }

  lemma PhaseAfter(m: ValidResource, n: nat)
    requires n > 0
    ensures Advance(m, n).status.phase.Running?
       <==> MembersAfter(m.status.stsMembers, m.spec.members, n) == m.spec.members
            && Toward(m.status.stsArbiters, m.spec.arbiters, n) == m.spec.arbiters
  {
    CountersAfter(m, n - 1);
    CountersAfter(m, n);
  }

  /** The number of ready reconciles after which `Running` is reported: the members and their arbiters are there. */
  function StepsUntilRunning(m: ValidResource): nat {
    Max(1, Max(MemberSteps(m.status.stsMembers, m.spec.members), Distance(m.status.stsArbiters, m.spec.arbiters)))
  }

  lemma RunningExactly(m: ValidResource, n: nat)
    requires n > 0
    ensures Advance(m, n).status.phase.Running? <==> n >= StepsUntilRunning(m)
  {
    PhaseAfter(m, n);
  }

  /** Every Running report of the following ready reconciles is truthful. */
  ghost predicate RunningIsTruthful(m: ValidResource) {
    forall n: nat :: n > 0 && Advance(m, n).status.phase.Running? ==> AtTarget(Advance(m, n))
  }

  /**
   * Whatever the counters, so for an edit at any time: every Running report is truthful exactly when all counters need no
   * more ready reconciles than those that the report waits for.
   */
  lemma RunningIsTruthfulExactly(m: ValidResource)
    ensures RunningIsTruthful(m) <==> StepsNeeded(m) <= StepsUntilRunning(m)
  {
    var n := StepsUntilRunning(m);
    if RunningIsTruthful(m) {
      RunningExactly(m, n);
      ReachesTargetExactly(m, n);
    } else {
      var k: nat :| k > 0 && Advance(m, k).status.phase.Running? && !AtTarget(Advance(m, k));
      RunningExactly(m, k);
      ReachesTargetExactly(m, k);
    }
  }

  /**
   * For an edit of a resource whose config and stateful sets agree that is exactly when the edit moves the members of an
   * existing deployment by at most one, or the arbiters by at most one.
   */
  lemma SettledRunningIsTruthfulExactly(m: ValidResource)
    requires m.status.acMembers == m.status.stsMembers && m.status.acArbiters == m.status.stsArbiters
    ensures RunningIsTruthful(m) <==>
            m.status.stsMembers == 0 || Distance(m.status.stsMembers, m.spec.members) <= 1
            || Distance(m.status.stsArbiters, m.spec.arbiters) <= 1
  {
    RunningIsTruthfulExactly(m);
  }
}
