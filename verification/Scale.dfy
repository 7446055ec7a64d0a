/** Moving a replica count towards its target one step per reconcile. */
module Scale {

  datatype Scaler = Scaler(current: nat, desired: nat, forcedIndividualScaling: bool)

  /** The count to configure in this reconcile; a new deployment goes straight to the target unless forced not to. */
  function ReplicasThisReconciliation(s: Scaler): nat {
    if s.current == s.desired then s.desired
    else if !s.forcedIndividualScaling && s.current == 0 then s.desired
    else if IsScalingDown(s) then s.current - 1
    else s.current + 1
  }

  predicate IsStillScaling(s: Scaler) {
    ReplicasThisReconciliation(s) != s.desired
  }

  predicate IsScalingDown(s: Scaler) {
    s.desired < s.current
  }

  predicate IsScalingUp(s: Scaler) {
    s.desired > s.current && s.current != 0
  }

  predicate HasZeroReplicas(s: Scaler) {
    s.current == 0
  }
}
