/** Pod states: which pods exist and which of their agents have reached a config version. */
module AgentReadiness {
  import opened Names
  import opened Wrappers

  /** The version annotation an agent's probe leaves on its pod. */
  datatype Pod = Pod(agentVersion: Option<int>)

  /** What the API server answers for a pod name; a name outside the map is not found. */
  type Pods = map<string, Lookup<Pod>>

  datatype PodState = PodState(name: string, found: bool, reachedGoalState: bool, isArbiter: bool)

  datatype PodError = PodReadFailed(name: string)

  predicate ReachedGoalState(pod: Pod, targetVersion: int) {
    pod.agentVersion == Some(targetVersion)
  }

  predicate PodReadable(pods: Pods, name: string) {
    name in pods ==> !pods[name].Failed?
  }

  /** The state of one readable pod. */
  function StateOf(pods: Pods, name: string, targetVersion: int, isArbiter: bool): PodState {
    if name in pods && pods[name].Found?
    then PodState(name, true, ReachedGoalState(pods[name].item, targetVersion), isArbiter)
    else PodState(name, false, false, isArbiter)
  }

  predicate AllReadable(pods: Pods, names: seq<string>) {
    forall i :: 0 <= i < |names| ==> PodReadable(pods, names[i])
  }

  /** The states of all desired pods: data-bearing ones first, arbiters after them. */
  function PodStates(pods: Pods, name: string, members: nat, arbiters: nat, targetVersion: int): (states: seq<PodState>)
    ensures |states| == members + arbiters
  {
    seq(members + arbiters, i requires 0 <= i < members + arbiters =>
      StateOf(pods, AllNames(name, members, arbiters)[i], targetVersion, i >= members))
  }

  /** Data-bearing pods first, each by its ordinal: whether it exists, and whether its agent has reported the version. */
  lemma PodStatesExactly(pods: Pods, name: string, members: nat, arbiters: nat, targetVersion: int, i: nat)
    requires i < members + arbiters
    ensures var s := PodStates(pods, name, members, arbiters, targetVersion)[i];
            && s.name == (if i < members then name + "-" + Digits(i) else name + "-arb-" + Digits(i - members))
            && (s.isArbiter <==> i >= members)
            && (s.found <==> s.name in pods && pods[s.name].Found?)
            && (s.reachedGoalState <==> s.name in pods && pods[s.name] == Found(Pod(Some(targetVersion))))
  {
    var own := AllNames(name, members, arbiters)[i];
    assert own == if i < members then ProcessName(name, i, false) else ProcessName(name, i - members, true);
    assert ProcessName(name, i, false) == name + "-" + Digits(i);
  }

  method StatefulSetPodNames(name: string, count: nat, arbiters: bool) returns (names: seq<string>)
    ensures |names| == count
    ensures forall i :: 0 <= i < count ==> names[i] == ProcessName(name, i, arbiters)
  {
    var buffer := new string[count];
    for i := 0 to count
      invariant forall k :: 0 <= k < i ==> buffer[k] == ProcessName(name, k, arbiters)
    {
      buffer[i] := (if arbiters then name + "-arb-" else name + "-") + Digits(i);
    }
    return buffer[..];
  }

  method GetAllDesiredMembersAndArbitersPodState(pods: Pods, name: string, members: nat, arbiters: nat,
                                                 targetVersion: int)
    returns (r: Result<seq<PodState>, PodError>)
    ensures AllReadable(pods, AllNames(name, members, arbiters)) ==>
              r == Ok(PodStates(pods, name, members, arbiters, targetVersion))
    ensures r.Ok? <==> AllReadable(pods, AllNames(name, members, arbiters))
  {
    var memberNames := StatefulSetPodNames(name, members, false);
    var arbiterNames := StatefulSetPodNames(name, arbiters, true);
    var names := memberNames + arbiterNames;
    assert names == AllNames(name, members, arbiters);
    var states := new PodState[|names|](_ => PodState("", false, false, false));
    for i := 0 to |names|
      invariant AllReadable(pods, names[..i])
      invariant states[..i] == PodStates(pods, name, members, arbiters, targetVersion)[..i]
    {
      var podName := names[i];
      if podName in pods && pods[podName].Failed? {
        return Err(PodReadFailed(podName));
      }
      if podName !in pods || pods[podName].NotFound? {
        states[i] := PodState(podName, false, false, i >= |memberNames|);
      } else {
        states[i] := PodState(podName, true, ReachedGoalState(pods[podName].item, targetVersion), i >= |memberNames|);
      }
      assert names[..i + 1] == names[..i] + [podName];
    }
    assert names[..|names|] == names;
    assert states[..] == PodStates(pods, name, members, arbiters, targetVersion);
    return Ok(states[..]);
  }

  /** Every desired data-bearing pod exists and its agent has reached the version, or none of the pods exists. */
  predicate GoalReached(pods: Pods, name: string, members: nat, targetVersion: int) {
    var states := PodStates(pods, name, members, 0, targetVersion);
    || (forall i :: 0 <= i < members ==> states[i].found && states[i].reachedGoalState)
    || (forall i :: 0 <= i < members ==> !states[i].found)
  }

  /** Each of the first n data-bearing pods exists, and its agent has reported this version. */
  predicate AllReported(pods: Pods, name: string, n: nat, version: int) {
    forall i: nat :: i < n ==>
      var pod := ProcessName(name, i, false); pod in pods && pods[pod] == Found(Pod(Some(version)))
  }

  /** None of them exists. */
  predicate NoneExists(pods: Pods, name: string, n: nat) {
    forall i: nat :: i < n ==> var pod := ProcessName(name, i, false); pod in pods ==> !pods[pod].Found?
  }

  /** In terms of the pods: the version is what the agents of all of them have reported, or there is no pod yet. */
  lemma GoalReachedExactly(pods: Pods, name: string, members: nat, targetVersion: int)
    ensures GoalReached(pods, name, members, targetVersion) <==>
            AllReported(pods, name, members, targetVersion) || NoneExists(pods, name, members)
  {
    var states := PodStates(pods, name, members, 0, targetVersion);
    forall i: nat | i < members
      ensures var pod := ProcessName(name, i, false);
              && (states[i].found <==> pod in pods && pods[pod].Found?)
              && (states[i].found && states[i].reachedGoalState <==>
                  pod in pods && pods[pod] == Found(Pod(Some(targetVersion))))
    {
      assert AllNames(name, members, 0)[i] == ProcessName(name, i, false);
    }
  }

  /** The scan over the states, with its two early decisions. */
  method ScanStates(states: seq<PodState>) returns (r: bool)
    ensures r <==> (forall i :: 0 <= i < |states| ==> states[i].found && states[i].reachedGoalState)
                   || (forall i :: 0 <= i < |states| ==> !states[i].found)
  {
    var podsNotFound: seq<string> := [];
    for i := 0 to |states|
      invariant |podsNotFound| <= i
      invariant forall k :: 0 <= k < i && states[k].found ==> states[k].reachedGoalState
      invariant |podsNotFound| == i <==> forall k :: 0 <= k < i ==> !states[k].found
      invariant |podsNotFound| == 0 <==> forall k :: 0 <= k < i ==> states[k].found
    {
      if !states[i].found {
        podsNotFound := podsNotFound + [states[i].name];
      } else if !states[i].reachedGoalState {
        return false;
      }
    }
    if |podsNotFound| == |states| {
      return true;
    }
    return |podsNotFound| == 0;
  }

  /** Fails exactly when a pod cannot be read, and otherwise answers that question. */
  method AllReachedGoalState(pods: Pods, name: string, members: nat, targetVersion: int)
    returns (r: Result<bool, PodError>)
    ensures AllReadable(pods, AllNames(name, members, 0)) ==> r == Ok(GoalReached(pods, name, members, targetVersion))
    ensures r.Ok? <==> AllReadable(pods, AllNames(name, members, 0))
    ensures r.Ok? ==>
              (r.value <==> AllReported(pods, name, members, targetVersion) || NoneExists(pods, name, members))
  {
    var read := GetAllDesiredMembersAndArbitersPodState(pods, name, members, 0, targetVersion);
    if read.Err? {
      return Err(read.error);
    }
    var reached := ScanStates(read.value);
    GoalReachedExactly(pods, name, members, targetVersion);
    return Ok(reached);
  }
}
