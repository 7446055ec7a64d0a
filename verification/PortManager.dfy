/** The replica set port manager: which port every process gets next, and which ports the service exposes. */
module PortManager {
  import opened AgentReadiness
  import opened Config
  import opened Wrappers

  datatype ServicePort = ServicePort(port: int, name: string)

  function PodNames(pods: seq<PodState>): set<string> {
    set i | 0 <= i < |pods| :: pods[i].name
  }

  /** The port a process has now; one that is new, or has no port yet, gets the expected one. */
  function CurrentPort(processes: seq<Process>, expected: int, name: string): int {
    match IndexByName(processes, name)
    case None => expected
    case Some(i) =>
      IndexByNameFirst(processes, name);
      if processes[i].GetPort() == 0 then expected else processes[i].GetPort()
  }

  function CurrentPorts(processes: seq<Process>, expected: int, pods: seq<PodState>): map<string, int> {
    map name | name in PodNames(pods) :: CurrentPort(processes, expected, name)
  }

  predicate IsPending(processes: seq<Process>, expected: int, pods: seq<PodState>, i: nat)
    requires i < |pods|
  {
    CurrentPort(processes, expected, pods[i].name) != expected
  }

  predicate ChangeRequired(processes: seq<Process>, expected: int, pods: seq<PodState>) {
    exists i :: 0 <= i < |pods| && IsPending(processes, expected, pods, i)
  }

  predicate AllAtGoal(pods: seq<PodState>) {
    forall i :: 0 <= i < |pods| ==> pods[i].reachedGoalState
  }

  /** The first pod from index i on whose process is not at the expected port, or the number of pods. */
  function FirstPending(processes: seq<Process>, expected: int, pods: seq<PodState>, i: nat): (j: nat)
    requires i <= |pods|
    ensures i <= j <= |pods|
    ensures forall k :: i <= k < j ==> !IsPending(processes, expected, pods, k)
    ensures j < |pods| ==> IsPending(processes, expected, pods, j)
    decreases |pods| - i
  {
    if i == |pods| || IsPending(processes, expected, pods, i) then i else FirstPending(processes, expected, pods, i + 1)
  }

  /** The ports to publish: the current ones, and when every agent is at goal one pending process moves. */
  function ExpectedPorts(processes: seq<Process>, expected: int, pods: seq<PodState>): map<string, int> {
    var current := CurrentPorts(processes, expected, pods);
    var first := FirstPending(processes, expected, pods, 0);
    if first == |pods| || !AllAtGoal(pods) then current else current[pods[first].name := expected]
  }

  /**
   * The service shows the expected port, and while a change is pending also one of the unexpected ports.  Go visits the
   * port map in no fixed order, so it may be any of them.
   */
  predicate ValidServicePorts(r: seq<ServicePort>, processes: seq<Process>, expected: int, pods: seq<PodState>) {
    if ChangeRequired(processes, expected, pods) then
      && |r| == 2 && r[0] == ServicePort(expected, "mongodb-new") && r[1].name == "mongodb"
      && r[1].port != expected && r[1].port in CurrentPorts(processes, expected, pods).Values
    else r == [ServicePort(expected, "mongodb")]
  }

  class ReplicaSetPortManager {
    const expectedPort: int
    const podStates: seq<PodState>
    const processes: seq<Process>

    constructor (expectedPort: int, podStates: seq<PodState>, processes: seq<Process>)
      ensures this.expectedPort == expectedPort && this.podStates == podStates && this.processes == processes
    {
      this.expectedPort := expectedPort;
      this.podStates := podStates;
      this.processes := processes;
    }

    method GetProcessByName(name: string) returns (p: Option<Process>)
      ensures p == match IndexByName(processes, name)
                   case None => None
                   case Some(i) => (IndexByNameFirst(processes, name); Some(processes[i]))
    {
      IndexByNameFirst(processes, name);
      for i := 0 to |processes|
        invariant forall k :: 0 <= k < i ==> processes[k].name != name
      {
        if processes[i].name == name {
          return Some(processes[i]);
        }
      }
      return None;
    }

    /** First step: the current ports, with entries for pods that do not exist yet. */
    method PopulatePorts() returns (ports: map<string, int>)
      ensures ports == CurrentPorts(processes, expectedPort, podStates)
    {
      ports := map[];
      for i := 0 to |podStates|
        invariant ports == CurrentPorts(processes, expectedPort, podStates[..i])
      {
        var process := GetProcessByName(podStates[i].name);
        if process.None? || process.value.GetPort() == 0 {
          ports := ports[podStates[i].name := expectedPort];
        } else {
          ports := ports[podStates[i].name := process.value.GetPort()];
        }
        assert PodNames(podStates[..i + 1]) == PodNames(podStates[..i]) + {podStates[i].name};
      }
      assert podStates[..|podStates|] == podStates;
    }

    /** Second step: an unexpected port, if there is one.  Go visits the port map in no fixed order. */
    method FindUnexpectedPort(ports: map<string, int>) returns (found: bool, oldPort: int)
      ensures found <==> exists n :: n in ports && ports[n] != expectedPort
      ensures if found then oldPort != expectedPort && exists n :: n in ports && ports[n] == oldPort
              else oldPort == expectedPort
    {
      var unvisited := ports.Keys;
      while unvisited != {}
        invariant unvisited <= ports.Keys
        invariant forall n :: n in ports.Keys - unvisited ==> ports[n] == expectedPort
      {
        var name :| name in unvisited;
        if ports[name] != expectedPort {
          return true, ports[name];
        }
        unvisited := unvisited - {name};
      }
      assert forall n :: n in ports ==> n in ports.Keys - unvisited;
      return false, expectedPort;
    }

    /** Third step: the first pending process moves, and only when every agent is at goal. */
    method MoveOnePort(current: map<string, int>) returns (ports: map<string, int>)
      requires current == CurrentPorts(processes, expectedPort, podStates)
      ensures ports == ExpectedPorts(processes, expectedPort, podStates)
    {
      ports := current;
      for i := 0 to |podStates|
        invariant AllAtGoal(podStates[..i])
      {
        if !podStates[i].reachedGoalState {
          return;
        }
      }
      assert AllAtGoal(podStates);
      for i := 0 to |podStates|
        invariant FirstPending(processes, expectedPort, podStates, 0) == FirstPending(processes, expectedPort, podStates, i)
      {
        assert podStates[i].name in PodNames(podStates);
        if ports[podStates[i].name] != expectedPort {
          return ports[podStates[i].name := expectedPort];
        }
      }
    }

    /** Besides the ports: whether a change is pending, and a port that some pending process still has. */
    method CalculateExpectedPorts() returns (ports: map<string, int>, changeRequired: bool, oldPort: int)
      ensures ports == ExpectedPorts(processes, expectedPort, podStates)
      ensures changeRequired <==> ChangeRequired(processes, expectedPort, podStates)
      ensures !changeRequired ==> oldPort == expectedPort
      ensures changeRequired ==>
                oldPort != expectedPort && oldPort in CurrentPorts(processes, expectedPort, podStates).Values
    {
      ports := PopulatePorts();
      changeRequired, oldPort := FindUnexpectedPort(ports);
      assert forall n :: n in PodNames(podStates) ==> n in ports && ports[n] == CurrentPort(processes, expectedPort, n);
      ChangeRequiredByName(processes, expectedPort, podStates);
      if !changeRequired {
        return;
      }
      ports := MoveOnePort(ports);
    }

    /** One port named "mongodb", or during a change the new one and an old one. */
    method GetServicePorts() returns (r: seq<ServicePort>)
      ensures ValidServicePorts(r, processes, expectedPort, podStates)
    {
      var _, changeRequired, oldPort := CalculateExpectedPorts();
      if !changeRequired || oldPort == expectedPort {
        return [ServicePort(expectedPort, "mongodb")];
      }
      return [ServicePort(expectedPort, "mongodb-new"), ServicePort(oldPort, "mongodb")];
    }
  }

  lemma ChangeRequiredByName(processes: seq<Process>, expected: int, pods: seq<PodState>)
    ensures ChangeRequired(processes, expected, pods)
       <==> exists n :: n in PodNames(pods) && CurrentPort(processes, expected, n) != expected
  {
    if ChangeRequired(processes, expected, pods) {
      var i :| 0 <= i < |pods| && IsPending(processes, expected, pods, i);
      assert pods[i].name in PodNames(pods);
    }
    if n :| n in PodNames(pods) && CurrentPort(processes, expected, n) != expected {
      var i :| 0 <= i < |pods| && pods[i].name == n;
      assert IsPending(processes, expected, pods, i);
    }
  }
}
