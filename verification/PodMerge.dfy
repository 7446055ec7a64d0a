/** The list merges behind pod templates, as instances of the merge by name, and the merge of string lists. */
module PodMerge {
  import opened NamedMerge
  import opened Wrappers

  // ---------------------------------------------------------------- environment variables

  /** `valueFrom` stands for the reference that an environment variable may have instead of a value. */
  datatype EnvVar = EnvVar(name: string, value: string, valueFrom: Option<string>)

  function EnvName(e: EnvVar): string { e.name }

  /** Of the override the reference wins over the value, and setting either clears the other. */
  function MergeSingleEnv(original: EnvVar, override: EnvVar): EnvVar {
    var merged := if override.value != "" then original.(value := override.value, valueFrom := None) else original;
    if override.valueFrom.Some? then merged.(valueFrom := override.valueFrom, value := "") else merged
  }

  method Envs(original: seq<EnvVar>, override: seq<EnvVar>) returns (r: seq<EnvVar>)
    ensures IsMerge(r, original, override, EnvName, MergeSingleEnv)
  {
    r := MergeThroughMap(original, override, EnvName, MergeSingleEnv);
  }

  /** Sets both a value and a reference. */
  predicate IsAmbiguous(e: EnvVar) {
    e.value != "" && e.valueFrom.Some?
  }

  lemma EnvsAreAssociative(a: seq<EnvVar>, b: seq<EnvVar>, c: seq<EnvVar>, ab: seq<EnvVar>, bc: seq<EnvVar>,
                           left: seq<EnvVar>, right: seq<EnvVar>)
    requires IsMerge(ab, a, b, EnvName, MergeSingleEnv) && IsMerge(left, ab, c, EnvName, MergeSingleEnv)
    requires IsMerge(bc, b, c, EnvName, MergeSingleEnv) && IsMerge(right, a, bc, EnvName, MergeSingleEnv)
    ensures left == right
  {
    assert Associative(MergeSingleEnv);
    MergeIsAssociative(a, b, c, ab, bc, left, right, EnvName, MergeSingleEnv);
  }

  /** Merging the same override again changes nothing exactly when no variable that only the override has is ambiguous. */
  lemma EnvsAreIdempotentExactly(original: seq<EnvVar>, override: seq<EnvVar>, once: seq<EnvVar>, twice: seq<EnvVar>)
    requires IsMerge(once, original, override, EnvName, MergeSingleEnv)
             && IsMerge(twice, once, override, EnvName, MergeSingleEnv)
    ensures twice == once
       <==> forall k :: k in ByName(override, EnvName) && k !in ByName(original, EnvName) ==>
              !IsAmbiguous(ByName(override, EnvName)[k])
  {
    assert AbsorbsRepetition(MergeSingleEnv);
    MergeIsIdempotentExactly(original, override, once, twice, EnvName, MergeSingleEnv);
    assert forall e: EnvVar :: MergeSingleEnv(e, e) == e <==> !IsAmbiguous(e);
  }

  /** A variable that both lists have, and the override sets, has in the end what the override sets and nothing else. */
  lemma OverriddenEnvIsUnambiguous(original: seq<EnvVar>, override: seq<EnvVar>, r: seq<EnvVar>, i: nat)
    requires IsMerge(r, original, override, EnvName, MergeSingleEnv) && i < |r|
    requires r[i].name in ByName(original, EnvName) && r[i].name in ByName(override, EnvName)
    ensures var o := ByName(override, EnvName)[r[i].name];
            && (o.valueFrom.Some? ==> r[i].value == "" && r[i].valueFrom == o.valueFrom)
            && (o.valueFrom.None? && o.value != "" ==> r[i].value == o.value && r[i].valueFrom == None)
  {
    SortedByName(r, EnvName, i);
  }

  // ---------------------------------------------------------------- volume devices

  datatype VolumeDevice = VolumeDevice(name: string, devicePath: string)

  function DeviceName(d: VolumeDevice): string { d.name }

  function MergeVolumeDevice(original: VolumeDevice, override: VolumeDevice): VolumeDevice {
    VolumeDevice(if override.name != "" then override.name else original.name,
                 if override.devicePath != "" then override.devicePath else original.devicePath)
  }

  method VolumeDevices(original: seq<VolumeDevice>, override: seq<VolumeDevice>) returns (r: seq<VolumeDevice>)
    ensures IsMerge(r, original, override, DeviceName, MergeVolumeDevice)
  {
    r := MergeThroughMap(original, override, DeviceName, MergeVolumeDevice);
  }

  lemma VolumeDevicesAreAssociative(a: seq<VolumeDevice>, b: seq<VolumeDevice>, c: seq<VolumeDevice>,
                                    ab: seq<VolumeDevice>,
                                    bc: seq<VolumeDevice>, left: seq<VolumeDevice>, right: seq<VolumeDevice>)
    requires IsMerge(ab, a, b, DeviceName, MergeVolumeDevice) && IsMerge(left, ab, c, DeviceName, MergeVolumeDevice)
    requires IsMerge(bc, b, c, DeviceName, MergeVolumeDevice) && IsMerge(right, a, bc, DeviceName, MergeVolumeDevice)
    ensures left == right
  {
    assert Associative(MergeVolumeDevice);
    MergeIsAssociative(a, b, c, ab, bc, left, right, DeviceName, MergeVolumeDevice);
  }

  lemma VolumeDevicesAreIdempotent(original: seq<VolumeDevice>, override: seq<VolumeDevice>, once: seq<VolumeDevice>,
                                   twice: seq<VolumeDevice>)
    requires IsMerge(once, original, override, DeviceName, MergeVolumeDevice)
    requires IsMerge(twice, once, override, DeviceName, MergeVolumeDevice)
    ensures twice == once
  {
    assert AbsorbsRepetition(MergeVolumeDevice);
    MergeIsIdempotentExactly(original, override, once, twice, DeviceName, MergeVolumeDevice);
  }

  // ---------------------------------------------------------------- container ports

  datatype ContainerPort = ContainerPort(name: string, containerPort: int, hostPort: int, protocol: string, hostIP: string)

  function PortName(p: ContainerPort): string { p.name }

  function MergeContainerPort(original: ContainerPort, override: ContainerPort): ContainerPort {
    ContainerPort(if override.name != "" then override.name else original.name,
                  if override.containerPort != 0 then override.containerPort else original.containerPort,
                  if override.hostPort != 0 then override.hostPort else original.hostPort,
                  if override.protocol != "" then override.protocol else original.protocol,
                  if override.hostIP != "" then override.hostIP else original.hostIP)
  }

  method ContainerPortSlicesByName(defaultPorts: seq<ContainerPort>, overridePorts: seq<ContainerPort>)
    returns (r: seq<ContainerPort>)
    ensures IsMerge(r, defaultPorts, overridePorts, PortName, MergeContainerPort)
  {
    r := MergeByLookup(defaultPorts, overridePorts, PortName, MergeContainerPort);
  }

  lemma ContainerPortsAreAssociative(a: seq<ContainerPort>, b: seq<ContainerPort>, c: seq<ContainerPort>,
                                     ab: seq<ContainerPort>,
                                     bc: seq<ContainerPort>, left: seq<ContainerPort>, right: seq<ContainerPort>)
    requires IsMerge(ab, a, b, PortName, MergeContainerPort) && IsMerge(left, ab, c, PortName, MergeContainerPort)
    requires IsMerge(bc, b, c, PortName, MergeContainerPort) && IsMerge(right, a, bc, PortName, MergeContainerPort)
    ensures left == right
  {
    assert Associative(MergeContainerPort);
    MergeIsAssociative(a, b, c, ab, bc, left, right, PortName, MergeContainerPort);
  }

  lemma ContainerPortsAreIdempotent(original: seq<ContainerPort>, override: seq<ContainerPort>,
                                    once: seq<ContainerPort>, twice: seq<ContainerPort>)
    requires IsMerge(once, original, override, PortName, MergeContainerPort)
    requires IsMerge(twice, once, override, PortName, MergeContainerPort)
    ensures twice == once
  {
    assert AbsorbsRepetition(MergeContainerPort);
    MergeIsIdempotentExactly(original, override, once, twice, PortName, MergeContainerPort);
  }

  // ---------------------------------------------------------------- lists of strings

  /** The first list, and of the second list every string that is not there yet. */
  function Union(a: seq<string>, b: seq<string>): (r: seq<string>)
    ensures forall x :: x in r <==> x in a || x in b
  {
    if b == [] then a else
    var u, last := Union(a, b[..|b| - 1]), b[|b| - 1];
    assert b == b[..|b| - 1] + [last];
    if last in u then u else u + [last]
  }

  method StringSlices(slice1: seq<string>, slice2: seq<string>) returns (merged: seq<string>)
    ensures merged == Union(slice1, slice2)
  {
    merged := slice1;
    for i := 0 to |slice2|
      invariant merged == Union(slice1, slice2[..i])
    {
      assert slice2[..i + 1][..i] == slice2[..i];
      if slice2[i] !in merged {
        merged := merged + [slice2[i]];
      }
    }
    assert slice2[..|slice2|] == slice2;
  }

  /** The first list is kept as it is, and what is added is new: duplicates come from the first list only. */
  lemma {:induction false} UnionExtends(a: seq<string>, b: seq<string>)
    ensures |a| <= |Union(a, b)| && Union(a, b)[..|a|] == a
    ensures Distinct(Union(a, b)) <==> Distinct(a)
  {
    if b != [] {
      UnionExtends(a, b[..|b| - 1]);
      var u := Union(a, b[..|b| - 1]);
      assert forall i :: 0 <= i < |u| ==> u[i] in u;
    }
    assert forall i :: 0 <= i < |a| ==> Union(a, b)[..|a|][i] == Union(a, b)[i];
  }

  lemma {:induction false} UnionIsAssociative(a: seq<string>, b: seq<string>, c: seq<string>)
    ensures Union(Union(a, b), c) == Union(a, Union(b, c))
  {
    if c != [] {
      var front, last := c[..|c| - 1], c[|c| - 1];
      UnionIsAssociative(a, b, front);
      var u := Union(b, front);
      if last !in u {
        assert (u + [last])[..|u|] == u;
      }
    }
  }

  // ---------------------------------------------------------------- what a merged item holds

  /** A variable of both lists: what the override sets, and if it sets nothing the original. */
  lemma MergedEnvExactly(original: seq<EnvVar>, override: seq<EnvVar>, r: seq<EnvVar>, i: nat, a: nat, b: nat)
    requires IsMerge(r, original, override, EnvName, MergeSingleEnv) && i < |r|
    requires LastNamed(original, a, EnvName, r[i].name) && LastNamed(override, b, EnvName, r[i].name)
    ensures r[i] == if override[b].valueFrom.Some? then EnvVar(original[a].name, "", override[b].valueFrom)
                    else if override[b].value != "" then EnvVar(original[a].name, override[b].value, None) else original[a]
  {
    MergedItemExactly(r, original, override, EnvName, MergeSingleEnv, i);
  }

  /** A device of both lists has the path of the override, if that has one. */
  lemma MergedDeviceExactly(original: seq<VolumeDevice>, override: seq<VolumeDevice>, r: seq<VolumeDevice>, i: nat,
                            a: nat,
                            b: nat)
    requires IsMerge(r, original, override, DeviceName, MergeVolumeDevice) && i < |r|
    requires LastNamed(original, a, DeviceName, r[i].name) && LastNamed(override, b, DeviceName, r[i].name)
    ensures r[i].devicePath == if override[b].devicePath != "" then override[b].devicePath else original[a].devicePath
  {
    MergedItemExactly(r, original, override, DeviceName, MergeVolumeDevice, i);
  }

  /** Every field of a port of both lists is that of the override, if it is set there. */
  lemma MergedPortExactly(original: seq<ContainerPort>, override: seq<ContainerPort>, r: seq<ContainerPort>, i: nat,
                          a: nat,
                          b: nat)
    requires IsMerge(r, original, override, PortName, MergeContainerPort) && i < |r|
    requires LastNamed(original, a, PortName, r[i].name) && LastNamed(override, b, PortName, r[i].name)
    ensures var x, o, p := r[i], original[a], override[b];
            && x.containerPort == (if p.containerPort != 0 then p.containerPort else o.containerPort)
            && x.hostPort == (if p.hostPort != 0 then p.hostPort else o.hostPort)
            && x.protocol == (if p.protocol != "" then p.protocol else o.protocol)
            && x.hostIP == (if p.hostIP != "" then p.hostIP else o.hostIP)
  {
    MergedItemExactly(r, original, override, PortName, MergeContainerPort, i);
  }
}
