/** Runs of build, merge and store: overrides and versions. */
module ConfigStoreProperties {
  import opened ConfigBuilder
  import opened ConfigBuilderProperties
  import opened Config
  import opened ConfigStore
  import opened Wrappers

  // ---------------------------------------------------------------- overrides

  lemma {:induction false} IndexDependsOnNames(ps: seq<Process>, qs: seq<Process>, name: string)
    requires ProcessNames(ps) == ProcessNames(qs)
    ensures IndexByName(ps, name) == IndexByName(qs, name)
  {
    assert |ps| == |ProcessNames(ps)| == |ProcessNames(qs)| == |qs|;
    if ps != [] {
      assert ps[0].name == ProcessNames(ps)[0] == qs[0].name;
      assert ProcessNames(ps[1..]) == ProcessNames(ps)[1..] == ProcessNames(qs[1..]);
      IndexDependsOnNames(ps[1..], qs[1..], name);
    }
  }

  /** An override changes neither names nor ports nor the FCV of any process, nor anything outside the processes. */
  lemma MergeKeeps(ac: AutomationConfig, o: seq<ProcessOverride>)
    ensures var r := Merge(ac, o);
            && r.(processes := ac.processes) == ac && |r.processes| == |ac.processes|
            && ProcessNames(r.processes) == ProcessNames(ac.processes) && Ports(r) == Ports(ac)
            && forall i :: 0 <= i < |ac.processes| ==>
                 r.processes[i].fcv == ac.processes[i].fcv && r.processes[i].args == ac.processes[i].args
  {
  }

  /** Merging an override twice is merging it once. */
  lemma MergeIdempotent(ac: AutomationConfig, o: seq<ProcessOverride>)
    ensures Merge(Merge(ac, o), o) == Merge(ac, o)
  {
    var once := Merge(ac, o);
    forall i | 0 <= i < |ac.processes|
      ensures MergedProcess(once.processes, o, i) == once.processes[i]
    {
      MergeKeeps(ac, o);
      IndexDependsOnNames(once.processes, ac.processes, ac.processes[i].name);
    }
  }

  /** A successful pass leaves a config of the topology it was asked for, a failed one leaves the secret alone. */
  lemma PublishedTopology(secret: AcSecret, p: Pass)
    ensures var e := Publish(secret, p);
            && (e.result.Err? ==> e.secret == secret)
            && (e.result.Ok? ==> e.secret == Stored(e.result.value)
                                 && HasTopology(e.result.value, p.settings.name, p.settings.members, p.settings.arbiters))
  {
    var e := Publish(secret, p);
    if e.result.Ok? {
      var current := ReadSpec(secret, p.faults.read).value;
      BuiltSkeleton(p.settings, p.modifications, p.fcv, [], current);
      var desired := Merge(BuildSpec(p.settings, p.modifications, p.fcv, [], current).value, p.overrides);
      MergeKeeps(BuildSpec(p.settings, p.modifications, p.fcv, [], current).value, p.overrides);
      assert AreEqual(desired, e.result.value);
      assert e.result.value.processes == desired.processes;
    }
  }

  /** A pass over a stored config stores what it builds and merges. */
  lemma PublishStores(ac: AutomationConfig, p: Pass, built: AutomationConfig)
    requires !p.faults.read && BuildSpec(p.settings, p.modifications, p.fcv, [], ac) == Ok(built)
    ensures Publish(Stored(ac), p) == EnsureSpec(Stored(ac), Merge(built, p.overrides), p.faults)
  {
  }

  lemma PublishSucceedsWhenBuilt(ac: AutomationConfig, p: Pass)
    requires Publish(Stored(ac), p).result.Ok?
    ensures !p.faults.read && BuildSpec(p.settings, p.modifications, p.fcv, [], ac).Ok?
  {
  }

  /** What is stored in the end has the ports of the merged config. */
  lemma StoredPorts(ac: AutomationConfig, merged: AutomationConfig, faults: StoreFaults)
    requires EnsureSpec(Stored(ac), merged, faults).result.Ok?
    ensures var after := EnsureSpec(Stored(ac), merged, faults).secret;
            after.Stored? && Ports(after.ac) == Ports(merged) && (after.ac == ac || after.ac == merged)
  {
    if AreEqual(merged, ac) {
      assert merged.processes == ac.processes;
    }
  }

  /** A successful pass over a stored config has the ports of the built one, and changes ports only under a new version. */
  lemma PublishedPorts(ac: AutomationConfig, p: Pass)
    requires Publish(Stored(ac), p).result.Ok?
    ensures BuildSpec(p.settings, p.modifications, p.fcv, [], ac).Ok? && Publish(Stored(ac), p).secret.Stored?
    ensures var built, after := BuildSpec(p.settings, p.modifications, p.fcv, [], ac).value, Publish(Stored(ac), p).secret.ac;
            && Ports(after) == Ports(built) && ac.version <= after.version <= ac.version + 1
            && (Ports(after) != Ports(ac) ==> after.version == ac.version + 1)
  {
    PublishSucceedsWhenBuilt(ac, p);
    var built := BuildSpec(p.settings, p.modifications, p.fcv, [], ac).value;
    PublishStores(ac, p, built);
    StoredPorts(ac, Merge(built, p.overrides), p.faults);
    BuiltSkeleton(p.settings, p.modifications, p.fcv, [], ac);
    MergeKeeps(built, p.overrides);
    if AreEqual(ac, built) {
      assert ac.processes == built.processes;
      assert Ports(built) == Ports(ac);
    }
  }

  // ---------------------------------------------------------------- versions over a run

  /** The version a reader of the secret sees. */
  function VersionOf(secret: AcSecret): int {
    if secret.Stored? then secret.ac.version else 0
  }

  /** The secret holds nothing, or a config that the override `o` would not change. */
  predicate Settled(secret: AcSecret, o: seq<ProcessOverride>) {
    secret.Missing? || (secret.Stored? && Merge(secret.ac, o) == secret.ac)
  }

  /** A pass with the run's override: no write, or new contents under the next version. */
  lemma PassBumpsVersion(secret: AcSecret, p: Pass)
    requires Settled(secret, p.overrides)
    ensures var e := Publish(secret, p);
            && Settled(e.secret, p.overrides)
            && (e.written ==> e.secret.Stored? && e.secret.ac.version == VersionOf(secret) + 1)
            && (e.written && secret.Stored? ==> !AreEqual(secret.ac, e.secret.ac))
            && (!e.written ==> e.secret == secret)
  {
    var read := ReadSpec(secret, p.faults.read);
    if read.Ok? {
      var built := BuildSpec(p.settings, p.modifications, p.fcv, [], read.value);
      if built.Ok? {
        MergeIdempotent(built.value, p.overrides);
        BuiltSkeleton(p.settings, p.modifications, p.fcv, [], read.value);
      }
    }
  }

  lemma {:induction false} RunStaysSettled(passes: seq<Pass>, o: seq<ProcessOverride>)
    requires forall k :: 0 <= k < |passes| ==> passes[k].overrides == o
    ensures Settled(AfterPasses(passes), o)
  {
    if passes != [] {
      RunStaysSettled(passes[..|passes| - 1], o);
      PassBumpsVersion(AfterPasses(passes[..|passes| - 1]), passes[|passes| - 1]);
    }
  }

  /** The number of passes that wrote the secret. */
  function Writes(passes: seq<Pass>): nat {
    if passes == [] then 0 else
    var before := passes[..|passes| - 1];
    Writes(before) + if Publish(AfterPasses(before), passes[|passes| - 1]).written then 1 else 0
  }

  /**
   * Over every run with a fixed override, with any settings, FCV and API failures in each pass: the stored version
   * is the number of writes so far.
   */
  lemma {:induction false} VersionCountsWrites(passes: seq<Pass>, o: seq<ProcessOverride>)
    requires forall k :: 0 <= k < |passes| ==> passes[k].overrides == o
    ensures VersionOf(AfterPasses(passes)) == Writes(passes)
  {
    if passes != [] {
      var front := passes[..|passes| - 1];
      VersionCountsWrites(front, o);
      RunStaysSettled(front, o);
      PassBumpsVersion(AfterPasses(front), passes[|passes| - 1]);
    }
  }

  /** In such a run the k-th pass writes exactly when it changes what is stored. */
  lemma WritesExactlyOnChange(passes: seq<Pass>, o: seq<ProcessOverride>, k: nat)
    requires k < |passes| && forall k :: 0 <= k < |passes| ==> passes[k].overrides == o
    ensures var before, after := AfterPasses(passes[..k]), AfterPasses(passes[..k + 1]);
            if Publish(before, passes[k]).written
            then after.Stored? && (before.Missing? || (before.Stored? && !AreEqual(before.ac, after.ac)))
            else after == before
  {
    RunStaysSettled(passes[..k], o);
    PassBumpsVersion(AfterPasses(passes[..k]), passes[k]);
    assert passes[..k + 1][..k] == passes[..k];
  }

  /**
   * With overrides edited between passes the version can stand still while the stored contents change.  For any
   * stored config this happens exactly when the freshly built config still equals the stored one and the override
   * changes it.
   */
  lemma SilentChangeExactly(secret: AcSecret, p: Pass)
    requires secret.Stored? && !p.faults.read && !p.faults.write
    requires BuildSpec(p.settings, p.modifications, p.fcv, [], secret.ac).Ok?
    ensures var built := BuildSpec(p.settings, p.modifications, p.fcv, [], secret.ac).value;
            var e := Publish(secret, p);
            (e.written && e.secret.ac.version == secret.ac.version)
            <==> (AreEqual(secret.ac, built) && Merge(secret.ac, p.overrides) != secret.ac)
  {
    BuiltSkeleton(p.settings, p.modifications, p.fcv, [], secret.ac);
    MergeKeeps(BuildSpec(p.settings, p.modifications, p.fcv, [], secret.ac).value, p.overrides);
  }
}
