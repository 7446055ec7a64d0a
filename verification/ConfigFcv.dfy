/** The feature compatibility version (FCV) over runs of build, merge and store. */
module ConfigFcv {
  import opened Config
  import opened ConfigBuilder
  import opened ConfigBuilderProperties
  import opened ConfigStore
  import opened ConfigStoreProperties
  import opened Versions
  import opened Wrappers

  /** From 3.4.0 on, pre-releases of later versions included. */
  predicate IsSupported(version: string) {
    && Make(version).Some?
    && (Later(Make(version).value, Semver(3, 4, 0, [])) || Make(version).value == Semver(3, 4, 0, []))
  }

  /** A version has a series to publish exactly when it is supported: earlier and malformed ones have none. */
  lemma SupportedExactly(version: string)
    ensures CalculateFeatureCompatibilityVersion(version) != "" <==> IsSupported(version)
    ensures IsSupported(version) ==> CalculateFeatureCompatibilityVersion(version)
                                     == FormatFcv(Make(version).value.major, Make(version).value.minor)
  {
  }

  // ---------------------------------------------------------------- one version change

  /** The upgrade check holds the published series back exactly when the version is later than its first release. */
  lemma UpgradeHoldsSeries(previous: AutomationConfig, version: string, major: nat, minor: nat)
    requires |previous.processes| > 0 && previous.processes[0].fcv == FormatFcv(major, minor)
    requires major < UINT64_LIMIT && minor < UINT64_LIMIT && Make(version).Some?
    ensures FcvForUpgrade(previous, "", version) ==
            Ok(if Later(Make(version).value, Semver(major, minor, 0, [])) then FormatFcv(major, minor) else "")
  {
    FcvRoundTrip(major, minor);
  }

  lemma SeriesIsParseable(major: nat, minor: nat)
    requires major < UINT64_LIMIT && minor < UINT64_LIMIT
    ensures FormatFcv(major, minor) != "" && Make(FormatFcv(major, minor) + ".0").Some?
  {
    FcvRoundTrip(major, minor);
  }

  lemma EffectiveOfHeld(previous: AutomationConfig, version: string, held: string)
    requires FcvForUpgrade(previous, "", version) == Ok(held) && (held != "" ==> Make(held + ".0").Some?)
    ensures EffectiveFcv(previous, "", version) == Ok(if held != "" then held else CalculateFeatureCompatibilityVersion(version))
  {
  }

  lemma LaterVersionKeepsSeries(previous: AutomationConfig, version: string, major: nat, minor: nat)
    requires |previous.processes| > 0 && previous.processes[0].fcv == FormatFcv(major, minor)
    requires major < UINT64_LIMIT && minor < UINT64_LIMIT && Make(version).Some?
    requires Later(Make(version).value, Semver(major, minor, 0, []))
    ensures EffectiveFcv(previous, "", version) == Ok(FormatFcv(major, minor))
  {
    UpgradeHoldsSeries(previous, version, major, minor);
    SeriesIsParseable(major, minor);
    EffectiveOfHeld(previous, version, FormatFcv(major, minor));
  }

  lemma EarlierVersionTakesOwnSeries(previous: AutomationConfig, version: string, major: nat, minor: nat)
    requires |previous.processes| > 0 && previous.processes[0].fcv == FormatFcv(major, minor)
    requires major < UINT64_LIMIT && minor < UINT64_LIMIT && IsSupported(version)
    requires !Later(Make(version).value, Semver(major, minor, 0, []))
    ensures EffectiveFcv(previous, "", version) == Ok(FormatFcv(Make(version).value.major, Make(version).value.minor))
  {
    UpgradeHoldsSeries(previous, version, major, minor);
    EffectiveOfHeld(previous, version, "");
    SupportedExactly(version);
  }

  /** The lesser of two series, of which one was released later than the other's first release. */
  function LesserFcv(v: Semver, major: nat, minor: nat): string {
    if SeriesBelow(v.major, v.minor, Semver(major, minor, 0, [])) then FormatFcv(v.major, v.minor) else FormatFcv(major, minor)
  }

  lemma LesserBySeries(v: Semver, major: nat, minor: nat)
    ensures LesserFcv(v, major, minor)
            == if Later(v, Semver(major, minor, 0, [])) then FormatFcv(major, minor) else FormatFcv(v.major, v.minor)
  {
  }

  /** One upgrade, downgrade or patch: the FCV becomes the lesser of the published and the new series. */
  lemma FcvTakesTheLesser(previous: AutomationConfig, version: string, major: nat, minor: nat)
    requires |previous.processes| > 0 && previous.processes[0].fcv == FormatFcv(major, minor)
    requires major < UINT64_LIMIT && minor < UINT64_LIMIT && IsSupported(version)
    ensures EffectiveFcv(previous, "", version) == Ok(LesserFcv(Make(version).value, major, minor))
  {
    LesserBySeries(Make(version).value, major, minor);
    if Later(Make(version).value, Semver(major, minor, 0, [])) {
      LaterVersionKeepsSeries(previous, version, major, minor);
    } else {
      EarlierVersionTakesOwnSeries(previous, version, major, minor);
    }
  }

  // ---------------------------------------------------------------- runs without an FCV in the spec

  /** (major, minor) is the least series of the versions. */
  predicate LeastSeries(versions: seq<Semver>, major: nat, minor: nat) {
    && (forall k :: 0 <= k < |versions| ==>
          !SeriesBelow(versions[k].major, versions[k].minor, Semver(major, minor, 0, [])))
    && (exists k :: 0 <= k < |versions| && versions[k].major == major && versions[k].minor == minor)
  }

  lemma LeastSeriesExtends(versions: seq<Semver>, v: Semver, major: nat, minor: nat)
    requires versions == [] || LeastSeries(versions, major, minor)
    ensures if versions == [] || SeriesBelow(v.major, v.minor, Semver(major, minor, 0, []))
            then LeastSeries(versions + [v], v.major, v.minor) else LeastSeries(versions + [v], major, minor)
  {
    var all := versions + [v];
    assert all[|versions|] == v;
    assert forall k :: 0 <= k < |versions| ==> all[k] == versions[k];
    if versions != [] && !SeriesBelow(v.major, v.minor, Semver(major, minor, 0, [])) {
      var k :| 0 <= k < |versions| && versions[k].major == major && versions[k].minor == minor;
      assert all[k].major == major && all[k].minor == minor;
    }
  }

  /** A pass that leaves the FCV to the operator and builds at least one process; its API calls may fail. */
  predicate PlainPass(p: Pass) {
    p.fcv == "" && p.settings.members > 0 && IsSupported(p.settings.mongodbVersion)
  }

  predicate AllPlain(passes: seq<Pass>) {
    passes == [] || (AllPlain(passes[..|passes| - 1]) && PlainPass(passes[|passes| - 1]))
  }

  function VersionOfPass(p: Pass): Semver
    requires PlainPass(p)
  {
    Make(p.settings.mongodbVersion).value
  }

  /** The versions of the passes that succeeded. */
  function PublishedVersions(passes: seq<Pass>): seq<Semver>
    requires AllPlain(passes)
  {
    if passes == [] then [] else
    var front, last := passes[..|passes| - 1], passes[|passes| - 1];
    if Publish(AfterPasses(front), last).result.Ok? then PublishedVersions(front) + [VersionOfPass(last)]
    else PublishedVersions(front)
  }

  /** The published FCV is `f` in every process, and there is a process. */
  predicate PublishesFcv(secret: AcSecret, f: string) {
    secret.Stored? && |secret.ac.processes| > 0 && forall i :: 0 <= i < |secret.ac.processes| ==>
                                                     secret.ac.processes[i].fcv == f
  }

  /** A pass that succeeds publishes the FCV it decided on. */
  lemma PassPublishesFcv(secret: AcSecret, p: Pass, f: string)
    requires p.settings.members > 0 && Publish(secret, p).result.Ok?
    requires EffectiveFcv(if secret.Stored? then secret.ac else EMPTY_CONFIG, p.fcv, p.settings.mongodbVersion) == Ok(f)
    ensures PublishesFcv(Publish(secret, p).secret, f)
  {
    var current := if secret.Stored? then secret.ac else EMPTY_CONFIG;
    var built := BuildSpec(p.settings, p.modifications, p.fcv, [], current).value;
    BuiltSkeleton(p.settings, p.modifications, p.fcv, [], current);
    MergeKeeps(built, p.overrides);
    assert |built.processes| == |ProcessNames(built.processes)| > 0;
    StoredFcv(secret, Merge(built, p.overrides), p.faults, f);
  }

  /** What is stored in the end has the processes of the merged config. */
  lemma StoredFcv(secret: AcSecret, merged: AutomationConfig, faults: StoreFaults, f: string)
    requires EnsureSpec(secret, merged, faults).result.Ok? && PublishesFcv(Stored(merged), f)
    ensures PublishesFcv(EnsureSpec(secret, merged, faults).secret, f)
  {
    if secret.Stored? && AreEqual(merged, secret.ac) {
      assert merged.processes == secret.ac.processes;
    }
  }

  /** The store after passes over these versions publishes their least series. */
  predicate PublishesLeast(secret: AcSecret, versions: seq<Semver>, major: nat, minor: nat) {
    && LeastSeries(versions, major, minor) && PublishesFcv(secret, FormatFcv(major, minor))
    && major < UINT64_LIMIT && minor < UINT64_LIMIT
  }

  /** Nothing was published over no versions, and otherwise their least series. */
  ghost predicate LeastPublished(secret: AcSecret, versions: seq<Semver>) {
    if versions == [] then secret == Missing else exists major, minor :: PublishesLeast(secret, versions, major, minor)
  }

  lemma FirstPassPublishesSeries(secret: AcSecret, p: Pass, versions: seq<Semver>)
    requires PlainPass(p) && secret == Missing && versions == [] && Publish(secret, p).result.Ok?
    ensures var v := VersionOfPass(p); PublishesLeast(Publish(secret, p).secret, versions + [v], v.major, v.minor)
  {
    var version, v := p.settings.mongodbVersion, VersionOfPass(p);
    ParsedNumbersAreBounded(version);
    LeastSeriesExtends(versions, v, v.major, v.minor);
    SupportedExactly(version);
    FirstFcv("", version);
    PassPublishesFcv(secret, p, FormatFcv(v.major, v.minor));
  }

  lemma LaterPassKeepsLeast(secret: AcSecret, p: Pass, versions: seq<Semver>, major: nat, minor: nat)
    requires PlainPass(p) && versions != [] && PublishesLeast(secret, versions, major, minor)
             && Publish(secret, p).result.Ok?
    ensures var v := VersionOfPass(p);
            var falls := SeriesBelow(v.major, v.minor, Semver(major, minor, 0, []));
            PublishesLeast(Publish(secret, p).secret, versions + [v],
                           if falls then v.major else major, if falls then v.minor else minor)
  {
    var version, v := p.settings.mongodbVersion, VersionOfPass(p);
    ParsedNumbersAreBounded(version);
    LeastSeriesExtends(versions, v, major, minor);
    FcvTakesTheLesser(secret.ac, version, major, minor);
    PassPublishesFcv(secret, p, LesserFcv(v, major, minor));
  }

  /** A pass that succeeds extends the versions by its own, one that fails leaves the store alone. */
  lemma PassKeepsLeast(secret: AcSecret, p: Pass, versions: seq<Semver>)
    requires PlainPass(p) && LeastPublished(secret, versions)
    ensures var e := Publish(secret, p);
            LeastPublished(e.secret, if e.result.Ok? then versions + [VersionOfPass(p)] else versions)
  {
    PublishedTopology(secret, p);
    if Publish(secret, p).result.Ok? {
      if versions == [] {
        FirstPassPublishesSeries(secret, p, versions);
      } else {
        var major, minor :| PublishesLeast(secret, versions, major, minor);
        LaterPassKeepsLeast(secret, p, versions, major, minor);
      }
    }
  }

  /**
   * Over every run of passes with supported versions, any of which may fail: the FCV published in every process is the
   * least series of all versions published so far.  Upgrades never raise it.
   */
  lemma {:induction false} FcvIsLeastSeries(passes: seq<Pass>)
    requires AllPlain(passes)
    ensures LeastPublished(AfterPasses(passes), PublishedVersions(passes))
  {
    if passes != [] {
      var front, last := passes[..|passes| - 1], passes[|passes| - 1];
      FcvIsLeastSeries(front);
      PassKeepsLeast(AfterPasses(front), last, PublishedVersions(front));
    }
  }

  // ---------------------------------------------------------------- builds that publish no FCV

  /** On top of this config the upgrade check passes and holds nothing back. */
  predicate NothingHeldBack(previous: AutomationConfig, version: string) {
    |previous.processes| == 0
    || (var p, v := Make(previous.processes[0].fcv + ".0"), Make(version);
        p.Some? && v.Some? && !Later(v.value, p.value))
  }

  /** No FCV in the spec, none held back, and a version that has none of its own. */
  predicate PublishesNoFcv(previous: AutomationConfig, fcv: string, version: string) {
    fcv == "" && !IsSupported(version) && NothingHeldBack(previous, version)
  }

  lemma FirstFcv(fcv: string, version: string)
    ensures EffectiveFcv(EMPTY_CONFIG, fcv, version)
            == if fcv == "" then Ok(CalculateFeatureCompatibilityVersion(version))
               else if Make(fcv + ".0").Some? then Ok(fcv) else Err(InvalidFcv(fcv))
  {
  }

  /** A build succeeds without an FCV exactly in this case. */
  lemma NoFcvExactly(previous: AutomationConfig, fcv: string, version: string)
    ensures EffectiveFcv(previous, fcv, version) == Ok("") <==> PublishesNoFcv(previous, fcv, version)
  {
    SupportedExactly(version);
    assert Make("" + ".0").None?;
  }

  /** On top of a config without an FCV a build succeeds exactly when the spec has a valid one, whatever the version. */
  lemma BuildsOnNoFcvExactly(next: AutomationConfig, fcv: string, version: string)
    requires |next.processes| > 0 && next.processes[0].fcv == ""
    ensures EffectiveFcv(next, fcv, version).Ok? <==> fcv != "" && Make(fcv + ".0").Some?
  {
    assert Make("" + ".0").None?;
  }

  lemma NoFcvPassFails(secret: AcSecret, p: Pass)
    requires PublishesFcv(secret, "") && p.fcv == ""
    ensures Publish(secret, p).result.Err? && Publish(secret, p).secret == secret
  {
    BuildsOnNoFcvExactly(secret.ac, "", p.settings.mongodbVersion);
  }

  /** Once a config without an FCV is published, nothing is published any more while the spec has no FCV. */
  lemma {:induction false} NoFcvIsFinal(passes: seq<Pass>, k: nat)
    requires k <= |passes| && PublishesFcv(AfterPasses(passes[..k]), "")
    requires forall i :: k <= i < |passes| ==> passes[i].fcv == ""
    ensures AfterPasses(passes) == AfterPasses(passes[..k])
  {
    if k == |passes| {
      assert passes[..k] == passes;
    } else {
      var front := passes[..|passes| - 1];
      assert front[..k] == passes[..k];
      NoFcvIsFinal(front, k);
      NoFcvPassFails(AfterPasses(front), passes[|passes| - 1]);
    }
  }

  // ---------------------------------------------------------------- the FCV of a build is a fixpoint of the next one

  /** A version whose own series is the FCV decides on it again. */
  lemma OwnSeriesIsKept(next: AutomationConfig, version: string)
    requires |next.processes| > 0 && next.processes[0].fcv == CalculateFeatureCompatibilityVersion(version) != ""
    ensures EffectiveFcv(next, "", version) == Ok(CalculateFeatureCompatibilityVersion(version))
  {
    var v := Make(version).value;
    ParsedNumbersAreBounded(version);
    FcvRoundTrip(v.major, v.minor);
  }

  /** An FCV that was held back is held back again. */
  lemma HeldFcvIsKept(previous: AutomationConfig, version: string, next: AutomationConfig)
    requires FcvForUpgrade(previous, "", version).Ok? && FcvForUpgrade(previous, "", version).value != ""
    requires |next.processes| > 0 && next.processes[0].fcv == FcvForUpgrade(previous, "", version).value
    ensures FcvForUpgrade(next, "", version) == FcvForUpgrade(previous, "", version)
  {
  }

  /**
   * Building the same version again on top of a config with the FCV of the last build decides on that FCV again, exactly
   * unless the last build published none.
   */
  lemma FcvFixpoint(previous: AutomationConfig, fcv: string, version: string, next: AutomationConfig)
    requires EffectiveFcv(previous, fcv, version).Ok?
    requires |next.processes| > 0 && next.processes[0].fcv == EffectiveFcv(previous, fcv, version).value
    ensures EffectiveFcv(next, fcv, version) == EffectiveFcv(previous, fcv, version)
       <==> !PublishesNoFcv(previous, fcv, version)
  {
    NoFcvExactly(previous, fcv, version);
    if fcv == "" {
      if next.processes[0].fcv == "" {
        BuildsOnNoFcvExactly(next, fcv, version);
      } else if FcvForUpgrade(previous, fcv, version).value != "" {
        HeldFcvIsKept(previous, version, next);
      } else {
        OwnSeriesIsKept(next, version);
      }
    }
  }
}
