/**
 * The automation config builder.
 *
 * `Builder.Build` fills the process and member slices in loops, applies the registered modifications and decides
 * the version.  It is proved against `BuildSpec`; what the config promises is proved about `BuildSpec` below.
 */
module ConfigBuilder {
  import opened Config
  import opened Names
  import opened Versions
  import opened Wrappers

  const MAX_VOTING_MEMBERS := 7
  const ARBITERS_STARTING_INDEX := 100
  const AUTH_SECTION := "auth"
  const DISABLED_AUTH := "disabled"
  const ENTERPRISE_SUFFIX := "-ent"

  datatype MemberOptions = MemberOptions(votes: Option<int>, priority: real, tags: map<string, string>)

  /** The agent part of the resource: it is written into every process while the config is built. */
  datatype AgentConfiguration = AgentConfiguration(systemLog: map<string, Arg>, logRotate: Option<LogRotate>,
                                                   auditLogRotate: Option<LogRotate>)

  /** The modifications the operator registers. */
  datatype Modification =
    | Noop
    | MergeArgs(args: map<string, Arg>)
    | SetSection(key: string, value: string)
    | SetPorts(ports: map<string, int>)

  /** The builder fields that only the setters write. */
  datatype Settings = Settings(
    name: string, domain: string, arbiterDomain: string, members: nat, arbiters: nat,
    isEnterprise: bool, mongodbVersion: string, dataDir: string, port: int,
    memberOptions: seq<MemberOptions>, horizons: seq<map<string, string>>, replicaSetId: Option<string>,
    force: Option<int>, settings: Option<string>, agent: AgentConfiguration, sections: map<string, string>)

  datatype BuildError = InvalidPreviousFcv(fcv: string) | InvalidVersion(version: string) | InvalidFcv(fcv: string)

  // ---------------------------------------------------------------- feature compatibility version

  /** Holds the FCV back while the version moves ahead of it. */
  function FcvForUpgrade(previous: AutomationConfig, fcv: string, version: string): Result<string, BuildError> {
    if |previous.processes| == 0 || fcv != "" then Ok(fcv) else
    var previousFcv := previous.processes[0].fcv;
    match Make(previousFcv + ".0")
    case None => Err(InvalidPreviousFcv(previousFcv))
    case Some(p) =>
      match Make(version)
      case None => Err(InvalidVersion(version))
      case Some(v) => Ok(if Later(v, p) then previousFcv else fcv)
  }

  /** The FCV of the config to build. */
  function EffectiveFcv(previous: AutomationConfig, fcv: string, version: string): Result<string, BuildError> {
    match FcvForUpgrade(previous, fcv, version)
    case Err(e) => Err(e)
    case Ok(held) =>
      if held != "" && Make(held + ".0").None? then Err(InvalidFcv(held))
      else Ok(if held != "" then held else CalculateFeatureCompatibilityVersion(version))
  }

  // ---------------------------------------------------------------- processes and members

  predicate HasSuffix(s: string, suffix: string) {
    |suffix| <= |s| && s[|s| - |suffix|..] == suffix
  }

  function ImageVersion(s: Settings): string {
    if s.isEnterprise && !HasSuffix(s.mongodbVersion, ENTERPRISE_SUFFIX)
    then s.mongodbVersion + ENTERPRISE_SUFFIX else s.mongodbVersion
  }

  function ConfigureAgent(agent: AgentConfiguration, p: Process): Process {
    var q := p.(args := p.args + agent.systemLog);
    if agent.logRotate.None? then q
    else q.(logRotate := agent.logRotate,
            auditLogRotate := Some(if agent.auditLogRotate.Some? then agent.auditLogRotate.value else NO_LOG_ROTATE))
  }

  function Ordinal(s: Settings, i: nat): nat {
    if i >= s.members then i - s.members else i
  }

  function ProcessAt(s: Settings, fcv: string, i: nat): Process {
    var name := ProcessName(s.name, Ordinal(s, i), i >= s.members);
    var host := name + "." + (if i >= s.members then s.arbiterDomain else s.domain);
    var base := Process(name, false, host, map[], fcv, ImageVersion(s), None, None);
    var ported := if s.port != 0 then base.SetPort(s.port) else base;
    var dataDir := if s.dataDir != "" then s.dataDir else DEFAULT_DATA_DIR;
    var stored := ported.SetArg("storage.dbPath", Text(dataDir)).SetArg("replication.replSetName", Text(s.name));
    var configured := ConfigureAgent(s.agent, stored);
    if configured.GetPort() == 0 then configured.SetPort(DEFAULT_DB_PORT) else configured
  }

  function NewMember(name: string, id: int, horizons: map<string, string>, isArbiter: bool, isVoting: bool): Member {
    Member(id, name, isArbiter, horizons, Some(if isVoting then 1 else 0), if isVoting then 1.0 else 0.0, map[])
  }

  function MemberAt(s: Settings, i: nat): Member {
    var isArbiter := i >= s.members;
    var id := if isArbiter then ARBITERS_STARTING_INDEX + Ordinal(s, i) else i;
    var horizons := if i < |s.horizons| then s.horizons[i] else map[];
    var isVoting := isArbiter || i < MAX_VOTING_MEMBERS - s.arbiters;
    var m := NewMember(ProcessName(s.name, Ordinal(s, i), isArbiter), id, horizons, isArbiter, isVoting);
    if i < |s.memberOptions| then
      var o := s.memberOptions[i];
      m.(votes := o.votes, priority := o.priority, tags := o.tags)
    else m
  }

  function Processes(s: Settings, fcv: string): (ps: seq<Process>)
    ensures |ps| == s.members + s.arbiters
  {
    seq(s.members + s.arbiters, i requires 0 <= i < s.members + s.arbiters => ProcessAt(s, fcv, i))
  }

  function Members(s: Settings): (ms: seq<Member>)
    ensures |ms| == s.members + s.arbiters
  {
    seq(s.members + s.arbiters, i requires 0 <= i < s.members + s.arbiters => MemberAt(s, i))
  }

  /** Neither the agent configuration nor the default port touches name, host and FCV. */
  lemma ProcessAtName(s: Settings, fcv: string, i: nat)
    ensures ProcessAt(s, fcv, i).name == ProcessName(s.name, Ordinal(s, i), i >= s.members)
    ensures ProcessAt(s, fcv, i).fcv == fcv
  {
  }

  // ---------------------------------------------------------------- versions, modifications, version number

  function DummyVersionConfig(version: string): VersionConfig {
    var modules := if HasSuffix(version, ENTERPRISE_SUFFIX) then ["enterprise"] else [];
    VersionConfig(version,
                  [BuildInfo("linux", "amd64", "rhel", modules), BuildInfo("linux", "amd64", "ubuntu", modules),
                   BuildInfo("linux", "aarch64", "ubuntu", modules), BuildInfo("linux", "aarch64", "rhel", modules)])
  }

  function WithVersion(versions: seq<VersionConfig>, v: VersionConfig): seq<VersionConfig> {
    if v in versions then versions else versions + [v]
  }

  function Modify(p: Process, m: Modification): Process {
    match m
    case MergeArgs(args) => p.(args := p.args + args)
    case SetPorts(ports) => p.SetPort(if p.name in ports then ports[p.name] else 0)
    case _ => p
  }

  function Apply(m: Modification, ac: AutomationConfig): AutomationConfig {
    match m
    case Noop => ac
    case SetSection(key, value) => ac.(sections := ac.sections[key := value])
    case _ => ac.(processes := seq(|ac.processes|, i requires 0 <= i < |ac.processes| => Modify(ac.processes[i], m)))
  }

  function ApplyAll(ms: seq<Modification>, ac: AutomationConfig): AutomationConfig {
    if ms == [] then ac else Apply(ms[|ms| - 1], ApplyAll(ms[..|ms| - 1], ac))
  }

  /** The config before any modification, still carrying the version of the previous one. */
  function Assemble(s: Settings, versions: seq<VersionConfig>, fcv: string, version: int): AutomationConfig {
    var sections := if AUTH_SECTION in s.sections then s.sections else s.sections[AUTH_SECTION := DISABLED_AUTH];
    var id := if s.replicaSetId.Some? then s.replicaSetId.value else s.name;
    AutomationConfig(version, Processes(s, fcv), [ReplicaSet(id, Members(s), s.arbiters, s.force, s.settings)],
                     WithVersion(versions, DummyVersionConfig(ImageVersion(s))), sections)
  }

  /** The version rises by one exactly when the contents differ from the previous config. */
  function Versioned(previous: AutomationConfig, ac: AutomationConfig): AutomationConfig {
    if AreEqual(previous, ac) then ac else ac.(version := ac.version + 1)
  }

  function BuildSpec(s: Settings, ms: seq<Modification>, fcv: string, versions: seq<VersionConfig>,
                     previous: AutomationConfig): Result<AutomationConfig, BuildError>
  {
    match EffectiveFcv(previous, fcv, s.mongodbVersion)
    case Err(e) => Err(e)
    case Ok(f) => Ok(Versioned(previous, ApplyAll(ms, Assemble(s, versions, f, previous.version))))
  }

  // ---------------------------------------------------------------- the imperative builder

  method VersionsContain(versions: seq<VersionConfig>, version: VersionConfig) returns (found: bool)
    ensures found <==> version in versions
  {
    for i := 0 to |versions|
      invariant version !in versions[..i]
    {
      if versions[i] == version {
        return true;
      }
    }
    return false;
  }

  /** Runs one modification over the processes of a config, in place. */
  method ModifyProcesses(processes: array<Process>, m: Modification)
    modifies processes
    ensures forall i :: 0 <= i < processes.Length ==> processes[i] == Modify(old(processes[i]), m)
  {
    for i := 0 to processes.Length
      invariant forall k :: 0 <= k < i ==> processes[k] == Modify(old(processes[k]), m)
      invariant forall k :: i <= k < processes.Length ==> processes[k] == old(processes[k])
    {
      processes[i] := Modify(processes[i], m);
    }
  }

  class Builder {
    const settings: Settings
    const modifications: seq<Modification>
    const previousAC: AutomationConfig
    var fcv: string
    var versions: seq<VersionConfig>

    constructor (settings: Settings, modifications: seq<Modification>, previousAC: AutomationConfig, fcv: string)
      ensures this.settings == settings && this.modifications == modifications && this.previousAC == previousAC
      ensures this.fcv == fcv && versions == []
    {
      this.settings := settings;
      this.modifications := modifications;
      this.previousAC := previousAC;
      this.fcv := fcv;
      this.versions := [];
    }

    method SetFcvIfUpgradeIsHappening() returns (r: Result<(), BuildError>)
      modifies this`fcv
      ensures match FcvForUpgrade(previousAC, old(fcv), settings.mongodbVersion)
              case Ok(f) => r.Ok? && fcv == f
              case Err(e) => r == Err(e) && fcv == old(fcv)
    {
      if |previousAC.processes| > 0 && fcv == "" {
        var previousFcv := previousAC.processes[0].fcv;
        var previous := Make(previousFcv + ".0");
        if previous.None? {
          return Err(InvalidPreviousFcv(previousFcv));
        }
        var current := Make(settings.mongodbVersion);
        if current.None? {
          return Err(InvalidVersion(settings.mongodbVersion));
        }
        var p := previous.value;
        if Later(current.value, p) {
          fcv := previousFcv;
        }
      }
      return Ok(());
    }

    method BuildProcess(i: nat, fcv: string) returns (p: Process)
      ensures p == ProcessAt(settings, fcv, i)
    {
      var isArbiter := i >= settings.members;
      var index := if isArbiter then i - settings.members else i;
      var name := ProcessName(settings.name, index, isArbiter);
      var host := name + "." + (if isArbiter then settings.arbiterDomain else settings.domain);
      p := Process(name, false, host, map[], fcv, ImageVersion(settings), None, None);
      if settings.port != 0 {
        p := p.SetPort(settings.port);
      }
      var dataDir := DEFAULT_DATA_DIR;
      if settings.dataDir != "" {
        dataDir := settings.dataDir;
      }
      p := p.SetArg("storage.dbPath", Text(dataDir));
      p := p.SetArg("replication.replSetName", Text(settings.name));
      p := ConfigureAgent(settings.agent, p);
      if p.GetPort() == 0 {
        p := p.SetPort(DEFAULT_DB_PORT);
      }
    }

    method ApplyModifications(ac: AutomationConfig) returns (r: AutomationConfig)
      ensures r == ApplyAll(modifications, ac)
    {
      r := ac;
      var mods := modifications;
      for k := 0 to |mods|
        invariant r == ApplyAll(mods[..k], ac)
      {
        assert mods[..k + 1][..k] == mods[..k];
        match mods[k]
        case Noop =>
        case SetSection(key, value) =>
          r := r.(sections := r.sections[key := value]);
        case m =>
          var ps := new Process[|r.processes|](i requires 0 <= i < |r.processes| => r.processes[i]);
          ModifyProcesses(ps, m);
          r := r.(processes := ps[..]);
      }
      assert mods[..|mods|] == mods;
    }

    /** The first half of the build: which FCV the processes get. */
    method DecideFcv() returns (r: Result<string, BuildError>)
      modifies this`fcv
      ensures r == EffectiveFcv(previousAC, old(fcv), settings.mongodbVersion)
    {
      var first := SetFcvIfUpgradeIsHappening();
      if first.Err? {
        return Err(first.error);
      }
      if fcv != "" {
        var parsed := Make(fcv + ".0");
        if parsed.None? {
          return Err(InvalidFcv(fcv));
        }
      }
      // The second call cannot fail: the first one has parsed all that it would parse.
      var second := SetFcvIfUpgradeIsHappening();
      assert second.Ok?;
      var effective := CalculateFeatureCompatibilityVersion(settings.mongodbVersion);
      if |fcv| > 0 {
        effective := fcv;
      }
      return Ok(effective);
    }

    method BuildMember(i: nat, name: string) returns (m: Member)
      requires name == ProcessName(settings.name, Ordinal(settings, i), i >= settings.members)
      ensures m == MemberAt(settings, i)
    {
      var isArbiter := i >= settings.members;
      var id := i;
      if isArbiter {
        id := ARBITERS_STARTING_INDEX + (i - settings.members);
      }
      var horizons := map[];
      if i < |settings.horizons| {
        horizons := settings.horizons[i];
      }
      var isVoting := isArbiter || i < MAX_VOTING_MEMBERS - settings.arbiters;
      m := NewMember(name, id, horizons, isArbiter, isVoting);
      if |settings.memberOptions| > i {
        var o := settings.memberOptions[i];
        m := m.(votes := o.votes, priority := o.priority, tags := o.tags);
      }
    }

    /** One round of the main loop: the process and the replica set member of the i-th hostname. */
    method FillAt(processes: array<Process>, members: array<Member>, i: nat, fcv: string)
      requires i < processes.Length && i < members.Length
      modifies processes, members
      ensures processes[i] == ProcessAt(settings, fcv, i) && members[i] == MemberAt(settings, i)
      ensures forall k :: 0 <= k < processes.Length && k != i ==> processes[k] == old(processes[k])
      ensures forall k :: 0 <= k < members.Length && k != i ==> members[k] == old(members[k])
    {
      var process := BuildProcess(i, fcv);
      ProcessAtName(settings, fcv, i);
      var member := BuildMember(i, process.name);
      processes[i] := process;
      members[i] := member;
    }

    /** The first n processes and members are in place. */
    predicate Filled(processes: array<Process>, members: array<Member>, n: nat, fcv: string)
      reads processes, members
    {
      n <= processes.Length && n <= members.Length
      && forall k :: 0 <= k < n ==> processes[k] == ProcessAt(settings, fcv, k) && members[k] == MemberAt(settings, k)
    }

    /** The main loop over the hostnames. */
    method FillSlices(fcv: string) returns (processes: array<Process>, members: array<Member>)
      ensures fresh(processes) && fresh(members)
      ensures processes[..] == Processes(settings, fcv) && members[..] == Members(settings)
    {
      var n := settings.members + settings.arbiters;
      members := new Member[n];
      processes := new Process[n];
      for i := 0 to n
        invariant processes.Length == members.Length == n
        invariant Filled(processes, members, i, fcv)
      {
        FillAt(processes, members, i, fcv);
      }
    }

    /** Everything but the processes and members is filled in from the builder's fields; the version list may grow. */
    method FillConfig(fcv: string) returns (ac: AutomationConfig)
      modifies this`versions
      ensures ac == Assemble(settings, old(versions), fcv, previousAC.version)
      ensures versions == WithVersion(old(versions), DummyVersionConfig(ImageVersion(settings)))
    {
      var processes, members := FillSlices(fcv);
      var sections := settings.sections;
      if AUTH_SECTION !in sections {
        sections := sections[AUTH_SECTION := DISABLED_AUTH];
      }
      var dummy := DummyVersionConfig(ImageVersion(settings));
      var contained := VersionsContain(versions, dummy);
      if !contained {
        versions := versions + [dummy];
      }
      var id := settings.name;
      if settings.replicaSetId.Some? {
        id := settings.replicaSetId.value;
      }
      var replicaSet := ReplicaSet(id, members[..], settings.arbiters, settings.force, settings.settings);
      return AutomationConfig(previousAC.version, processes[..], [replicaSet], versions, sections);
    }

    method Build() returns (r: Result<AutomationConfig, BuildError>)
      modifies this
      ensures r == BuildSpec(settings, modifications, old(fcv), old(versions), previousAC)
      ensures r.Ok? ==> versions == WithVersion(old(versions), DummyVersionConfig(ImageVersion(settings)))
    {
      var effective := DecideFcv();
      if effective.Err? {
        return Err(effective.error);
      }
      var ac := FillConfig(effective.value);
      ac := ApplyModifications(ac);
      if !AreEqual(previousAC, ac) {
        ac := ac.(version := ac.version + 1);
      }
      return Ok(ac);
    }
  }
}
