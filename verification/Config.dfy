/** The automation config: what the operator publishes and the agents apply. */
module Config {
  import opened Wrappers

  const DEFAULT_DB_PORT := 27017
  const DEFAULT_DATA_DIR := "/data"
  const PORT_FIELD := "net.port"

  /** A value in a process's `args2_6`, keyed by its dotted path. */
  datatype Arg = Num(n: int) | Text(s: string) | Flag(b: bool)

  datatype LogRotate = LogRotate(timeThresholdHrs: int, numUncompressed: int, numTotal: int,
                                 includeAuditLogs: bool, sizeThresholdMB: real, percentOfDiskspace: real)

  const NO_LOG_ROTATE := LogRotate(0, 0, 0, false, 0.0, 0.0)

  datatype Process = Process(name: string, disabled: bool, hostName: string, args: map<string, Arg>, fcv: string,
                             version: string, logRotate: Option<LogRotate>, auditLogRotate: Option<LogRotate>)
  {
    /** A process without a numeric port reads as port 0. */
    function GetPort(): int {
      if PORT_FIELD in args && args[PORT_FIELD].Num? then args[PORT_FIELD].n else 0
    }

    function SetArg(field: string, value: Arg): Process {
      this.(args := args[field := value])
    }

    function SetPort(port: int): Process {
      SetArg(PORT_FIELD, Num(port))
    }
  }

  datatype Member = Member(id: int, host: string, arbiterOnly: bool, horizons: map<string, string>,
                           votes: Option<int>, priority: real, tags: map<string, string>)
  {
    /** An unset vote count is the server's default of one vote. */
    function VoteCount(): int {
      if votes.Some? then votes.value else 1
    }
  }

  /** `settings` is the serialised form of a free-form section that the operator only passes on. */
  datatype ReplicaSet = ReplicaSet(id: string, members: seq<Member>, numberArbiters: int,
                                   force: Option<int>, settings: Option<string>)

  datatype BuildInfo = BuildInfo(platform: string, architecture: string, flavor: string, modules: seq<string>)

  datatype VersionConfig = VersionConfig(name: string, builds: seq<BuildInfo>)

  /** `sections` holds the serialised form of every other top-level section: auth, tls, options, roles, ... */
  datatype AutomationConfig = AutomationConfig(version: int, processes: seq<Process>, replicaSets: seq<ReplicaSet>,
                                               versions: seq<VersionConfig>, sections: map<string, string>)

  const EMPTY_CONFIG := AutomationConfig(0, [], [], [], map[])

  /** Equality of contents: the version does not count. */
  predicate AreEqual(ac0: AutomationConfig, ac1: AutomationConfig) {
    ac0.(version := ac1.version) == ac1
  }

  /** The port a config publishes for its i-th process. */
  function Ports(ac: AutomationConfig): (ports: seq<int>)
    ensures |ports| == |ac.processes|
  {
    seq(|ac.processes|, i requires 0 <= i < |ac.processes| => ac.processes[i].GetPort())
  }

  function ProcessNames(ps: seq<Process>): (names: seq<string>)
    ensures |names| == |ps|
  {
    seq(|ps|, i requires 0 <= i < |ps| => ps[i].name)
  }

  /** The index of the first process of that name. */
  function IndexByName(ps: seq<Process>, name: string): Option<nat> {
    if ps == [] then None
    else if ps[0].name == name then Some(0)
    else match IndexByName(ps[1..], name)
      case None => None
      case Some(i) => Some(i + 1)
  }

  lemma {:induction false} IndexByNameFirst(ps: seq<Process>, name: string)
    ensures IndexByName(ps, name).None? ==> forall i :: 0 <= i < |ps| ==> ps[i].name != name
    ensures IndexByName(ps, name).Some? ==>
      var i := IndexByName(ps, name).value;
      i < |ps| && ps[i].name == name && forall k :: 0 <= k < i ==> ps[k].name != name
  {
    if ps != [] {
      IndexByNameFirst(ps[1..], name);
      assert forall i :: 0 < i < |ps| ==> ps[i] == ps[1..][i - 1];
    }
  }
}
