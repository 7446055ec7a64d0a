/**
 * Publishing a config: merge the user's override over the built config, then store the result in a secret.
 *
 * `Build` decides the version before the override is merged.  `ConfigStoreProperties` shows when that is harmless.
 */
module ConfigStore {
  import opened ConfigBuilder
  import opened Config
  import opened Wrappers

  // ---------------------------------------------------------------- overrides

  /** What a resource may override of one process. */
  datatype ProcessOverride = ProcessOverride(name: string, disabled: bool, logRotate: Option<LogRotate>)

  function OverrideToProcess(o: ProcessOverride): Process {
    Process(o.name, o.disabled, "", map[], "", "",
            Some(if o.logRotate.Some? then o.logRotate.value else NO_LOG_ROTATE), None)
  }

  function MergeProcess(original: Process, override: Process): Process {
    original.(disabled := override.disabled, logRotate := override.logRotate)
  }

  /** The last override of that name: later entries win. */
  function LastOverride(overrides: seq<ProcessOverride>, name: string): Option<Process> {
    if overrides == [] then None
    else if overrides[|overrides| - 1].name == name then Some(OverrideToProcess(overrides[|overrides| - 1]))
    else LastOverride(overrides[..|overrides| - 1], name)
  }

  function MergedProcess(original: seq<Process>, overrides: seq<ProcessOverride>, i: nat): Process
    requires i < |original|
  {
    var o := LastOverride(overrides, original[i].name);
    if o.Some? && IndexByName(original, original[i].name) == Some(i) then MergeProcess(original[i], o.value)
    else original[i]
  }

  function Merge(ac: AutomationConfig, overrides: seq<ProcessOverride>): AutomationConfig {
    ac.(processes := seq(|ac.processes|,
          i requires 0 <= i < |ac.processes| => MergedProcess(ac.processes, overrides, i)))
  }

  method GetProcessIndexByName(name: string, processes: seq<Process>) returns (index: int)
    ensures -1 <= index < |processes|
    ensures index == -1 <==> forall i :: 0 <= i < |processes| ==> processes[i].name != name
    ensures index >= 0 ==> processes[index].name == name && forall k :: 0 <= k < index ==> processes[k].name != name
  {
    for i := 0 to |processes|
      invariant forall k :: 0 <= k < i ==> processes[k].name != name
    {
      if processes[i].name == name {
        return i;
      }
    }
    return -1;
  }

  method MergeAutomationConfigs(ac: AutomationConfig, overrides: seq<ProcessOverride>) returns (r: AutomationConfig)
    ensures r == Merge(ac, overrides)
  {
    var original := ac.processes;
    var merged := new Process[|original|](i requires 0 <= i < |original| => original[i]);
    for k := 0 to |overrides|
      invariant forall i :: 0 <= i < |original| ==> merged[i] == MergedProcess(original, overrides[..k], i)
    {
      assert overrides[..k + 1][..k] == overrides[..k];
      var index := GetProcessIndexByName(overrides[k].name, original);
      IndexByNameFirst(original, overrides[k].name);
      if index != -1 {
        merged[index] := MergeProcess(original[index], OverrideToProcess(overrides[k]));
      }
    }
    assert overrides[..|overrides|] == overrides;
    r := ac.(processes := merged[..]);
  }

  // ---------------------------------------------------------------- the secret

  /** The config secret: absent, present without the config key, or holding a config. */
  datatype AcSecret = Missing | WithoutConfig | Stored(ac: AutomationConfig)

  datatype StoreError = ReadFailed | WriteFailed | Unreadable

  /** Which API calls of one pass fail. */
  datatype StoreFaults = StoreFaults(read: bool, write: bool)

  function ReadSpec(secret: AcSecret, readFails: bool): Result<AutomationConfig, StoreError> {
    if readFails then Err(ReadFailed)
    else match secret
      case Missing => Ok(EMPTY_CONFIG)
      case WithoutConfig => Err(Unreadable)
      case Stored(ac) => Ok(ac)
  }

  /** The secret, the outcome, and whether the secret was written. */
  datatype Ensured = Ensured(secret: AcSecret, result: Result<AutomationConfig, StoreError>, written: bool)

  function EnsureSpec(secret: AcSecret, desired: AutomationConfig, faults: StoreFaults): Ensured {
    if faults.read then Ensured(secret, Err(ReadFailed), false)
    else if secret.Stored? && AreEqual(desired, secret.ac) then Ensured(secret, Ok(secret.ac), false)
    else if faults.write then Ensured(secret, Err(WriteFailed), false)
    else Ensured(Stored(desired), Ok(desired), true)
  }

  class ConfigSecret {
    var secret: AcSecret
    var writes: nat

    constructor ()
      ensures secret == Missing && writes == 0
    {
      secret, writes := Missing, 0;
    }

    method ReadFromSecret(readFails: bool) returns (r: Result<AutomationConfig, StoreError>)
      ensures r == ReadSpec(secret, readFails)
    {
      if readFails {
        return Err(ReadFailed);
      }
      match secret
      case Missing => return Ok(EMPTY_CONFIG);
      case WithoutConfig => return Err(Unreadable);
      case Stored(ac) => return Ok(ac);
    }

    method EnsureSecret(desired: AutomationConfig, faults: StoreFaults)
      returns (r: Result<AutomationConfig, StoreError>)
      modifies this
      ensures var e := EnsureSpec(old(secret), desired, faults);
              && secret == e.secret && r == e.result
              && writes == old(writes) + (if e.written then 1 else 0)
    {
      if faults.read {
        return Err(ReadFailed);
      }
      match secret
      case Missing =>
        r := Write(desired, faults);
      case WithoutConfig =>
        r := Write(desired, faults);
      case Stored(existing) =>
        if AreEqual(desired, existing) {
          return Ok(existing);
        }
        r := Write(desired, faults);
    }

    method Write(desired: AutomationConfig, faults: StoreFaults) returns (r: Result<AutomationConfig, StoreError>)
      modifies this
      ensures if faults.write then secret == old(secret) && writes == old(writes) && r == Err(WriteFailed)
              else secret == Stored(desired) && writes == old(writes) + 1 && r == Ok(desired)
    {
      if faults.write {
        return Err(WriteFailed);
      }
      secret, writes := Stored(desired), writes + 1;
      return Ok(desired);
    }
  }

  // ---------------------------------------------------------------- one pass of build, merge and store

  /** The inputs of one pass: what the resource asks for, its FCV and override, and which API calls fail. */
  datatype Pass = Pass(settings: Settings, modifications: seq<Modification>, fcv: string, overrides: seq<ProcessOverride>,
                       faults: StoreFaults)

  function Publish(secret: AcSecret, p: Pass): Ensured {
    match ReadSpec(secret, p.faults.read)
    case Err(e) => Ensured(secret, Err(e), false)
    case Ok(current) =>
      match BuildSpec(p.settings, p.modifications, p.fcv, [], current)
      case Err(_) => Ensured(secret, Err(Unreadable), false)
      case Ok(built) => EnsureSpec(secret, Merge(built, p.overrides), p.faults)
  }

  /** The secret after a run of passes over a missing secret. */
  function AfterPasses(passes: seq<Pass>): AcSecret {
    if passes == [] then Missing else Publish(AfterPasses(passes[..|passes| - 1]), passes[|passes| - 1]).secret
  }
}
