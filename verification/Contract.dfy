/**
 The closed action contract (response_engine/contract.py) and the locked tier table
 (response_engine/policy.py).
 */
module Contract {
  import opened Wrappers
  import opened Json
  import opened Decimal

  datatype Action =
    | KillProcess
    | CollectProcessInfo
    | CollectNetworkConnections
    | CollectFile
    | QuarantineFile
    | IsolateHost
    | ReleaseHostIsolation

  function Name(a: Action): string {
    match a
    case KillProcess => "KILL_PROCESS"
    case CollectProcessInfo => "COLLECT_PROCESS_INFO"
    case CollectNetworkConnections => "COLLECT_NETWORK_CONNECTIONS"
    case CollectFile => "COLLECT_FILE"
    case QuarantineFile => "QUARANTINE_FILE"
    case IsolateHost => "ISOLATE_HOST"
    case ReleaseHostIsolation => "RELEASE_HOST_ISOLATION"
  }

  /** Membership in the closed set; None for every other text. */
  function ParseAction(s: string): Option<Action> {
    if s == "KILL_PROCESS" then Some(KillProcess)
    else if s == "COLLECT_PROCESS_INFO" then Some(CollectProcessInfo)
    else if s == "COLLECT_NETWORK_CONNECTIONS" then Some(CollectNetworkConnections)
    else if s == "COLLECT_FILE" then Some(CollectFile)
    else if s == "QUARANTINE_FILE" then Some(QuarantineFile)
    else if s == "ISOLATE_HOST" then Some(IsolateHost)
    else if s == "RELEASE_HOST_ISOLATION" then Some(ReleaseHostIsolation)
    else None
  }

  lemma ParseActionExact(s: string, a: Action)
    ensures ParseAction(s) == Some(a) <==> s == Name(a)
  {
  }

  predicate IsProcessAction(a: Action) {
    a == KillProcess || a == CollectProcessInfo
  }

  predicate IsFileAction(a: Action) {
    a == CollectFile || a == QuarantineFile
  }

  predicate IsHexDigit(c: char) {
    '0' <= c <= '9' || 'a' <= c <= 'f'
  }

  predicate IsHex(s: string, width: nat) {
    |s| == width && forall i :: 0 <= i < |s| ==> IsHexDigit(s[i])
  }

  /** The pattern boot_[0-9a-f]{64}. */
  predicate IsBootIdentity(s: string) {
    |s| == 69 && s[..5] == "boot_" && IsHex(s[5..], 64)
  }

  predicate IsPid(v: Json) {
    v.Int? && 0 < v.i <= MAX_UINT32
  }

  /** enforce_closed_target_schema: the target each schema version and action must carry. */
  predicate TargetAccepted(schema: string, action: Action, target: Object, expiresAware: bool) {
    if schema == "2" then
      && expiresAware
      && IsProcessAction(action)
      && target.Keys == {"pid", "start_time_ticks", "boot_id"}
      && IsPid(target["pid"])
      && target["start_time_ticks"].Str? && IsUint64Text(target["start_time_ticks"].s)
      && target["boot_id"].Str? && IsBootIdentity(target["boot_id"].s)
    else if IsProcessAction(action) then
      && target.Keys == {"pid", "start_time_ticks"}
      && target["pid"].Int? && target["pid"].i > 0
      && target["start_time_ticks"].Int? && target["start_time_ticks"].i > 0
    else if IsFileAction(action) then
      && target.Keys == {"path"}
      && target["path"].Str? && 1 <= |target["path"].s| <= 4096
    else
      target == map[]
  }

  predicate IsShortText(v: Json, max: nat) {
    v.Str? && 1 <= |v.s| <= max
  }

  predicate IsSchemaVersion(v: Json) {
    v.Str? && (v.s == "1" || v.s == "2")
  }

  /** The values a dictionary offers to Command.model_validate. */
  datatype CommandFields = CommandFields(
    commandId: Json, schemaVersion: Json, agentId: Json, action: Json, expiresAt: Json, target: Json,
    correlationId: Json)

  /**
   Command.model_validate. parseTime is the library's reading of a time value: None when it refuses
   the value, otherwise whether the time carries a UTC offset.
   */
  predicate CommandAccepted(c: CommandFields, parseTime: Json -> Option<bool>) {
    && IsShortText(c.commandId, 128)
    && IsSchemaVersion(c.schemaVersion)
    && IsShortText(c.agentId, 128)
    && IsShortText(c.correlationId, 128)
    && c.action.Str? && ParseAction(c.action.s).Some?
    && parseTime(c.expiresAt).Some?
    && c.target.Dict?
    && TargetAccepted(c.schemaVersion.s, ParseAction(c.action.s).value, c.target.fields,
                      parseTime(c.expiresAt).value)
  }

  // ---- tiers ----

  datatype Tier = AutoSafe | AnalystApproval

  /** classify_tier: a name outside the closed set awaits an analyst. */
  function ClassifyTier(name: string): Tier {
    match ParseAction(name)
    case Some(CollectProcessInfo) => AutoSafe
    case Some(CollectNetworkConnections) => AutoSafe
    case _ => AnalystApproval
  }

  /** Only the two read-only collections are AUTO_SAFE; every other text, known or not, awaits an analyst. */
  lemma AutoSafeExactly(name: string)
    ensures ClassifyTier(name) == AutoSafe <==> name == "COLLECT_PROCESS_INFO" || name == "COLLECT_NETWORK_CONNECTIONS"
  {
  }

  // ---- the closed targets, built from their parts ----

  lemma HexDigitExactly(c: char)
    ensures IsHexDigit(c) <==> c in "0123456789abcdef"
  {
    var digits := "0123456789abcdef";
    if '0' <= c <= '9' {
      assert digits[c as int - '0' as int] == c;
    } else if 'a' <= c <= 'f' {
      assert digits[c as int - 'a' as int + 10] == c;
    }
  }

  predicate Hex64(h: string) {
    |h| == 64 && forall c :: c in h ==> c in "0123456789abcdef"
  }

  lemma Hex64Exactly(h: string)
    ensures IsHex(h, 64) <==> Hex64(h)
  {
    forall c
      ensures IsHexDigit(c) <==> c in "0123456789abcdef"
    {
      HexDigitExactly(c);
    }
  }

  function BootBoundTarget(pid: int, ticks: nat, h: string): Object {
    map["pid" := Int(pid), "start_time_ticks" := Str(Print(ticks)), "boot_id" := Str("boot_" + h)]
  }

  function TickedTarget(pid: int, ticks: int): Object {
    map["pid" := Int(pid), "start_time_ticks" := Int(ticks)]
  }

  ghost predicate IsTickedTarget(target: Object) {
    exists pid, ticks :: pid > 0 && ticks > 0 && target == TickedTarget(pid, ticks)
  }

  function FileTarget(path: string): Object {
    map["path" := Str(path)]
  }

  /** A schema-2 command carries a uint32 pid, the decimal text of a uint64 and a boot digest, for a process action. */
  lemma BootBoundTargetsExactly(action: Action, target: Object, aware: bool)
    ensures TargetAccepted("2", action, target, aware)
        <==> aware && Name(action) in {"KILL_PROCESS", "COLLECT_PROCESS_INFO"}
             && exists pid: nat, ticks: nat, h ::
                  1 <= pid <= 4294967295 && 1 <= ticks <= 18446744073709551615 && Hex64(h)
                  && target == BootBoundTarget(pid, ticks, h)
  {
    ParseActionExact("KILL_PROCESS", action);
    ParseActionExact("COLLECT_PROCESS_INFO", action);
    if TargetAccepted("2", action, target, aware) {
      var text, boot := target["start_time_ticks"].s, target["boot_id"].s;
      Uint64TextIsPrintImage(text);
      var ticks: nat :| 1 <= ticks <= 18446744073709551615 && Print(ticks) == text;
      Hex64Exactly(boot[5..]);
      assert boot == "boot_" + boot[5..];
      assert target == BootBoundTarget(target["pid"].i, ticks, boot[5..]);
    }
    forall pid: nat, ticks: nat, h |
      && aware && Name(action) in {"KILL_PROCESS", "COLLECT_PROCESS_INFO"}
      && 1 <= pid <= 4294967295 && 1 <= ticks <= 18446744073709551615 && Hex64(h)
      && target == BootBoundTarget(pid, ticks, h)
      ensures TargetAccepted("2", action, target, aware)
    {
      BootBoundTargetAccepted(action, pid, ticks, h);
    }
  }

  lemma BootBoundTargetAccepted(action: Action, pid: nat, ticks: nat, h: string)
    requires IsProcessAction(action)
    requires 1 <= pid <= 4294967295 && 1 <= ticks <= 18446744073709551615 && Hex64(h)
    ensures TargetAccepted("2", action, BootBoundTarget(pid, ticks, h), true)
  {
    PrintIsUint64Text(ticks);
    Hex64Exactly(h);
    assert ("boot_" + h)[..5] == "boot_" && ("boot_" + h)[5..] == h;
  }

  /** A schema-1 command carries two positive integers, or one path, or nothing, as its action asks. */
  lemma PlainTargetsExactly(action: Action, target: Object, aware: bool)
    ensures TargetAccepted("1", action, target, aware)
        <==> match Name(action)
             case "KILL_PROCESS" => IsTickedTarget(target)
             case "COLLECT_PROCESS_INFO" => IsTickedTarget(target)
             case "COLLECT_FILE" => exists path :: 1 <= |path| <= 4096 && target == FileTarget(path)
             case "QUARANTINE_FILE" => exists path :: 1 <= |path| <= 4096 && target == FileTarget(path)
             case _ => target == map[]
  {
    if TargetAccepted("1", action, target, aware) {
      if IsProcessAction(action) {
        assert target == TickedTarget(target["pid"].i, target["start_time_ticks"].i);
      } else if IsFileAction(action) {
        assert target == FileTarget(target["path"].s);
      }
    }
  }
}
