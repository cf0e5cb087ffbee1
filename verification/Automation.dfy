/** The automated-response policy: one decision per alert (response_engine/automation.py). */
module Automation {
  import opened Wrappers
  import opened Json
  import opened Contract

  const MARKER := "panopticon-response-executor"

  const DEFAULT_COOLDOWN: nat := 300

  datatype Mode = Record | Simulate | Approval | Auto | Denied

  type PolicyMode = m: Mode | m != Denied witness Record

  datatype GlobalMode = Simulating | Enforcing

  datatype PolicyMatch = PolicyMatch(ruleIds: seq<string>, rulePrefixes: seq<string>, mitreTactics: seq<string>)

  datatype ResponsePolicy = ResponsePolicy(
    policyId: string, match_: PolicyMatch, action: Action, mode: PolicyMode, minLevel: int, minConfidence: Option<real>,
    requiredEvidence: seq<string>, detectionSources: seq<string>, hostAllowlist: seq<string>, cooldown: nat)

  datatype Problem = NotObject | Lacking(key: string) | BadLevel | BadEvidence

  datatype GateFailure =
    | LevelBelow | NoConfidence | ConfidenceBelow | EvidenceMissing(key: string) | SourceNotEligible | HostOutOfScope

  datatype Reason =
    | Malformed(problem: Problem) | NoTranslation | OutsideClosedSet | OwnActivity | NoPolicyMatched(tier: Tier)
    | Matched(policyId: string) | GateFailed(failure: GateFailure) | AutoDowngraded | PreviewedOnly

  datatype Decision = Decision(
    policyId: string, action: Option<string>, mode: Mode, globalMode: GlobalMode, simulate: bool, autoExecute: bool,
    cooldown: nat, reasons: seq<Reason>)

  // ---- reading an alert ----

  /** Python's str.strip white space. */
  predicate IsSpace(c: char) {
    var v := c as int;
    || 9 <= v <= 13 || 28 <= v <= 32 || v == 0x85 || v == 0xA0 || v == 0x1680 || 0x2000 <= v <= 0x200A
    || v == 0x2028 || v == 0x2029 || v == 0x202F || v == 0x205F || v == 0x3000
  }

  predicate IsNonBlank(v: Json) {
    v.Str? && exists i :: 0 <= i < |v.s| && !IsSpace(v.s[i])
  }

  /** _malformed */
  function FindProblem(alert: Json): Option<Problem> {
    if !alert.Dict? then Some(NotObject)
    else if !IsNonBlank(Get(alert.fields, "alert_id")) then Some(Lacking("alert_id"))
    else if !IsNonBlank(Get(alert.fields, "rule_id")) then Some(Lacking("rule_id"))
    else if !IsNonBlank(Get(alert.fields, "host_id")) then Some(Lacking("host_id"))
    else if !(Get(alert.fields, "level").Int? && 0 <= Get(alert.fields, "level").i <= 16) then Some(BadLevel)
    else if !(Get(alert.fields, "evidence").Null? || Get(alert.fields, "evidence").Dict?) then Some(BadEvidence)
    else None
  }

  predicate Contains(text: string, part: string) {
    exists i :: 0 <= i <= |text| && part <= text[i..]
  }

  /** _strings: every text the walk over mappings, lists and tuples yields. */
  function Strings(v: Json): set<string> {
    match v
    case Str(s) => {s}
    case Dict(fields) => set k, s | k in fields && s in Strings(fields[k]) :: s
    case List(items) => set i, s | 0 <= i < |items| && s in Strings(items[i]) :: s
    case Tuple(items) => set i, s | 0 <= i < |items| && s in Strings(items[i]) :: s
    case _ => {}
  }

  predicate DescribesOwnActivity(alert: Object) {
    exists text :: text in Strings(Get(alert, "evidence")) && Contains(text, MARKER)
  }

  /** PolicyMatch.matches */
  predicate Matches(m: PolicyMatch, alert: Object) {
    var rule, tactic := Get(alert, "rule_id"), Get(alert, "mitre_tactic");
    || (rule.Str? && rule.s in m.ruleIds)
    || (rule.Str? && exists p :: p in m.rulePrefixes && p <= rule.s)
    || (tactic.Str? && tactic.s in m.mitreTactics)
  }

  predicate Applies(p: ResponsePolicy, alert: Object, action: Action) {
    Matches(p.match_, alert) && p.action == action
  }

  function FirstApplying(policies: seq<ResponsePolicy>, alert: Object, action: Action): Option<ResponsePolicy> {
    if policies == [] then None
    else if Applies(policies[0], alert, action) then Some(policies[0])
    else FirstApplying(policies[1..], alert, action)
  }

  // ---- the gates ----

  function Confidence(alert: Object): Option<real> {
    match Get(alert, "confidence")
    case Int(i) => Some(i as real)
    case Real(r) => Some(r)
    case _ => None
  }

  function Evidence(alert: Object, key: string): Json {
    match Get(alert, "evidence")
    case Dict(fields) => Get(fields, key)
    case _ => Null
  }

  predicate IsEmptyValue(v: Json) {
    v == Null || v == Str("") || v == List([]) || v == Dict(map[])
  }

  function MissingEvidence(keys: seq<string>, alert: Object): seq<GateFailure> {
    if keys == [] then []
    else
      (if IsEmptyValue(Evidence(alert, keys[0])) then [EvidenceMissing(keys[0])] else [])
      + MissingEvidence(keys[1..], alert)
  }

  predicate LevelReached(p: ResponsePolicy, alert: Object) {
    Get(alert, "level").Int? ==> Get(alert, "level").i >= p.minLevel
  }

  predicate SourceEligible(p: ResponsePolicy, alert: Object) {
    var source := Get(alert, "detection_source");
    source.Str? && source.s in p.detectionSources
  }

  predicate HostInScope(p: ResponsePolicy, alert: Object) {
    var host := Get(alert, "host_id");
    p.hostAllowlist == [] || (host.Str? && host.s in p.hostAllowlist)
  }

  function ConfidenceFailures(p: ResponsePolicy, alert: Object): seq<GateFailure> {
    match (p.minConfidence, Confidence(alert))
    case (None, _) => []
    case (Some(least), None) => [NoConfidence]
    case (Some(least), Some(c)) => if c < least then [ConfidenceBelow] else []
  }

  function Failures(p: ResponsePolicy, alert: Object): seq<GateFailure> {
    (if LevelReached(p, alert) then [] else [LevelBelow])
    + ConfidenceFailures(p, alert)
    + MissingEvidence(p.requiredEvidence, alert)
    + (if SourceEligible(p, alert) then [] else [SourceNotEligible])
    + (if HostInScope(p, alert) then [] else [HostOutOfScope])
  }

  /** Every gate of the policy holds. */
  predicate GatesPass(p: ResponsePolicy, alert: Object) {
    && LevelReached(p, alert)
    && (p.minConfidence.Some? ==> Confidence(alert).Some? && Confidence(alert).value >= p.minConfidence.value)
    && (forall key :: key in p.requiredEvidence ==> !IsEmptyValue(Evidence(alert, key)))
    && SourceEligible(p, alert)
    && HostInScope(p, alert)
  }

  lemma {:induction false} MissingEvidenceExactly(keys: seq<string>, alert: Object, key: string)
    ensures EvidenceMissing(key) in MissingEvidence(keys, alert) <==> key in keys && IsEmptyValue(Evidence(alert, key))
    ensures MissingEvidence(keys, alert) == [] <==> forall k :: k in keys ==> !IsEmptyValue(Evidence(alert, k))
  {
    if keys != [] {
      MissingEvidenceExactly(keys[1..], alert, key);
      assert forall k :: k in keys <==> k == keys[0] || k in keys[1..];
    }
  }

  /** There is a failure to report exactly when some gate fails. */
  lemma NoFailuresIffGatesPass(p: ResponsePolicy, alert: Object)
    ensures Failures(p, alert) == [] <==> GatesPass(p, alert)
  {
    MissingEvidenceExactly(p.requiredEvidence, alert, "");
  }

  /** _gate_failures */
  method GateFailures(p: ResponsePolicy, alert: Object) returns (failures: seq<GateFailure>)
    requires Get(alert, "level").Int? && Get(alert, "host_id").Str?
    ensures failures == Failures(p, alert)
  {
    failures := [];
    if alert["level"].i < p.minLevel {
      failures := failures + [LevelBelow];
    }
    assert failures == if LevelReached(p, alert) then [] else [LevelBelow];
    ghost var levels := failures;
    if p.minConfidence.Some? {
      var confidence := Confidence(alert);
      if confidence.None? {
        failures := failures + [NoConfidence];
      } else if confidence.value < p.minConfidence.value {
        failures := failures + [ConfidenceBelow];
      }
    }
    assert failures == levels + ConfidenceFailures(p, alert);
    failures := AppendMissing(failures, p.requiredEvidence, alert);
    if !SourceEligible(p, alert) {
      failures := failures + [SourceNotEligible];
    }
    if p.hostAllowlist != [] && alert["host_id"].s !in p.hostAllowlist {
      failures := failures + [HostOutOfScope];
    }
  }

  /** The loop over the required evidence. */
  method AppendMissing(before: seq<GateFailure>, keys: seq<string>, alert: Object) returns (failures: seq<GateFailure>)
    ensures failures == before + MissingEvidence(keys, alert)
  {
    failures := before;
    for i := 0 to |keys|
      invariant failures + MissingEvidence(keys[i..], alert) == before + MissingEvidence(keys, alert)
    {
      assert keys[i..][1..] == keys[i + 1..];
      if IsEmptyValue(Evidence(alert, keys[i])) {
        failures := failures + [EvidenceMissing(keys[i])];
      }
    }
    assert failures + [] == failures;
  }

  // ---- the decision ----

  /** A mode text other than enforce is the safe default. */
  function Effective(globalMode: string): GlobalMode {
    if globalMode == "enforce" then Enforcing else Simulating
  }

  function Decided(policyId: string, action: Option<string>, mode: Mode, g: GlobalMode, reasons: seq<Reason>,
                   cooldown: nat): Decision
  {
    Decision(policyId, action, mode, g, mode == Simulate || mode == Approval, mode == Auto, cooldown, reasons)
  }

  function GateReasons(failures: seq<GateFailure>): seq<Reason> {
    seq(|failures|, i requires 0 <= i < |failures| => GateFailed(failures[i]))
  }

  /** The mode that is left of a wanted mode once the tier and the global mode have had their say. */
  function Limited(wanted: Mode, tier: Tier, g: GlobalMode): Mode {
    if wanted == Auto && tier == AutoSafe then Auto
    else if (wanted == Auto || wanted == Approval) && g == Simulating then Simulate
    else if wanted == Auto then Approval
    else wanted
  }

  function LimitReasons(wanted: Mode, tier: Tier, g: GlobalMode): seq<Reason> {
    (if wanted == Auto && tier != AutoSafe then [AutoDowngraded] else [])
    + (if Limited(wanted, tier, g) == Simulate && wanted != Simulate then [PreviewedOnly] else [])
  }

  /** The decision as a function of the first policy that applies. */
  function DecideBy(policy: Option<ResponsePolicy>, alert: Object, name: string, g: GlobalMode): Decision {
    var tier := ClassifyTier(name);
    match policy
    case None =>
      var wanted := if tier == AutoSafe then Auto else Approval;
      Decided("default-tier", Some(name), Limited(wanted, tier, g), g,
              [NoPolicyMatched(tier)] + LimitReasons(wanted, tier, g), DEFAULT_COOLDOWN)
    case Some(p) =>
      if Failures(p, alert) != [] then
        Decided(p.policyId, Some(name), Record, g, [Matched(p.policyId)] + GateReasons(Failures(p, alert)), p.cooldown)
      else
        Decided(p.policyId, Some(name), Limited(p.mode, tier, g), g,
                [Matched(p.policyId)] + LimitReasons(p.mode, tier, g), p.cooldown)
  }

  function Decide(alert: Json, command: Option<string>, policies: seq<ResponsePolicy>, globalMode: string): Decision {
    var g := Effective(globalMode);
    match FindProblem(alert)
    case Some(problem) => Decided("validation", command, Denied, g, [Malformed(problem)], 0)
    case None =>
      match command
      case None => Decided("default-tier", None, Record, g, [NoTranslation], 0)
      case Some(name) =>
        match ParseAction(name)
        case None => Decided("validation", command, Denied, g, [OutsideClosedSet], 0)
        case Some(action) =>
          if DescribesOwnActivity(alert.fields) then Decided("loop-guard", command, Denied, g, [OwnActivity], 0)
          else DecideBy(FirstApplying(policies, alert.fields, action), alert.fields, name, g)
  }

  /** evaluate_policy */
  method EvaluatePolicy(alert: Json, command: Option<string>, policies: seq<ResponsePolicy>, globalMode: string)
    returns (d: Decision)
    ensures d == Decide(alert, command, policies, globalMode)
  {
    var g := Effective(globalMode);
    var problem := FindProblem(alert);
    if problem.Some? {
      return Decided("validation", command, Denied, g, [Malformed(problem.value)], 0);
    }
    if command.None? {
      return Decided("default-tier", None, Record, g, [NoTranslation], 0);
    }
    var action := ParseAction(command.value);
    if action.None? {
      return Decided("validation", command, Denied, g, [OutsideClosedSet], 0);
    }
    if DescribesOwnActivity(alert.fields) {
      return Decided("loop-guard", command, Denied, g, [OwnActivity], 0);
    }
    var policy := FirstApplying(policies, alert.fields, action.value);
    if policy.None? {
      d := DecideByTier(alert.fields, command.value, g);
    } else {
      d := DecideByPolicy(policy.value, alert.fields, command.value, g);
    }
  }

  /** The decision when no policy applies. */
  method DecideByTier(alert: Object, name: string, g: GlobalMode) returns (d: Decision)
    ensures d == DecideBy(None, alert, name, g)
  {
    var tier := ClassifyTier(name);
    var mode := if tier == AutoSafe then Auto else Approval;
    var reasons := [NoPolicyMatched(tier)];
    if mode == Approval && g == Simulating {
      mode := Simulate;
      reasons := reasons + [PreviewedOnly];
    }
    d := Decided("default-tier", Some(name), mode, g, reasons, DEFAULT_COOLDOWN);
  }

  /** The decision by the first policy that applies: its gates, then the two downgrades of its mode. */
  method DecideByPolicy(p: ResponsePolicy, alert: Object, name: string, g: GlobalMode) returns (d: Decision)
    requires FindProblem(Dict(alert)) == None
    ensures d == DecideBy(Some(p), alert, name, g)
  {
    var tier, reasons := ClassifyTier(name), [Matched(p.policyId)];
    var failures := GateFailures(p, alert);
    if failures != [] {
      return Decided(p.policyId, Some(name), Record, g, reasons + GateReasons(failures), p.cooldown);
    }
    var mode: Mode := p.mode;
    if mode == Auto && tier != AutoSafe {
      mode := Approval;
      reasons := reasons + [AutoDowngraded];
    }
    if mode == Approval && g == Simulating {
      mode := Simulate;
      reasons := reasons + [PreviewedOnly];
    }
    d := Decided(p.policyId, Some(name), mode, g, reasons, p.cooldown);
  }
}
