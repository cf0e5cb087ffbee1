/** What evaluate_policy guarantees over every alert, policy list, mode text and recommendation. */
module AutomationProperties {
  import opened Wrappers
  import opened Json
  import opened Contract
  import opened Automation
  import Recommendation
  import LinuxIdentity

  // ---- the loop guard ----

  /** One step into a nested value. */
  datatype Hop = Key(key: string) | Index(i: nat)

  function At(v: Json, path: seq<Hop>): Option<Json> {
    if path == [] then Some(v)
    else
      match (v, path[0])
      case (Dict(fields), Key(k)) => if k in fields then At(fields[k], path[1..]) else None
      case (List(items), Index(i)) => if i < |items| then At(items[i], path[1..]) else None
      case (Tuple(items), Index(i)) => if i < |items| then At(items[i], path[1..]) else None
      case _ => None
  }

  predicate Reaches(v: Json, path: seq<Hop>, text: string) {
    At(v, path) == Some(Str(text))
  }

  lemma {:induction false} ReachedIsYielded(v: Json, path: seq<Hop>, text: string)
    requires Reaches(v, path, text)
    ensures text in Strings(v)
    decreases |path|
  {
    if path != [] {
      match (v, path[0])
      case (Dict(fields), Key(k)) => ReachedIsYielded(fields[k], path[1..], text);
      case (List(items), Index(i)) => ReachedIsYielded(items[i], path[1..], text);
      case (Tuple(items), Index(i)) => ReachedIsYielded(items[i], path[1..], text);
    }
  }

  lemma {:induction false} YieldedIsReached(v: Json, text: string) returns (path: seq<Hop>)
    requires text in Strings(v)
    ensures Reaches(v, path, text)
    decreases v
  {
    match v
    case Str(s) => path := [];
    case Dict(fields) =>
      var k :| k in fields && text in Strings(fields[k]);
      var rest := YieldedIsReached(fields[k], text);
      path := [Key(k)] + rest;
    case List(items) =>
      var i :| 0 <= i < |items| && text in Strings(items[i]);
      var rest := YieldedIsReached(items[i], text);
      path := [Index(i)] + rest;
    case Tuple(items) =>
      var i :| 0 <= i < |items| && text in Strings(items[i]);
      var rest := YieldedIsReached(items[i], text);
      path := [Index(i)] + rest;
  }

  /** The walk yields exactly the texts that stand somewhere in the value, at any depth. */
  lemma StringsExactly(v: Json, text: string)
    ensures text in Strings(v) <==> exists path :: Reaches(v, path, text)
  {
    if text in Strings(v) {
      var path := YieldedIsReached(v, text);
    }
    forall path | Reaches(v, path, text)
      ensures text in Strings(v)
    {
      ReachedIsYielded(v, path, text);
    }
  }

  /** Some text at some depth of the value contains the executor's marker. */
  ghost predicate Mentions(v: Json) {
    exists path, text :: Reaches(v, path, text) && Contains(text, "panopticon-response-executor")
  }

  /** The loop guard fires exactly when some text at some depth of the evidence contains the executor's marker. */
  lemma OwnActivityExactly(alert: Object)
    ensures DescribesOwnActivity(alert) <==> Mentions(Get(alert, "evidence"))
  {
    var evidence := Get(alert, "evidence");
    if DescribesOwnActivity(alert) {
      var text :| text in Strings(evidence) && Contains(text, "panopticon-response-executor");
      var path := YieldedIsReached(evidence, text);
    }
    forall path, text | Reaches(evidence, path, text) && Contains(text, "panopticon-response-executor")
      ensures DescribesOwnActivity(alert)
    {
      ReachedIsYielded(evidence, path, text);
    }
  }

  lemma PolicyNeverDenies(policy: Option<ResponsePolicy>, alert: Object, name: string, g: GlobalMode)
    ensures DecideBy(policy, alert, name, g).mode != Denied
  {
  }

  /**
   An alert is denied exactly when it is malformed, or its translated action is outside the closed set,
   or some text at some depth of its evidence contains the executor's marker.
   */
  lemma DeniedExactly(alert: Json, command: Option<string>, policies: seq<ResponsePolicy>, mode: string)
    ensures Decide(alert, command, policies, mode).mode == Denied
        <==> FindProblem(alert).Some?
             || (command.Some?
                 && (ParseAction(command.value).None? || Mentions(Get(alert.fields, "evidence"))))
  {
    if FindProblem(alert).None? && command.Some? && ParseAction(command.value).Some? {
      OwnActivityExactly(alert.fields);
      var policy := FirstApplying(policies, alert.fields, ParseAction(command.value).value);
      PolicyNeverDenies(policy, alert.fields, command.value, Effective(mode));
    }
  }

  // ---- what an alert must say, on its own terms ----

  /** A text contains a part exactly when it is that part between two others. */
  lemma ContainsExactly(text: string, part: string)
    ensures Contains(text, part) <==> exists a, b :: text == a + part + b
  {
    if Contains(text, part) {
      var i :| 0 <= i <= |text| && part <= text[i..];
      assert text == text[..i] + part + text[i + |part|..];
    }
    forall a, b | text == a + part + b
      ensures Contains(text, part)
    {
      assert text[|a|..] == part + b;
    }
  }

  lemma SpaceExactly(c: char)
    ensures IsSpace(c)
        <==> c as int in {0x09, 0x0A, 0x0B, 0x0C, 0x0D, 0x1C, 0x1D, 0x1E, 0x1F, 0x20, 0x85, 0xA0, 0x1680, 0x2000, 0x2001,
                          0x2002, 0x2003, 0x2004, 0x2005, 0x2006, 0x2007, 0x2008, 0x2009, 0x200A, 0x2028, 0x2029, 0x202F,
                          0x205F, 0x3000}
  {
  }

  /** A value that holds some character other than white space. */
  ghost predicate SaysSomething(v: Json) {
    exists a, c, b :: v == Str(a + [c] + b) && !IsSpace(c)
  }

  lemma NonBlankExactly(v: Json)
    ensures IsNonBlank(v) <==> SaysSomething(v)
  {
    if IsNonBlank(v) {
      var i :| 0 <= i < |v.s| && !IsSpace(v.s[i]);
      assert v == Str(v.s[..i] + [v.s[i]] + v.s[i + 1..]);
    }
    forall a, c, b | v == Str(a + [c] + b) && !IsSpace(c)
      ensures IsNonBlank(v)
    {
      assert v.s[|a|] == c;
    }
  }

  /** An alert is well formed exactly when it names itself, its rule and its host, with a sound level and evidence. */
  lemma WellFormedExactly(alert: Json)
    ensures FindProblem(alert).None?
        <==> alert.Dict?
             && SaysSomething(Entry(alert, "alert_id")) && SaysSomething(Entry(alert, "rule_id"))
             && SaysSomething(Entry(alert, "host_id"))
             && (exists level :: 0 <= level <= 16 && Entry(alert, "level") == Int(level))
             && (Entry(alert, "evidence") == Null || Entry(alert, "evidence").Dict?)
  {
    NonBlankExactly(Entry(alert, "alert_id"));
    NonBlankExactly(Entry(alert, "rule_id"));
    NonBlankExactly(Entry(alert, "host_id"));
  }

  /** The problem reported is one the alert has. */
  lemma ProblemIsTrue(alert: Json)
    requires FindProblem(alert).Some?
    ensures match FindProblem(alert).value
            case NotObject => !alert.Dict?
            case Lacking(key) => key in {"alert_id", "rule_id", "host_id"} && !SaysSomething(Entry(alert, key))
            case BadLevel => forall level :: 0 <= level <= 16 ==> Entry(alert, "level") != Int(level)
            case BadEvidence => Entry(alert, "evidence") != Null && !Entry(alert, "evidence").Dict?
  {
    NonBlankExactly(Entry(alert, "alert_id"));
    NonBlankExactly(Entry(alert, "rule_id"));
    NonBlankExactly(Entry(alert, "host_id"));
  }

  /** A match is a listed rule id, a listed prefix of the rule id, or a listed tactic. */
  lemma MatchesExactly(m: PolicyMatch, alert: Object)
    ensures Matches(m, alert)
        <==> || (exists id :: id in m.ruleIds && Get(alert, "rule_id") == Str(id))
             || (exists prefix, rest :: prefix in m.rulePrefixes && Get(alert, "rule_id") == Str(prefix + rest))
             || (exists tactic :: tactic in m.mitreTactics && Get(alert, "mitre_tactic") == Str(tactic))
  {
    var rule := Get(alert, "rule_id");
    if rule.Str? && exists p :: p in m.rulePrefixes && p <= rule.s {
      var p :| p in m.rulePrefixes && p <= rule.s;
      assert rule == Str(p + rule.s[|p|..]);
    }
    forall prefix, rest | prefix in m.rulePrefixes && rule == Str(prefix + rest)
      ensures Matches(m, alert)
    {
      assert prefix <= rule.s;
    }
  }

  /** The alert's confidence is a number of at least this. */
  ghost predicate ConfidentBy(alert: Object, least: real) {
    || (exists i: int :: Get(alert, "confidence") == Int(i) && i as real >= least)
    || (exists r :: Get(alert, "confidence") == Real(r) && r >= least)
  }

  /** The gates of a policy, as conditions on the alert's own entries. */
  lemma GatesExactly(p: ResponsePolicy, alert: Object)
    requires FindProblem(Dict(alert)).None?
    ensures GatesPass(p, alert)
        <==> && (exists level :: level >= p.minLevel && Get(alert, "level") == Int(level))
             && (p.minConfidence.Some? ==> ConfidentBy(alert, p.minConfidence.value))
             && (forall key :: key in p.requiredEvidence ==> !LacksEvidence(alert, key))
             && (exists source :: source in p.detectionSources && Get(alert, "detection_source") == Str(source))
             && (p.hostAllowlist == [] || exists host :: host in p.hostAllowlist && Get(alert, "host_id") == Str(host))
  {
    assert forall key :: Evidence(alert, key) == Entry(Get(alert, "evidence"), key);
  }

  /** The alert's value for a required key is missing or empty. */
  predicate LacksEvidence(alert: Object, key: string) {
    Entry(Get(alert, "evidence"), key) in {Null, Str(""), List([]), Dict(map[])}
  }

  /** Which failures are reported, each as a condition on the alert's own entries. */
  lemma FailuresExactly(p: ResponsePolicy, alert: Object, f: GateFailure)
    requires FindProblem(Dict(alert)).None?
    ensures f in Failures(p, alert)
        <==> match f
             case LevelBelow => forall level :: level >= p.minLevel ==> Get(alert, "level") != Int(level)
             case NoConfidence =>
               p.minConfidence.Some? && !Get(alert, "confidence").Int? && !Get(alert, "confidence").Real?
             case ConfidenceBelow =>
               && p.minConfidence.Some? && !ConfidentBy(alert, p.minConfidence.value)
               && (Get(alert, "confidence").Int? || Get(alert, "confidence").Real?)
             case EvidenceMissing(key) => key in p.requiredEvidence && LacksEvidence(alert, key)
             case SourceNotEligible =>
               forall source :: source in p.detectionSources ==> Get(alert, "detection_source") != Str(source)
             case HostOutOfScope =>
               p.hostAllowlist != [] && forall host :: host in p.hostAllowlist ==> Get(alert, "host_id") != Str(host)
  {
    assert forall key :: Evidence(alert, key) == Entry(Get(alert, "evidence"), key);
    MissingOnly(p.requiredEvidence, alert, f);
    if f.EvidenceMissing? {
      MissingEvidenceExactly(p.requiredEvidence, alert, f.key);
    }
  }

  lemma {:induction false} MissingOnly(keys: seq<string>, alert: Object, f: GateFailure)
    ensures f in MissingEvidence(keys, alert) ==> f.EvidenceMissing?
  {
    if keys != [] {
      MissingOnly(keys[1..], alert, f);
    }
  }

  // ---- the fields of a decision ----

  /** Previews and execution follow the mode, and the decision repeats the command and the effective global mode. */
  lemma FlagsFollowMode(alert: Json, command: Option<string>, policies: seq<ResponsePolicy>, mode: string)
    ensures var d := Decide(alert, command, policies, mode);
            && (d.simulate <==> d.mode.Simulate? || d.mode.Approval?)
            && (d.autoExecute <==> d.mode.Auto?)
            && d.action == command
            && d.globalMode == (if mode == "enforce" then Enforcing else Simulating)
  {
  }

  /** Which decision stands for an alert that no policy is asked about. */
  lemma UnansweredAlerts(alert: Json, command: Option<string>, policies: seq<ResponsePolicy>, mode: string)
    requires !Eligible(alert, command)
    ensures var d := Decide(alert, command, policies, mode);
            && d.cooldown == 0
            && d.policyId == (if FindProblem(alert).Some? then "validation"
                              else if command.None? then "default-tier"
                              else if ParseAction(command.value).None? then "validation"
                              else "loop-guard")
            && d.mode == (if FindProblem(alert).None? && command.None? then Record else Denied)
            && d.reasons == [if FindProblem(alert).Some? then Malformed(FindProblem(alert).value)
                             else if command.None? then NoTranslation
                             else if ParseAction(command.value).None? then OutsideClosedSet
                             else OwnActivity]
  {
  }

  /** Without a policy, the two read-only collections run, and everything else is approved or only previewed. */
  lemma DefaultTierExactly(alert: Json, name: string, policies: seq<ResponsePolicy>, mode: string)
    requires Eligible(alert, Some(name))
    requires forall p :: p in policies ==> !Applies(p, alert.fields, ParseAction(name).value)
    ensures var d := Decide(alert, Some(name), policies, mode);
            && d.policyId == "default-tier" && d.cooldown == 300
            && d.mode == (if name == "COLLECT_PROCESS_INFO" || name == "COLLECT_NETWORK_CONNECTIONS" then Auto
                          else if mode == "enforce" then Approval
                          else Simulate)
            && d.reasons == [NoPolicyMatched(ClassifyTier(name))] + (if d.mode == Simulate then [PreviewedOnly] else [])
  {
    AutoSafeExactly(name);
    FirstApplyingSkips(policies, [], alert.fields, ParseAction(name).value);
    assert policies + [] == policies;
  }

  lemma ReasonsOfGates(failures: seq<GateFailure>, f: GateFailure)
    ensures GateFailed(f) in GateReasons(failures) <==> f in failures
    ensures AutoDowngraded !in GateReasons(failures) && PreviewedOnly !in GateReasons(failures)
  {
    if f in failures {
      var i :| 0 <= i < |failures| && failures[i] == f;
      assert GateReasons(failures)[i] == GateFailed(f);
    }
  }

  /** A policy's decision names the policy, then every failed gate, or each restriction that changed the mode. */
  lemma ReasonsExactly(p: ResponsePolicy, alert: Object, name: string, g: GlobalMode, f: GateFailure)
    ensures var d, safe := DecideBy(Some(p), alert, name, g), ClassifyTier(name) == AutoSafe;
            && d.reasons != [] && d.reasons[0] == Matched(p.policyId)
            && (GateFailed(f) in d.reasons <==> f in Failures(p, alert))
            && (AutoDowngraded in d.reasons <==> GatesPass(p, alert) && p.mode == Auto && !safe)
            && (PreviewedOnly in d.reasons
                <==> GatesPass(p, alert) && g == Simulating && (p.mode == Approval || (p.mode == Auto && !safe)))
            && (d.mode != p.mode ==> |d.reasons| > 1)
  {
    NoFailuresIffGatesPass(p, alert);
    ReasonsOfGates(Failures(p, alert), f);
  }

  /** The policy taken is the first that matches the alert and declares the translated action. */
  lemma {:induction false} FirstApplyingExactly(policies: seq<ResponsePolicy>, alert: Object, action: Action,
                                                p: ResponsePolicy)
    ensures FirstApplying(policies, alert, action) == Some(p)
        <==> exists before, after ::
               && policies == before + [p] + after && Matches(p.match_, alert) && p.action == action
               && forall q :: q in before ==> !Matches(q.match_, alert) || q.action != action
  {
    if policies != [] && FirstApplying(policies, alert, action) == Some(p) {
      if Applies(policies[0], alert, action) {
        assert policies == [] + [p] + policies[1..];
      } else {
        FirstApplyingExactly(policies[1..], alert, action, p);
        var before, after :|
          && policies[1..] == before + [p] + after
          && forall q :: q in before ==> !Matches(q.match_, alert) || q.action != action;
        assert policies == ([policies[0]] + before) + [p] + after;
      }
    }
    forall before, after | && policies == before + [p] + after && Matches(p.match_, alert) && p.action == action
                           && forall q :: q in before ==> !Matches(q.match_, alert) || q.action != action
      ensures FirstApplying(policies, alert, action) == Some(p)
    {
      FirstApplyingTaken(before, p, after, alert, action);
    }
  }

  lemma FirstApplyingTaken(before: seq<ResponsePolicy>, p: ResponsePolicy, after: seq<ResponsePolicy>, alert: Object,
                           action: Action)
    requires Applies(p, alert, action) && forall q :: q in before ==> !Applies(q, alert, action)
    ensures FirstApplying(before + [p] + after, alert, action) == Some(p)
  {
    FirstApplyingSkips(before, [p] + after, alert, action);
    assert before + ([p] + after) == before + [p] + after;
  }

  // ---- what may run on its own ----

  /** The alert reaches policy: it is well formed, its action is in the closed set, and it is not the executor's own. */
  predicate Eligible(alert: Json, command: Option<string>) {
    && FindProblem(alert).None? && command.Some? && ParseAction(command.value).Some?
    && !DescribesOwnActivity(alert.fields)
  }

  /**
   Automatic execution happens exactly for an eligible AUTO_SAFE action that no policy claims, or whose
   claiming policy is automatic and has every gate open.
   */
  lemma AutoExecutesExactly(alert: Json, command: Option<string>, policies: seq<ResponsePolicy>, mode: string)
    ensures Decide(alert, command, policies, mode).autoExecute
        <==> Eligible(alert, command) && ClassifyTier(command.value) == AutoSafe
             && match FirstApplying(policies, alert.fields, ParseAction(command.value).value)
                case None => true
                case Some(p) => p.mode == Auto && GatesPass(p, alert.fields)
  {
    if Eligible(alert, command) {
      var policy := FirstApplying(policies, alert.fields, ParseAction(command.value).value);
      if policy.Some? {
        NoFailuresIffGatesPass(policy.value, alert.fields);
      }
    }
  }

  /** The command that a recommendation asks for, by name; None when it does not translate. */
  function TranslatedName(action: string, recommendation: Object, context: Json, sha: LinuxIdentity.Sha256)
    : Option<string>
  {
    match Recommendation.Translate(action, recommendation, context, sha)
    case None => None
    case Some((a, _)) => Some(Name(a))
  }

  /** From recommendation to decision, only the two read-only collections ever run without an analyst. */
  lemma OnlySafeCollectionsAutoExecute(action: string, recommendation: Object, context: Json, sha: LinuxIdentity.Sha256,
                                       alert: Json, policies: seq<ResponsePolicy>, mode: string)
    ensures var d := Decide(alert, TranslatedName(action, recommendation, context, sha), policies, mode);
            && (d.autoExecute ==> action == "COLLECT_PROCESS_INFO" || action == "COLLECT_NETWORK_CONNECTIONS")
            && (d.autoExecute ==> d.action == Some(action))
  {
    var t := Recommendation.Translate(action, recommendation, context, sha);
    AutoExecutesExactly(alert, TranslatedName(action, recommendation, context, sha), policies, mode);
    if t.Some? {
      ParseActionExact(Name(t.value.0), t.value.0);
    }
  }

  lemma SimulatingPreviews(policy: Option<ResponsePolicy>, alert: Object, name: string)
    ensures var d, e := DecideBy(policy, alert, name, Simulating), DecideBy(policy, alert, name, Enforcing);
            && d.mode != Approval
            && d.mode == (if e.mode == Approval then Simulate else e.mode)
            && d.simulate == e.simulate && d.autoExecute == e.autoExecute
  {
  }

  /** Approval needs the enforcing mode; under any other mode text the same decision is only previewed. */
  lemma SimulationPreviewsApprovals(alert: Json, command: Option<string>, policies: seq<ResponsePolicy>, mode: string)
    requires mode != "enforce"
    ensures var d, e := Decide(alert, command, policies, mode), Decide(alert, command, policies, "enforce");
            && d.mode != Approval
            && d.mode == (if e.mode == Approval then Simulate else e.mode)
            && d.simulate == e.simulate && d.autoExecute == e.autoExecute
  {
    if Eligible(alert, command) {
      var policy := FirstApplying(policies, alert.fields, ParseAction(command.value).value);
      SimulatingPreviews(policy, alert.fields, command.value);
    }
  }

  // ---- which policies matter ----

  lemma {:induction false} FirstApplyingSkips(before: seq<ResponsePolicy>, rest: seq<ResponsePolicy>, alert: Object,
                                             action: Action)
    requires forall p :: p in before ==> !Applies(p, alert, action)
    ensures FirstApplying(before + rest, alert, action) == FirstApplying(rest, alert, action)
  {
    if before == [] {
      assert before + rest == rest;
    } else {
      assert before[0] in before && (before + rest)[1..] == before[1..] + rest;
      FirstApplyingSkips(before[1..], rest, alert, action);
    }
  }

  /** Policies that do not apply before the first that does, and every policy after it, leave the decision alone. */
  lemma OnlyFirstApplyingPolicyDecides(alert: Json, command: string, before: seq<ResponsePolicy>, p: ResponsePolicy,
                                       after: seq<ResponsePolicy>, mode: string)
    requires FindProblem(alert).None? && ParseAction(command).Some?
    requires var action := ParseAction(command).value;
             (forall q :: q in before ==> !Applies(q, alert.fields, action)) && Applies(p, alert.fields, action)
    ensures Decide(alert, Some(command), before + [p] + after, mode) == Decide(alert, Some(command), [p], mode)
  {
    assert before + [p] + after == before + ([p] + after);
    FirstApplyingSkips(before, [p] + after, alert.fields, ParseAction(command).value);
  }

  function Rank(m: Mode): nat {
    match m
    case Denied => 0
    case Record => 1
    case Simulate => 2
    case Approval => 3
    case Auto => 4
  }

  /**
   The policy that applies sets the mode, and code only takes away from it: a failed gate leaves a record,
   a tier above AUTO_SAFE turns automatic into approval, and simulation turns approval into a preview.
   */
  lemma PolicyIsOnlyRestricted(alert: Json, command: Option<string>, policies: seq<ResponsePolicy>, mode: string)
    requires Eligible(alert, command)
    requires FirstApplying(policies, alert.fields, ParseAction(command.value).value).Some?
    ensures var p, d := FirstApplying(policies, alert.fields, ParseAction(command.value).value).value,
                        Decide(alert, command, policies, mode);
            && d.policyId == p.policyId && d.cooldown == p.cooldown
            && Rank(d.mode) <= Rank(p.mode)
            && (d.mode == Record <==> p.mode == Record || !GatesPass(p, alert.fields))
            && (d.mode == Approval
                <==> GatesPass(p, alert.fields) && mode == "enforce"
                     && (p.mode == Approval || (p.mode == Auto && ClassifyTier(command.value) != AutoSafe)))
  {
    NoFailuresIffGatesPass(FirstApplying(policies, alert.fields, ParseAction(command.value).value).value, alert.fields);
  }

  // ---- raising an alert ----

  /** The same alert but for a level and a confidence at least as high; an absent confidence may stay absent. */
  ghost predicate Raised(alert: Object, raised: Object) {
    && (forall k :: k != "level" && k != "confidence" ==> Get(raised, k) == Get(alert, k))
    && Get(alert, "level").Int? && Get(raised, "level").Int?
    && Get(alert, "level").i <= Get(raised, "level").i <= 16
    && (Confidence(alert).Some? ==> Confidence(raised).Some? && Confidence(alert).value <= Confidence(raised).value)
  }

  lemma RaisedReadsAlike(alert: Object, raised: Object)
    requires Raised(alert, raised)
    ensures Get(raised, "rule_id") == Get(alert, "rule_id") && Get(raised, "host_id") == Get(alert, "host_id")
    ensures Get(raised, "alert_id") == Get(alert, "alert_id") && Get(raised, "evidence") == Get(alert, "evidence")
    ensures Get(raised, "mitre_tactic") == Get(alert, "mitre_tactic")
    ensures Get(raised, "detection_source") == Get(alert, "detection_source")
  {
  }

  lemma {:induction false} RaisedFindsSamePolicy(policies: seq<ResponsePolicy>, alert: Object, raised: Object,
                                               action: Action)
    requires Raised(alert, raised)
    ensures FirstApplying(policies, raised, action) == FirstApplying(policies, alert, action)
  {
    RaisedReadsAlike(alert, raised);
    if policies != [] {
      RaisedFindsSamePolicy(policies[1..], alert, raised, action);
    }
  }

  lemma RaisedKeepsGatesOpen(p: ResponsePolicy, alert: Object, raised: Object)
    requires Raised(alert, raised) && GatesPass(p, alert)
    ensures GatesPass(p, raised)
  {
    RaisedReadsAlike(alert, raised);
    assert forall key :: Evidence(raised, key) == Evidence(alert, key);
  }

  /**
   Raising a well-formed alert's level or confidence never weakens the decision, and changes it only by
   opening a gate.
   */
  lemma RaisingNeverWeakens(alert: Object, raised: Object, command: Option<string>, policies: seq<ResponsePolicy>,
                            mode: string)
    requires FindProblem(Dict(alert)).None? && Raised(alert, raised)
    ensures var d, e := Decide(Dict(alert), command, policies, mode), Decide(Dict(raised), command, policies, mode);
            && Rank(d.mode) <= Rank(e.mode)
            && (d.mode != e.mode ==> d.mode == Record)
  {
    RaisedReadsAlike(alert, raised);
    assert FindProblem(Dict(raised)).None?;
    if Eligible(Dict(alert), command) {
      var action := ParseAction(command.value).value;
      RaisedFindsSamePolicy(policies, alert, raised, action);
      var policy := FirstApplying(policies, alert, action);
      if policy.Some? {
        NoFailuresIffGatesPass(policy.value, alert);
        NoFailuresIffGatesPass(policy.value, raised);
        if GatesPass(policy.value, alert) {
          RaisedKeepsGatesOpen(policy.value, alert, raised);
        }
      }
    }
  }
}
