/** Advisory forensic collection plans (response_engine/forensics.py). */
module Forensics {
  import opened Wrappers
  import opened Json
  import opened Decimal
  import opened Contract
  import opened Recommendation
  import LinuxIdentity
  import Artifacts
  import Paths
  import Triage
  import Signing
  import SigningInverse

  // ---- requests ----

  /** The White_Space property, as the pattern \S reads it. */
  predicate IsWhiteSpace(c: char) {
    var v := c as int;
    || 9 <= v <= 13 || v == 32 || v == 0x85 || v == 0xA0 || v == 0x1680 || 0x2000 <= v <= 0x200A
    || v == 0x2028 || v == 0x2029 || v == 0x202F || v == 0x205F || v == 0x3000
  }

  predicate IsIdentifier(s: string, max: nat) {
    1 <= |s| <= max && exists i :: 0 <= i < |s| && !IsWhiteSpace(s[i])
  }

  predicate IsOptionalIdentifier(s: Option<string>) {
    s.Some? ==> IsIdentifier(s.value, 128)
  }

  datatype ProcessIdentity = ProcessIdentity(pid: int, ticks: int, boot: Option<string>)

  predicate ProcessAccepted(p: ProcessIdentity) {
    1 <= p.pid <= MAX_UINT32 && 1 <= p.ticks <= MAX_UINT64 && (p.boot.Some? ==> IsBootIdentity(p.boot.value))
  }

  datatype EvidenceReference = EvidenceReference(sourceId: string, sourceRecordId: string, manifest: Artifacts.Manifest)

  datatype Context = Context(
    alertId: string, agentId: string, hostId: string, sourceId: string, sourceRecordId: string, ruleId: Option<string>,
    recommendationId: Option<string>, evidence: seq<EvidenceReference>)

  predicate ReferenceAccepted(r: EvidenceReference) {
    IsIdentifier(r.sourceId, 128) && IsIdentifier(r.sourceRecordId, 128) && Artifacts.ManifestAccepted(r.manifest)
  }

  /** All evidence comes from this endpoint, and no artifact is cited twice. */
  predicate EvidenceScoped(evidence: seq<EvidenceReference>, agentId: string, hostId: string) {
    && (forall i :: 0 <= i < |evidence| ==>
          evidence[i].manifest.agentId == agentId && evidence[i].manifest.hostId == hostId)
    && (forall i, j :: 0 <= i < j < |evidence| ==> evidence[i].manifest.artifactId != evidence[j].manifest.artifactId)
  }

  predicate ContextFieldsAccepted(c: Context) {
    && IsIdentifier(c.alertId, 128) && IsIdentifier(c.agentId, 128) && IsIdentifier(c.hostId, 256)
    && IsIdentifier(c.sourceId, 128) && IsIdentifier(c.sourceRecordId, 128)
    && IsOptionalIdentifier(c.ruleId) && IsOptionalIdentifier(c.recommendationId)
    && |c.evidence| <= 32 && forall r :: r in c.evidence ==> ReferenceAccepted(r)
  }

  /** consistent_evidence_scope */
  method ConsistentEvidenceScope(c: Context) returns (ok: bool)
    ensures ok <==> EvidenceScoped(c.evidence, c.agentId, c.hostId)
  {
    var identities: set<string> := {};
    for i := 0 to |c.evidence|
      invariant EvidenceScoped(c.evidence[..i], c.agentId, c.hostId)
      invariant forall id :: id in identities <==> exists j :: 0 <= j < i && c.evidence[j].manifest.artifactId == id
    {
      var manifest := c.evidence[i].manifest;
      if manifest.agentId != c.agentId || manifest.hostId != c.hostId {
        return false;
      }
      if manifest.artifactId in identities {
        return false;
      }
      identities := identities + {manifest.artifactId};
    }
    assert c.evidence[..|c.evidence|] == c.evidence;
    ok := true;
  }

  datatype Request = Request(
    requestId: string, action: Triage.CollectAction, context: Context, process: Option<ProcessIdentity>,
    file: Option<Triage.ApprovedFile>)

  /** exact_collection_target: the target is present exactly when the action needs it. */
  predicate ExactTarget(q: Request) {
    (q.process.Some? <==> q.action == Triage.CollectProcessInfo) && (q.file.Some? <==> q.action == Triage.CollectFile)
  }

  predicate RequestAccepted(q: Request) {
    && IsIdentifier(q.requestId, 128)
    && ContextFieldsAccepted(q.context) && EvidenceScoped(q.context.evidence, q.context.agentId, q.context.hostId)
    && (q.process.Some? ==> ProcessAccepted(q.process.value))
    && (q.file.Some? ==> Paths.Approved(q.file.value.platform, q.file.value.path))
    && ExactTarget(q)
  }

  // ---- policies ----

  datatype CollectionPolicy = CollectionPolicy(
    policyId: string, version: int, enabled: bool, allowed: seq<Triage.CollectAction>,
    requireApproval: seq<Triage.CollectAction>)

  predicate Unique(actions: seq<Triage.CollectAction>) {
    forall i, j :: 0 <= i < j < |actions| ==> actions[i] != actions[j]
  }

  predicate PolicyAccepted(p: CollectionPolicy) {
    && IsIdentifier(p.policyId, 128) && 1 <= p.version <= 2147483647
    && |p.allowed| <= 3 && |p.requireApproval| <= 3 && Unique(p.allowed) && Unique(p.requireApproval)
  }

  function ParseAsset(s: string): Option<Triage.AssetClass> {
    if s == "standard" then Some(Triage.Standard)
    else if s == "critical" then Some(Triage.Critical)
    else if s == "unknown" then Some(Triage.Unknown)
    else None
  }

  // ---- the accepted inputs, field by field ----

  lemma WhiteSpaceExactly(c: char)
    ensures IsWhiteSpace(c)
        <==> c as int in {0x09, 0x0A, 0x0B, 0x0C, 0x0D, 0x20, 0x85, 0xA0, 0x1680, 0x2000, 0x2001, 0x2002, 0x2003, 0x2004,
                          0x2005, 0x2006, 0x2007, 0x2008, 0x2009, 0x200A, 0x2028, 0x2029, 0x202F, 0x205F, 0x3000}
  {
  }

  /** A text of at most this many characters that is not all white space. */
  ghost predicate Identifies(s: string, max: nat) {
    |s| <= max && exists a, c, b :: s == a + [c] + b && !IsWhiteSpace(c)
  }

  lemma IdentifierExactly(s: string, max: nat)
    ensures IsIdentifier(s, max) <==> Identifies(s, max)
  {
    if IsIdentifier(s, max) {
      var i :| 0 <= i < |s| && !IsWhiteSpace(s[i]);
      assert s == s[..i] + [s[i]] + s[i + 1..];
    }
    forall a, c, b | s == a + [c] + b && !IsWhiteSpace(c)
      ensures exists i :: 0 <= i < |s| && !IsWhiteSpace(s[i])
    {
      assert s[|a|] == c;
    }
  }

  /** A process identity is a uint32 pid and uint64 ticks, both positive, and a boot digest if it has one. */
  lemma ProcessAcceptedExactly(p: ProcessIdentity)
    ensures ProcessAccepted(p)
        <==> && 0 < p.pid < 4294967296 && 0 < p.ticks < 18446744073709551616
             && (p.boot == None || exists h :: Hex64(h) && p.boot == Some("boot_" + h))
  {
    if p.boot.Some? {
      if IsBootIdentity(p.boot.value) {
        BootDigestText(p.boot.value);
      }
      forall h | Hex64(h) && p.boot == Some("boot_" + h)
        ensures IsBootIdentity(p.boot.value)
      {
        Hex64Exactly(h);
        assert ("boot_" + h)[..5] == "boot_" && ("boot_" + h)[5..] == h;
      }
    }
  }

  ghost predicate Cites(r: EvidenceReference) {
    Identifies(r.sourceId, 128) && Identifies(r.sourceRecordId, 128) && Artifacts.ManifestAccepted(r.manifest)
  }

  lemma ReferenceExactly(r: EvidenceReference)
    ensures ReferenceAccepted(r) <==> Cites(r)
  {
    IdentifierExactly(r.sourceId, 128);
    IdentifierExactly(r.sourceRecordId, 128);
  }

  /** The accepted contexts, apart from the scope of their evidence. */
  lemma ContextFieldsExactly(c: Context)
    ensures ContextFieldsAccepted(c)
        <==> && Identifies(c.alertId, 128) && Identifies(c.agentId, 128) && Identifies(c.hostId, 256)
             && Identifies(c.sourceId, 128) && Identifies(c.sourceRecordId, 128)
             && (c.ruleId == None || Identifies(c.ruleId.value, 128))
             && (c.recommendationId == None || Identifies(c.recommendationId.value, 128))
             && |c.evidence| < 33 && forall r :: r in c.evidence ==> Cites(r)
  {
    forall s
      ensures IsIdentifier(s, 128) <==> Identifies(s, 128)
    {
      IdentifierExactly(s, 128);
    }
    IdentifierExactly(c.hostId, 256);
    forall r
      ensures ReferenceAccepted(r) <==> Cites(r)
    {
      ReferenceExactly(r);
    }
  }

  /** What an accepted request is, given the acceptance of its parts. */
  lemma RequestAcceptedExactly(q: Request)
    ensures RequestAccepted(q)
        <==> && Identifies(q.requestId, 128)
             && ContextFieldsAccepted(q.context)
             && EvidenceScoped(q.context.evidence, q.context.agentId, q.context.hostId)
             && match q.action
                case CollectProcessInfo => q.file == None && q.process.Some? && ProcessAccepted(q.process.value)
                case CollectNetworkConnections => q.file == None && q.process == None
                case CollectFile =>
                  q.process == None && q.file.Some? && Paths.Approved(q.file.value.platform, q.file.value.path)
  {
    IdentifierExactly(q.requestId, 128);
  }

  /** A policy is accepted with an identifier, a positive int32 version and two lists without repetition. */
  lemma PolicyAcceptedExactly(p: CollectionPolicy)
    ensures PolicyAccepted(p)
        <==> && Identifies(p.policyId, 128) && 0 < p.version < 2147483648
             && |set a | a in p.allowed| == |p.allowed| < 4
             && |set a | a in p.requireApproval| == |p.requireApproval| < 4
  {
    IdentifierExactly(p.policyId, 128);
    Triage.DistinctElements(p.allowed);
    Triage.DistinctElements(p.requireApproval);
  }

  // ---- plans ----

  datatype PlanDecision = Recommend | RequireApproval | Skip

  datatype PlanReason =
    | PolicyDisabled | ActionNotAllowed | AssetRequiresApproval | CollectionRequiresApproval | CollectionRecommended

  datatype Plan = Plan(
    request: Request, policyId: string, policyVersion: int, asset: Triage.AssetClass, decision: PlanDecision,
    reason: PlanReason, tier: Tier, kind: Artifacts.Kind, schema: string, target: Object)

  datatype PlanError = RequestInvalid | PolicyInvalid | AssetUnknown | ProcessUntranslatable

  function KindOf(a: Triage.CollectAction): Artifacts.Kind {
    match a
    case CollectProcessInfo => Artifacts.ProcessSnapshot
    case CollectNetworkConnections => Artifacts.NetworkSnapshot
    case CollectFile => Artifacts.FileMetadata
  }

  /** The recommendation that a plan's process identity is translated from. */
  function IdentityRecommendation(p: ProcessIdentity): Object {
    map["target_pid" := Int(p.pid), "target_start_time_ticks" := Int(p.ticks)]
  }

  /** A plan's command names exactly the process or file that was asked for, in the schema its identity allows. */
  predicate NamesRequest(schema: string, target: Object, q: Request) {
    match q.action
    case CollectProcessInfo =>
      && q.process.Some?
      && Get(target, "pid") == Int(q.process.value.pid)
      && (match q.process.value.boot
          case None => schema == "1" && Get(target, "start_time_ticks") == Int(q.process.value.ticks)
          case Some(boot) =>
            && schema == "2" && Get(target, "boot_id") == Str(boot)
            && Get(target, "start_time_ticks").Str? && AllDigits(target["start_time_ticks"].s)
            && Read(target["start_time_ticks"].s) == q.process.value.ticks)
    case CollectNetworkConnections => schema == "1" && target == map[]
    case CollectFile => q.file.Some? && schema == "1" && Get(target, "path") == Str(q.file.value.path)
  }

  /** The body of the command for a request: schema version and target. */
  method PlanBody(q: Request, sha: LinuxIdentity.Sha256) returns (body: Option<(string, Object)>)
    requires RequestAccepted(q)
    ensures body.Some?
    ensures NamesRequest(body.value.0, body.value.1, q)
    ensures TargetAccepted(body.value.0, Triage.Wire(q.action), body.value.1, true)
  {
    var target: Object, schema := map[], "1";
    if q.process.Some? {
      var identity := q.process.value;
      var mapped := Translate("COLLECT_PROCESS_INFO", IdentityRecommendation(identity), Null, sha);
      if mapped.None? {
        return None;
      }
      target := mapped.value.1;
      if identity.boot.Some? {
        PrintIsUint64Text(identity.ticks);
        schema := "2";
        target := map["pid" := Int(identity.pid), "start_time_ticks" := Str(Print(identity.ticks)),
                      "boot_id" := Str(identity.boot.value)];
      }
    } else if q.file.Some? {
      target := map["path" := Str(q.file.value.path)];
    }
    body := Some((schema, target));
  }

  lemma KindTextOfAction(action: Triage.CollectAction)
    ensures Artifacts.KindText(KindOf(action)) == (match action
                                                   case CollectProcessInfo => "process_snapshot"
                                                   case CollectNetworkConnections => "network_snapshot"
                                                   case CollectFile => "file_metadata")
  {
  }

  /** Of the three collections, only a file collection waits for an analyst by its name alone. */
  lemma TierOfWire(action: Triage.CollectAction)
    ensures ClassifyTier(Name(Triage.Wire(action))) == AutoSafe <==> action != Triage.CollectFile
  {
    Triage.WireNames(action);
    AutoSafeExactly(Name(Triage.Wire(action)));
  }

  /** plan_forensic_collection */
  method PlanCollection(q: Request, p: CollectionPolicy, assetName: string, sha: LinuxIdentity.Sha256)
    returns (r: Result<Plan, PlanError>)
    ensures r.Success? <==> RequestAccepted(q) && PolicyAccepted(p) && assetName in {"standard", "critical", "unknown"}
    ensures r.Failure? ==> r.error == if !RequestAccepted(q) then RequestInvalid
                                      else if !PolicyAccepted(p) then PolicyInvalid
                                      else AssetUnknown
    ensures r.Success? ==>
              var plan := r.value;
              && plan.request == q && plan.policyId == p.policyId && plan.policyVersion == p.version
              && plan.asset == (match assetName
                                case "standard" => Triage.Standard
                                case "critical" => Triage.Critical
                                case _ => Triage.Unknown)
              && plan.kind == KindOf(q.action)
              && NamesRequest(plan.schema, plan.target, q)
              && TargetAccepted(plan.schema, Triage.Wire(q.action), plan.target, true)
              && (plan.tier == AutoSafe
                  <==> q.action != Triage.CollectFile && assetName == "standard" && q.action !in p.requireApproval)
              && (plan.decision == Recommend
                  <==> p.enabled && q.action in p.allowed && plan.asset == Triage.Standard && plan.tier == AutoSafe)
              && (plan.decision == Skip <==> !p.enabled || q.action !in p.allowed)
              && plan.reason == (if !p.enabled then PolicyDisabled
                                 else if q.action !in p.allowed then ActionNotAllowed
                                 else if plan.asset != Triage.Standard then AssetRequiresApproval
                                 else if plan.tier == AnalystApproval then CollectionRequiresApproval
                                 else CollectionRecommended)
  {
    if !RequestAccepted(q) {
      return Failure(RequestInvalid);
    }
    if !PolicyAccepted(p) {
      return Failure(PolicyInvalid);
    }
    var asset := ParseAsset(assetName);
    if asset.None? {
      return Failure(AssetUnknown);
    }
    var body := PlanBody(q, sha);
    if body.None? {
      return Failure(ProcessUntranslatable);
    }
    TierOfWire(q.action);
    var tier := ClassifyTier(Name(Triage.Wire(q.action)));
    if asset.value != Triage.Standard || q.action in p.requireApproval {
      tier := AnalystApproval;
    }
    var decision, reason := Recommend, CollectionRecommended;
    if !p.enabled {
      decision, reason := Skip, PolicyDisabled;
    } else if q.action !in p.allowed {
      decision, reason := Skip, ActionNotAllowed;
    } else if asset.value != Triage.Standard {
      decision, reason := RequireApproval, AssetRequiresApproval;
    } else if tier == AnalystApproval {
      decision, reason := RequireApproval, CollectionRequiresApproval;
    }
    var (schema, target) := body.value;
    r := Success(Plan(q, p.policyId, p.version, asset.value, decision, reason, tier, KindOf(q.action), schema, target));
  }

  /**
   Signed bytes of planned commands, under any ids and times, never confuse two requests: equal bytes, or
   one a prefix of the other, mean the same action on the same process or file path.
   */
  lemma SignedPlansNameOneTarget(q: Request, v: Signing.Signed, q': Request, v': Signing.Signed)
    requires RequestAccepted(q) && NamesRequest(v.schema, v.target, q) && v.action == Triage.Wire(q.action)
    requires RequestAccepted(q') && NamesRequest(v'.schema, v'.target, q') && v'.action == Triage.Wire(q'.action)
    requires Signing.WellFormed(v) && Signing.WellFormed(v')
    requires Signing.Render(v) <= Signing.Render(v')
    ensures q.action == q'.action && q.process == q'.process
    ensures q.file.Some? ==> q'.file.Some? && q.file.value.path == q'.file.value.path
  {
    SigningInverse.CommandsPrefixFree(v, v');
  }
}
