/**
 Collection-only triage (response_engine/triage.py): one policy decision an alert, restricted by endpoint
 capability, exact target and budget.
 */
module Triage {
  import opened Wrappers
  import opened Paths
  import Contract

  datatype CollectAction = CollectProcessInfo | CollectNetworkConnections | CollectFile

  datatype AssetClass = Standard | Critical | Unknown

  datatype Decision = Skip | RequireApproval | AutoDispatch

  function Strength(d: Decision): nat {
    match d
    case Skip => 0
    case RequireApproval => 1
    case AutoDispatch => 2
  }

  const RESERVATION: nat := 1048576
  const MAX_ACTIVE_GLOBAL: nat := 128

  datatype Budget = Budget(
    reservedBytesPerAction: nat, maxActionsPerAlert: nat, maxBytesPerAlert: nat, endpointWindowSeconds: nat,
    maxActionsPerWindow: nat, maxBytesPerWindow: nat, maxActivePerEndpoint: nat, workflowTtlSeconds: nat)

  predicate BudgetAccepted(b: Budget) {
    && b.reservedBytesPerAction == 1048576
    && 1 <= b.maxActionsPerAlert <= 3
    && 1048576 <= b.maxBytesPerAlert <= 3145728
    && 60 <= b.endpointWindowSeconds <= 86400
    && 1 <= b.maxActionsPerWindow <= 64
    && 1048576 <= b.maxBytesPerWindow <= 67108864
    && 1 <= b.maxActivePerEndpoint <= 8
    && 30 <= b.workflowTtlSeconds <= 900
  }

  datatype ApprovedFile = ApprovedFile(platform: Platform, path: string)

  datatype Entry = Entry(action: CollectAction, asset: AssetClass, decision: Decision, files: seq<ApprovedFile>)

  /** ActionPolicy and its enforce_automation_boundary. */
  predicate EntryAccepted(e: Entry) {
    && |e.files| <= 16
    && (forall f :: f in e.files ==> Approved(f.platform, f.path))
    && (e.asset != Standard ==> e.decision != AutoDispatch)
    && ((e.action == CollectFile && e.decision == AutoDispatch) <==> e.files != [])
    && (forall i, j :: 0 <= i < j < |e.files| ==> e.files[i] != e.files[j])
  }

  datatype Policy = Policy(ruleId: string, version: nat, enabled: bool, entries: seq<Entry>, budget: Budget)

  predicate IsRuleIdChar(c: char) {
    'A' <= c <= 'Z' || 'a' <= c <= 'z' || '0' <= c <= '9' || c == '.' || c == '_' || c == ':' || c == '-'
  }

  /** AutoTriagePolicy and its one_decision_per_action_and_asset_class. */
  predicate PolicyAccepted(p: Policy) {
    && 1 <= |p.ruleId| <= 128 && (forall i :: 0 <= i < |p.ruleId| ==> IsRuleIdChar(p.ruleId[i]))
    && 1 <= p.version <= 2147483647
    && 1 <= |p.entries| <= 9
    && (forall e :: e in p.entries ==> EntryAccepted(e))
    && OnePerKey(p.entries)
    && BudgetAccepted(p.budget)
  }

  predicate SameKey(e: Entry, f: Entry) {
    e.action == f.action && e.asset == f.asset
  }

  predicate OnePerKey(entries: seq<Entry>) {
    forall i, j :: 0 <= i < j < |entries| ==> !SameKey(entries[i], entries[j])
  }

  datatype EndpointMode = Off | DryRun | Enforce

  datatype Capability = Capability(
    platform: Platform, recent: bool, mode: EndpointMode,
    implemented: seq<Contract.Action>, allowed: seq<Contract.Action>,
    authenticatedChannel: bool, acceptanceGate: bool, signedArtifacts: bool)

  datatype Usage = Usage(
    actionsForAlert: nat, bytesForAlert: nat, actionsInWindow: nat, bytesInWindow: nat, activeForEndpoint: nat,
    activeGlobal: nat)

  datatype Reason =
    | RuleDisabled | NoMatchingPolicyEntry | PolicySkip | CapabilityReportNotCurrent | ActionNotSupported
    | EndpointPolicyDenied | EndpointNotEnforcing | AuthenticatedCommandChannelRequired | ExecutionPolicyGateRequired
    | SignedArtifactDeliveryNotSupported | VerifiedProcessIdentityRequired | AlertFileTargetMissing
    | AlertFileTargetInvalid | AlertFileTargetNotAllowlisted | AlertActionBudget | AlertByteBudget
    | EndpointFrequencyBudget | EndpointByteBudget | EndpointConcurrencyBudget | GlobalConcurrencyBudget
    | AssetRequiresApproval | PolicyRequiresApproval | PolicyAutoCollection

  datatype Outcome = Outcome(decision: Decision, reason: Reason)

  function Wire(a: CollectAction): Contract.Action {
    match a
    case CollectProcessInfo => Contract.CollectProcessInfo
    case CollectNetworkConnections => Contract.CollectNetworkConnections
    case CollectFile => Contract.CollectFile
  }

  /** The first entry for this action and asset class. */
  function FindEntry(entries: seq<Entry>, action: CollectAction, asset: AssetClass): Option<Entry> {
    if entries == [] then None
    else if entries[0].action == action && entries[0].asset == asset then Some(entries[0])
    else FindEntry(entries[1..], action, asset)
  }

  /** The first of the six budget checks that is exhausted. */
  function ExhaustedBudget(b: Budget, u: Usage): Option<Reason> {
    if u.actionsForAlert >= b.maxActionsPerAlert then Some(AlertActionBudget)
    else if u.bytesForAlert + RESERVATION > b.maxBytesPerAlert then Some(AlertByteBudget)
    else if u.actionsInWindow >= b.maxActionsPerWindow then Some(EndpointFrequencyBudget)
    else if u.bytesInWindow + RESERVATION > b.maxBytesPerWindow then Some(EndpointByteBudget)
    else if u.activeForEndpoint >= b.maxActivePerEndpoint then Some(EndpointConcurrencyBudget)
    else if u.activeGlobal >= MAX_ACTIVE_GLOBAL then Some(GlobalConcurrencyBudget)
    else None
  }

  /** What an alert asks of an endpoint. */
  datatype Request = Request(action: CollectAction, asset: AssetClass, identityVerified: bool, file: Option<string>)

  /** evaluate */
  function Evaluate(p: Policy, q: Request, c: Capability, u: Usage): Outcome {
    if !p.enabled then Outcome(Skip, RuleDisabled)
    else
      match FindEntry(p.entries, q.action, q.asset)
      case None => Outcome(Skip, NoMatchingPolicyEntry)
      case Some(entry) =>
        if entry.decision == Skip then Outcome(Skip, PolicySkip)
        else if !c.recent then Outcome(Skip, CapabilityReportNotCurrent)
        else if Wire(q.action) !in c.implemented then Outcome(Skip, ActionNotSupported)
        else if Wire(q.action) !in c.allowed then Outcome(Skip, EndpointPolicyDenied)
        else if c.mode != Enforce then Outcome(Skip, EndpointNotEnforcing)
        else if !c.authenticatedChannel then Outcome(Skip, AuthenticatedCommandChannelRequired)
        else if !c.acceptanceGate then Outcome(Skip, ExecutionPolicyGateRequired)
        else if !c.signedArtifacts then Outcome(Skip, SignedArtifactDeliveryNotSupported)
        else if q.action == CollectProcessInfo && !q.identityVerified then Outcome(Skip, VerifiedProcessIdentityRequired)
        else if q.action == CollectFile && (q.file == None || q.file == Some("")) then
          Outcome(Skip, AlertFileTargetMissing)
        else if q.action == CollectFile && !Approved(c.platform, q.file.value) then Outcome(Skip, AlertFileTargetInvalid)
        else if q.action == CollectFile && entry.decision == AutoDispatch
                && ApprovedFile(c.platform, q.file.value) !in entry.files
        then Outcome(Skip, AlertFileTargetNotAllowlisted)
        else
          match ExhaustedBudget(p.budget, u)
          case Some(reason) => Outcome(Skip, reason)
          case None =>
            if q.asset != Standard then Outcome(RequireApproval, AssetRequiresApproval)
            else if entry.decision == RequireApproval then Outcome(RequireApproval, PolicyRequiresApproval)
            else Outcome(entry.decision, PolicyAutoCollection)
  }

  /** A collection action keeps its name on the wire. */
  lemma WireNames(a: CollectAction)
    ensures Contract.Name(Wire(a))
         == match a
            case CollectProcessInfo => "COLLECT_PROCESS_INFO"
            case CollectNetworkConnections => "COLLECT_NETWORK_CONNECTIONS"
            case CollectFile => "COLLECT_FILE"
  {
  }

  // ---- what an evaluation may use, stated without the order of the checks ----

  /** The endpoint lists the action by its own name. */
  predicate Lists(actions: seq<Contract.Action>, a: CollectAction) {
    match a
    case CollectProcessInfo => Contract.CollectProcessInfo in actions
    case CollectNetworkConnections => Contract.CollectNetworkConnections in actions
    case CollectFile => Contract.CollectFile in actions
  }

  /** Some entry of the enabled policy decides this request as d. */
  predicate Decides(p: Policy, q: Request, d: Decision) {
    p.enabled && exists e :: e in p.entries && e.action == q.action && e.asset == q.asset && e.decision == d
  }

  /** The endpoint can run the action now and return signed evidence of it. */
  predicate Capable(c: Capability, a: CollectAction) {
    && c.recent && c.mode == Enforce && c.authenticatedChannel && c.acceptanceGate && c.signedArtifacts
    && Lists(c.implemented, a) && Lists(c.allowed, a)
  }

  /** The request names an exact target; automatic file collection needs that path in the allowlist. */
  predicate Targeted(p: Policy, q: Request, c: Capability) {
    match q.action
    case CollectProcessInfo => q.identityVerified
    case CollectNetworkConnections => true
    case CollectFile =>
      && q.file.Some? && Approved(c.platform, q.file.value)
      && (Decides(p, q, AutoDispatch)
          ==> Allowlists(p, q, ApprovedFile(c.platform, q.file.value)))
  }

  /** Some entry for this request lists the file. */
  predicate Allowlists(p: Policy, q: Request, file: ApprovedFile) {
    exists e :: e in p.entries && e.action == q.action && e.asset == q.asset && file in e.files
  }

  /** One more action and its full reservation stay within all six limits. */
  predicate ReservationFits(b: Budget, u: Usage) {
    WithinLimits(b, Reserved(u))
  }

  function Reserved(u: Usage): Usage {
    Usage(u.actionsForAlert + 1, u.bytesForAlert + 1048576, u.actionsInWindow + 1, u.bytesInWindow + 1048576,
          u.activeForEndpoint + 1, u.activeGlobal + 1)
  }

  predicate WithinLimits(b: Budget, u: Usage) {
    && u.actionsForAlert <= b.maxActionsPerAlert && u.bytesForAlert <= b.maxBytesPerAlert
    && u.actionsInWindow <= b.maxActionsPerWindow && u.bytesInWindow <= b.maxBytesPerWindow
    && u.activeForEndpoint <= b.maxActivePerEndpoint && u.activeGlobal <= 128
  }

  lemma {:induction false} FindEntryExact(entries: seq<Entry>, action: CollectAction, asset: AssetClass, e: Entry)
    requires OnePerKey(entries)
    ensures FindEntry(entries, action, asset) == Some(e) <==> e in entries && e.action == action && e.asset == asset
  {
    if entries != [] {
      FindEntryExact(entries[1..], action, asset, e);
      if e in entries && e != entries[0] {
        assert e in entries[1..];
      }
      if e in entries[1..] {
        var j :| 1 <= j < |entries| && entries[j] == e;
        assert !SameKey(entries[0], entries[j]);
      }
    }
  }

  function DecisionOf(p: Policy, q: Request): Option<Decision> {
    match FindEntry(p.entries, q.action, q.asset)
    case None => None
    case Some(e) => Some(e.decision)
  }

  function FilesOf(p: Policy, q: Request): seq<ApprovedFile> {
    match FindEntry(p.entries, q.action, q.asset)
    case None => []
    case Some(e) => e.files
  }

  /** The entry that is found is the one that decides, and its allowlist the one that counts. */
  lemma FoundEntryDecides(p: Policy, q: Request)
    requires OnePerKey(p.entries)
    ensures FindEntry(p.entries, q.action, q.asset).Some?
        <==> exists e :: e in p.entries && e.action == q.action && e.asset == q.asset
    ensures forall d :: Decides(p, q, d) <==> (p.enabled && DecisionOf(p, q) == Some(d))
    ensures forall f :: Allowlists(p, q, f) <==> f in FilesOf(p, q)
  {
    forall e
      ensures FindEntry(p.entries, q.action, q.asset) == Some(e)
          <==> e in p.entries && e.action == q.action && e.asset == q.asset
    {
      FindEntryExact(p.entries, q.action, q.asset, e);
    }
  }

  /** A request is not skipped exactly when policy, capability, target and budget all allow it. */
  lemma EvaluateExactly(p: Policy, q: Request, c: Capability, u: Usage)
    requires PolicyAccepted(p)
    ensures Evaluate(p, q, c, u).decision != Skip
        <==> (Decides(p, q, RequireApproval) || Decides(p, q, AutoDispatch))
             && Capable(c, q.action) && Targeted(p, q, c) && ReservationFits(p.budget, u)
    ensures Evaluate(p, q, c, u).decision == AutoDispatch ==> Decides(p, q, AutoDispatch) && q.asset == Standard
    ensures Evaluate(p, q, c, u).decision == RequireApproval ==> Decides(p, q, RequireApproval)
  {
    FoundEntryDecides(p, q);
  }

  /** The budget check that a reservation fails is named truthfully, and one is named exactly when some limit fails. */
  lemma BudgetReasonExactly(b: Budget, u: Usage)
    ensures ExhaustedBudget(b, u).None? <==> ReservationFits(b, u)
    ensures ExhaustedBudget(b, u).Some? ==>
              var after := Reserved(u);
              match ExhaustedBudget(b, u).value
              case AlertActionBudget => after.actionsForAlert > b.maxActionsPerAlert
              case AlertByteBudget => after.bytesForAlert > b.maxBytesPerAlert
              case EndpointFrequencyBudget => after.actionsInWindow > b.maxActionsPerWindow
              case EndpointByteBudget => after.bytesInWindow > b.maxBytesPerWindow
              case EndpointConcurrencyBudget => after.activeForEndpoint > b.maxActivePerEndpoint
              case GlobalConcurrencyBudget => after.activeGlobal > 128
              case _ => false
  {
  }

  /** The place of a gate in the chain; the reasons that end the chain come after every gate. */
  function Place(r: Reason): nat {
    match r
    case RuleDisabled => 0
    case NoMatchingPolicyEntry => 1
    case PolicySkip => 2
    case CapabilityReportNotCurrent => 3
    case ActionNotSupported => 4
    case EndpointPolicyDenied => 5
    case EndpointNotEnforcing => 6
    case AuthenticatedCommandChannelRequired => 7
    case ExecutionPolicyGateRequired => 8
    case SignedArtifactDeliveryNotSupported => 9
    case VerifiedProcessIdentityRequired => 10
    case AlertFileTargetMissing => 11
    case AlertFileTargetInvalid => 12
    case AlertFileTargetNotAllowlisted => 13
    case AlertActionBudget => 14
    case AlertByteBudget => 15
    case EndpointFrequencyBudget => 16
    case EndpointByteBudget => 17
    case EndpointConcurrencyBudget => 18
    case GlobalConcurrencyBudget => 19
    case AssetRequiresApproval => 20
    case PolicyRequiresApproval => 20
    case PolicyAutoCollection => 20
  }

  /** What the gate behind a reason asks for, each on its own terms and apart from the chain. */
  predicate GatePasses(r: Reason, p: Policy, q: Request, c: Capability, u: Usage) {
    match r
    case RuleDisabled => p.enabled
    case NoMatchingPolicyEntry => exists e :: e in p.entries && e.action == q.action && e.asset == q.asset
    case PolicySkip => !Decides(p, q, Skip)
    case CapabilityReportNotCurrent => c.recent
    case ActionNotSupported => Lists(c.implemented, q.action)
    case EndpointPolicyDenied => Lists(c.allowed, q.action)
    case EndpointNotEnforcing => c.mode == Enforce
    case AuthenticatedCommandChannelRequired => c.authenticatedChannel
    case ExecutionPolicyGateRequired => c.acceptanceGate
    case SignedArtifactDeliveryNotSupported => c.signedArtifacts
    case VerifiedProcessIdentityRequired => q.action == CollectProcessInfo ==> q.identityVerified
    case AlertFileTargetMissing => q.action == CollectFile ==> q.file.Some? && q.file.value != ""
    case AlertFileTargetInvalid => q.action == CollectFile && q.file.Some? ==> Approved(c.platform, q.file.value)
    case AlertFileTargetNotAllowlisted => q.action == CollectFile ==> Targeted(p, q, c)
    case AlertActionBudget => Reserved(u).actionsForAlert <= p.budget.maxActionsPerAlert
    case AlertByteBudget => Reserved(u).bytesForAlert <= p.budget.maxBytesPerAlert
    case EndpointFrequencyBudget => Reserved(u).actionsInWindow <= p.budget.maxActionsPerWindow
    case EndpointByteBudget => Reserved(u).bytesInWindow <= p.budget.maxBytesPerWindow
    case EndpointConcurrencyBudget => Reserved(u).activeForEndpoint <= p.budget.maxActivePerEndpoint
    case GlobalConcurrencyBudget => Reserved(u).activeGlobal <= 128
    case AssetRequiresApproval => q.asset == Standard
    case PolicyRequiresApproval => !Decides(p, q, RequireApproval)
    case PolicyAutoCollection => !Decides(p, q, AutoDispatch)
  }

  /** The reason names a gate that fails, or the end of the chain. */
  lemma ReasonIsTrue(p: Policy, q: Request, c: Capability, u: Usage)
    requires PolicyAccepted(p)
    ensures !GatePasses(Evaluate(p, q, c, u).reason, p, q, c, u)
  {
    FoundEntryDecides(p, q);
  }

  /** Only the reasons at the end of the chain come with a decision other than skip. */
  lemma EndOfChain(p: Policy, q: Request, c: Capability, u: Usage)
    requires PolicyAccepted(p)
    ensures Evaluate(p, q, c, u).reason == PolicyRequiresApproval ==> q.asset == Standard
    ensures Evaluate(p, q, c, u).reason == AssetRequiresApproval ==> Decides(p, q, RequireApproval)
    ensures Evaluate(p, q, c, u).decision == Skip <==> Place(Evaluate(p, q, c, u).reason) < 20
  {
    FoundEntryDecides(p, q);
  }

  /** Every gate before the one the reason names passes. */
  lemma EarlierGatesPass(p: Policy, q: Request, c: Capability, u: Usage, earlier: Reason)
    requires PolicyAccepted(p) && Place(earlier) < Place(Evaluate(p, q, c, u).reason)
    ensures GatePasses(earlier, p, q, c, u)
  {
    FoundEntryDecides(p, q);
  }

  lemma PlaceInjective(r: Reason, t: Reason)
    requires Place(r) == Place(t) < 20
    ensures r == t
  {
  }

  /** A request is skipped with a reason exactly when that reason's gate is the first in the chain to fail. */
  lemma SkipsAtFirstFailingGate(p: Policy, q: Request, c: Capability, u: Usage, r: Reason)
    requires PolicyAccepted(p) && Place(r) < 20
    ensures Evaluate(p, q, c, u) == Outcome(Skip, r)
        <==> !GatePasses(r, p, q, c, u)
             && forall earlier :: Place(earlier) < Place(r) ==> GatePasses(earlier, p, q, c, u)
  {
    var given := Evaluate(p, q, c, u).reason;
    forall earlier | Place(earlier) < Place(given)
      ensures GatePasses(earlier, p, q, c, u)
    {
      EarlierGatesPass(p, q, c, u, earlier);
    }
    ReasonIsTrue(p, q, c, u);
    EndOfChain(p, q, c, u);
    if Place(given) == Place(r) {
      PlaceInjective(given, r);
    }
  }

  /** The decision is never stronger than the entry's. */
  lemma EvaluateOnlyRestricts(p: Policy, q: Request, c: Capability, u: Usage, e: Entry)
    requires PolicyAccepted(p) && e in p.entries && e.action == q.action && e.asset == q.asset
    ensures Strength(Evaluate(p, q, c, u).decision) <= Strength(e.decision)
    ensures Evaluate(p, q, c, u).decision in {Skip, e.decision}
  {
    FindEntryExact(p.entries, q.action, q.asset, e);
  }

  // ---- comparing two evaluations ----

  predicate BudgetAtMost(b: Budget, d: Budget) {
    && b.maxActionsPerAlert <= d.maxActionsPerAlert && b.maxBytesPerAlert <= d.maxBytesPerAlert
    && b.maxActionsPerWindow <= d.maxActionsPerWindow && b.maxBytesPerWindow <= d.maxBytesPerWindow
    && b.maxActivePerEndpoint <= d.maxActivePerEndpoint
  }

  predicate UsageAtMost(u: Usage, v: Usage) {
    && u.actionsForAlert <= v.actionsForAlert && u.bytesForAlert <= v.bytesForAlert
    && u.actionsInWindow <= v.actionsInWindow && u.bytesInWindow <= v.bytesInWindow
    && u.activeForEndpoint <= v.activeForEndpoint && u.activeGlobal <= v.activeGlobal
  }

  predicate CapabilityAtMost(c: Capability, d: Capability) {
    && c.platform == d.platform
    && (c.recent ==> d.recent) && (c.mode == Enforce ==> d.mode == Enforce)
    && (c.authenticatedChannel ==> d.authenticatedChannel) && (c.acceptanceGate ==> d.acceptanceGate)
    && (c.signedArtifacts ==> d.signedArtifacts)
    && (forall a :: a in c.implemented ==> a in d.implemented) && (forall a :: a in c.allowed ==> a in d.allowed)
  }

  /** The same entries in any order, with any repetition or order of their allowlists. */
  predicate SameEntries(es: seq<Entry>, fs: seq<Entry>) {
    Covers(es, fs) && Covers(fs, es)
  }

  predicate Covers(es: seq<Entry>, fs: seq<Entry>) {
    forall e :: e in es ==> exists f :: f in fs && SameRule(e, f)
  }

  predicate SameRule(e: Entry, f: Entry) {
    && SameKey(e, f) && e.decision == f.decision
    && (forall a :: a in e.files ==> a in f.files) && (forall a :: a in f.files ==> a in e.files)
  }

  lemma FindCovered(es: seq<Entry>, fs: seq<Entry>, action: CollectAction, asset: AssetClass)
    requires OnePerKey(es) && OnePerKey(fs) && Covers(es, fs)
    requires FindEntry(es, action, asset).Some?
    ensures FindEntry(fs, action, asset).Some?
    ensures SameRule(FindEntry(es, action, asset).value, FindEntry(fs, action, asset).value)
  {
    var e := FindEntry(es, action, asset).value;
    FindEntryExact(es, action, asset, e);
    var f :| f in fs && SameRule(e, f);
    FindEntryExact(fs, action, asset, f);
  }

  /** The order in which a policy lists its entries and their paths does not change an outcome. */
  lemma EntryOrderIrrelevant(p: Policy, es: seq<Entry>, q: Request, c: Capability, u: Usage)
    requires OnePerKey(p.entries) && OnePerKey(es) && SameEntries(p.entries, es)
    ensures Evaluate(p.(entries := es), q, c, u) == Evaluate(p, q, c, u)
  {
    if FindEntry(p.entries, q.action, q.asset).Some? {
      FindCovered(p.entries, es, q.action, q.asset);
    } else if FindEntry(es, q.action, q.asset).Some? {
      FindCovered(es, p.entries, q.action, q.asset);
    }
  }

  /** More entries or budget, more capability, a verified identity and less usage never weaken a decision. */
  lemma EvaluateMonotone(p: Policy, p': Policy, q: Request, q': Request, c: Capability, c': Capability,
                         u: Usage, u': Usage)
    requires OnePerKey(p.entries) && OnePerKey(p'.entries) && Covers(p.entries, p'.entries)
    requires (p.enabled ==> p'.enabled) && BudgetAtMost(p.budget, p'.budget)
    requires q.(identityVerified := true) == q'.(identityVerified := true) && (q.identityVerified ==> q'.identityVerified)
    requires CapabilityAtMost(c, c') && UsageAtMost(u', u)
    ensures Strength(Evaluate(p, q, c, u).decision) <= Strength(Evaluate(p', q', c', u').decision)
  {
    if FindEntry(p.entries, q.action, q.asset).Some? {
      FindCovered(p.entries, p'.entries, q.action, q.asset);
    }
  }

  // ---- which policies are accepted ----

  lemma {:induction false} DistinctElements<T>(xs: seq<T>)
    ensures |set x | x in xs| <= |xs|
    ensures |set x | x in xs| == |xs| <==> forall i, j :: 0 <= i < j < |xs| ==> xs[i] != xs[j]
  {
    if xs != [] {
      var n := |xs| - 1;
      var init, last := xs[..n], xs[n];
      DistinctElements(init);
      assert forall x :: x in xs <==> x in init || x == last;
      assert (set x | x in xs) == (set x | x in init) + {last};
      if last in init {
        var i :| 0 <= i < n && init[i] == last;
        assert xs[i] == xs[n];
        assert (set x | x in xs) == (set x | x in init);
      }
    } else {
      assert (set x | x in xs) == {};
    }
  }

  function Keys(entries: seq<Entry>): (keys: seq<(CollectAction, AssetClass)>)
    ensures |keys| == |entries|
    ensures forall i :: 0 <= i < |entries| ==> keys[i] == (entries[i].action, entries[i].asset)
  {
    seq(|entries|, i requires 0 <= i < |entries| => (entries[i].action, entries[i].asset))
  }

  /** There is one entry a key exactly when there are as many keys as entries. */
  lemma OnePerKeyExactly(entries: seq<Entry>)
    ensures OnePerKey(entries) <==> |set k | k in Keys(entries)| == |entries|
  {
    DistinctElements(Keys(entries));
  }

  /**
   An entry is accepted exactly when it has at most sixteen exact, distinct paths, has any just when it
   collects files on its own, and acts on its own on standard assets only.
   */
  lemma EntryAcceptedExactly(e: Entry)
    ensures EntryAccepted(e)
        <==> |e.files| <= 16 && |set f | f in e.files| == |e.files|
             && (forall f :: f in e.files ==> Approved(f.platform, f.path))
             && (e.files != [] <==> e.action.CollectFile? && e.decision.AutoDispatch?)
             && (e.decision.AutoDispatch? ==> e.asset.Standard?)
  {
    DistinctElements(e.files);
  }

  /** The accepted budgets are those between the smallest and the largest. */
  lemma BudgetAcceptedExactly(b: Budget)
    ensures BudgetAccepted(b)
        <==> && BudgetAtMost(Budget(1048576, 1, 1048576, 60, 1, 1048576, 1, 30), b)
             && BudgetAtMost(b, Budget(1048576, 3, 3145728, 86400, 64, 67108864, 8, 900))
             && b.reservedBytesPerAction == 1048576
             && 60 <= b.endpointWindowSeconds <= 24 * 60 * 60
             && 30 <= b.workflowTtlSeconds <= 15 * 60
  {
  }

  lemma RuleIdCharExactly(c: char)
    ensures IsRuleIdChar(c)
        <==> 65 <= c as int <= 90 || 97 <= c as int <= 122 || 48 <= c as int <= 57 || c in {'.', '_', ':', '-'}
  {
  }

  /** From an accepted policy, what each part may be replaced with. */
  lemma PolicyAcceptedExactly(p: Policy, s: string, n: nat, entries: seq<Entry>, b: Budget)
    requires PolicyAccepted(p)
    ensures PolicyAccepted(p.(ruleId := s)) <==> s != "" && |s| < 129 && forall c :: c in s ==> IsRuleIdChar(c)
    ensures PolicyAccepted(p.(version := n)) <==> 0 < n < 2147483648
    ensures PolicyAccepted(p.(entries := entries))
        <==> 0 < |entries| < 10 && |set k | k in Keys(entries)| == |entries|
             && forall e :: e in entries ==> EntryAccepted(e)
    ensures PolicyAccepted(p.(budget := b)) <==> BudgetAccepted(b)
    ensures PolicyAccepted(p.(enabled := !p.enabled))
  {
    OnePerKeyExactly(entries);
  }

  // ---- the disabled default ----

  function DefaultEntry(action: CollectAction, asset: AssetClass): Entry {
    Entry(action, asset, if asset == Standard && action != CollectFile then AutoDispatch else RequireApproval, [])
  }

  function AssetEntries(asset: AssetClass): seq<Entry> {
    [DefaultEntry(CollectProcessInfo, asset), DefaultEntry(CollectNetworkConnections, asset),
     DefaultEntry(CollectFile, asset)]
  }

  /** default_policy */
  function DefaultPolicy(ruleId: string, version: nat): Policy {
    Policy(ruleId, version, false, AssetEntries(Standard) + AssetEntries(Critical) + AssetEntries(Unknown),
           Budget(1048576, 3, 3145728, 900, 12, 12582912, 3, 300))
  }

  lemma AssetEntriesAccepted(asset: AssetClass)
    ensures OnePerKey(AssetEntries(asset))
    ensures forall e :: e in AssetEntries(asset) ==> EntryAccepted(e) && e == DefaultEntry(e.action, asset)
    ensures forall a :: DefaultEntry(a, asset) in AssetEntries(asset)
  {
    forall a
      ensures DefaultEntry(a, asset) in AssetEntries(asset)
    {
      var entries := AssetEntries(asset);
      match a
      case CollectProcessInfo => assert entries[0] == DefaultEntry(a, asset);
      case CollectNetworkConnections => assert entries[1] == DefaultEntry(a, asset);
      case CollectFile => assert entries[2] == DefaultEntry(a, asset);
    }
  }

  lemma DefaultPolicyAccepted(ruleId: string, version: nat)
    requires 1 <= |ruleId| <= 128 && (forall i :: 0 <= i < |ruleId| ==> IsRuleIdChar(ruleId[i]))
    requires 1 <= version <= 2147483647
    ensures PolicyAccepted(DefaultPolicy(ruleId, version))
    ensures forall e :: e in DefaultPolicy(ruleId, version).entries ==> e == DefaultEntry(e.action, e.asset)
    ensures |DefaultPolicy(ruleId, version).entries| == 9
    ensures forall a, s :: DefaultEntry(a, s) in DefaultPolicy(ruleId, version).entries
    ensures DefaultPolicy(ruleId, version).budget.endpointWindowSeconds == 15 * 60
    ensures DefaultPolicy(ruleId, version).budget.workflowTtlSeconds == 5 * 60
  {
    AssetEntriesAccepted(Standard);
    AssetEntriesAccepted(Critical);
    AssetEntriesAccepted(Unknown);
    OnePerKeyConcat(AssetEntries(Standard), AssetEntries(Critical));
    OnePerKeyConcat(AssetEntries(Standard) + AssetEntries(Critical), AssetEntries(Unknown));
    forall a, s
      ensures DefaultEntry(a, s) in DefaultPolicy(ruleId, version).entries
    {
      assert DefaultEntry(a, s) in AssetEntries(s);
    }
  }

  lemma OnePerKeyConcat(es: seq<Entry>, fs: seq<Entry>)
    requires OnePerKey(es) && OnePerKey(fs)
    requires forall e, f :: e in es && f in fs ==> e.asset != f.asset
    ensures OnePerKey(es + fs)
  {
  }

  /** What the default asks of a request's target. */
  predicate ExactlyTargeted(q: Request, c: Capability) {
    match q.action
    case CollectProcessInfo => q.identityVerified
    case CollectNetworkConnections => true
    case CollectFile => q.file.Some? && Approved(c.platform, q.file.value)
  }

  /** Three actions an alert, twelve a window of fifteen minutes, three at once: and as many reservations. */
  predicate DefaultFits(u: Usage) {
    && u.actionsForAlert < 3 && u.bytesForAlert <= 2 * 1048576
    && u.actionsInWindow < 12 && u.bytesInWindow <= 11 * 1048576
    && u.activeForEndpoint < 3 && u.activeGlobal < 128
  }

  /**
   The default skips everything. Enabled, it dispatches process and network collection on standard assets
   and leaves the rest to approval, whenever the endpoint, the target and its budget allow an action at all.
   */
  lemma DefaultPolicyIsCautious(ruleId: string, version: nat, q: Request, c: Capability, u: Usage)
    requires 1 <= |ruleId| <= 128 && (forall i :: 0 <= i < |ruleId| ==> IsRuleIdChar(ruleId[i]))
    requires 1 <= version <= 2147483647
    ensures Evaluate(DefaultPolicy(ruleId, version), q, c, u) == Outcome(Skip, RuleDisabled)
    ensures Evaluate(DefaultPolicy(ruleId, version).(enabled := true), q, c, u).decision
         == if !Capable(c, q.action) || !ExactlyTargeted(q, c) || !DefaultFits(u) then Skip
            else if q.asset == Standard && q.action != CollectFile then AutoDispatch
            else RequireApproval
  {
    var p := DefaultPolicy(ruleId, version).(enabled := true);
    DefaultPolicyAccepted(ruleId, version);
    EvaluateExactly(p, q, c, u);
    FoundEntryDecides(p, q);
    FindEntryExact(p.entries, q.action, q.asset, DefaultEntry(q.action, q.asset));
  }
}
