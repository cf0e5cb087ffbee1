# Response engine: a verified model

The response engine decides which closed command, if any, answers a detection, and writes the canonical
bytes that are signed for it. This project models that decision and encoding core in Dafny and proves
what its documentation promises.

| File | Models |
|---|---|
| `Utf8.dfy`, `Decimal.dfy` | UTF-8 (section 3 of RFC 3629) and decimal text, each with a proved inverse |
| `FieldCodec.dfy` | byte-counted fields, a parser that accepts exactly what the printer makes |
| `Json.dfy`, `Contract.dfy` | decoded wire values, the closed action contract and the tier table |
| `Signing.dfy`, `SigningInverse.dfy` | command signing bytes, their parser and the inverse proof |
| `Artifacts.dfy` | artifact manifests and their signing bytes |
| `WireLayout.dfy` | both signing formats, spelled out line by line |
| `LinuxIdentity.dfy`, `Recommendation.dfy` | the two process identities, the retained-proof recheck, translation |
| `SignedTranslation.dfy` | a recommendation followed through translation to its signed bytes |
| `Paths.dfy`, `Triage.dfy`, `TriageRuns.dfy` | exact native paths, collection triage, budgets over whole runs |
| `Automation.dfy`, `AutomationProperties.dfy` | the response policy engine and its guardrails |
| `ResponseStatus.dfy`, `Lifecycle.dfy`, `IncidentRuns.dfy` | the status fold, the lifecycle, and both over interleaved runs |
| `Forensics.dfy` | advisory collection plans |

`dafny verify dfyconfig.toml` checks the whole project.

## How it is modelled

- A string is a sequence of Unicode scalar values. Field limits count characters, length prefixes count UTF-8 bytes.
- Decoded dictionaries are maps from text to a value type in which booleans are not integers. An absent key and an
  explicit null read alike, as with `dict.get`.
- The loops that grow a byte array or a list, fill a set, or reassign a mode are methods with loops or assignments,
  each proved against a specification function or a stated property.
- SHA-256 is an arbitrary function from bytes to 64 lower-case hexadecimal digits. No lemma assumes it has no
  collisions: `EntityIdDeterminesTarget` concludes that the targets agree or that the two materials are a collision, of
  the whole digest where ids show it whole and of its first half where they show that.
- The date library is a pair of arbitrary partial functions (`Signing.Clock`): one gives epoch seconds, the other says
  whether the contract accepts a time and finds a UTC offset in it.
- Confidence is a real number.
- The environment of triage runs is a ledger of counters: a decision other than skip reserves one action and one full
  artifact, a completed action frees its active slot, and reservations age out of an endpoint's window. The
  environment of incident runs is the pair of tables that the lifecycle module's documentation describes.

## Where the code and its documentation differ

The lifecycle's diagram allows expiry from any state and reports only from the accepted state. The code, which the
model follows, lets only non-terminal states expire and lets a dispatched action report without acceptance.

## Two places where a natural expectation fails

- Translation without an endpoint context does not check that the recommended pid is positive, nor that a recommended
  path fits a command. `PidZeroIsTranslatedButRefused` and `LongPathIsTranslatedButRefused` give the inputs;
  `LegacyTargetMeetsContractExactly` says exactly when the translated target is one the contract accepts.
- An incident's status can fall. `LapseDropsStatus` gives the run: a pending containment action that lapses takes its
  incident from awaiting approval back to recorded. `RowDropsExactly` and `StepDropsExactly` say exactly which events
  lower a row's contribution and the incident's status; `StatusNeverDrops` covers every run without such a withdrawal.

## Model

| member | source | states |
|---|---|---|
| Utf8.DecodeExact | response_engine/signing.py:31-33 | a strict UTF-8 decoder returns a text exactly on the bytes that encoding that text gives |
| Decimal.Uint64TextIsPrintImage | response_engine/contract.py:92-98 | the pattern and bound for native ticks accept exactly the decimal texts of 1 to 2^64-1 |
| Decimal.PrintIsUint64Text | response_engine/linux_identity.py:58 | printing a native tick count gives an accepted text that reads back as the same number |
| Decimal.Uint64TextRead | response_engine/recommendation.py:38-40 | reading an accepted tick text and printing it again gives the same text |
| FieldCodec.CountedRoundTrip | response_engine/recommendation.py:44 | a byte-counted field is read back, with whatever follows it untouched |
| FieldCodec.FieldsExact | response_engine/signing.py:102-106 | reading named fields succeeds exactly on the bytes that printing them makes, and gives the values back |
| FieldCodec.FieldsPrefixFree | response_engine/signing.py:102-106 | under the same names, no list of fields prints to a proper prefix of another |
| Contract.ParseActionExact | response_engine/contract.py:28-50 | the closed set holds exactly the seven action names, one name an action |
| Contract.BootBoundTargetsExactly | response_engine/contract.py:78-102 | schema 2 accepts exactly a uint32 pid, the decimal text of a uint64 and a boot digest, for the two process actions and with a UTC offset |
| Contract.PlainTargetsExactly | response_engine/contract.py:103-120 | schema 1 accepts exactly two positive integers, one path of at most 4096 characters, or nothing, as the action asks |
| Contract.AutoSafeExactly | response_engine/policy.py:31-48 | only the two read-only collections are AUTO_SAFE; every other text awaits an analyst |
| Signing.SigningInput | response_engine/signing.py:46-107 | the encoder signs exactly the closed, contract-accepted envelopes whose times read, and writes the rendering of their view; otherwise it reports the first refusal |
| Signing.EncodeEnvelope | response_engine/signing.py:65-107 | the checks after the contract check never fail, and the bytes are those of the signed view |
| Signing.WriteFields | response_engine/signing.py:102-107 | the loop writes the domain line and every field in order, or refuses a value that is not text |
| Signing.UnsignedIsVerbatim | response_engine/signing.py:36-43 | on accepted targets the number check passes, and tick texts are signed unchanged |
| Signing.IdentityTexts | response_engine/signing.py:80-87 | on accepted targets the identity checks pass and the schema version follows from the boot identity |
| SigningInverse.ParseCommandExact | response_engine/signing.py:88-107 | a parser returns a signed view exactly on the bytes rendered for it, so signing bytes can be inverted and nothing else is accepted |
| SigningInverse.RebuildInverts | response_engine/contract.py:83-120 | the closed target schema lets the whole target be rebuilt from the signed values, telling absent keys from zero and empty fill-ins |
| SigningInverse.CommandsPrefixFree | response_engine/signing.py:102-107 | no command's bytes start another's |
| SigningInverse.SignedBytesDetermineCommand | response_engine/signing.py:46-107 | commands with equal bytes, or bytes of which one starts the other, agree on every entry but authorization, and on both times in seconds |
| SigningInverse.SignedExactly | response_engine/signing.py:59-91 | which dictionaries are signed, and that parsing their bytes gives their view |
| SigningInverse.ParsedExactlyWhatIsSigned | response_engine/signing.py:46-107 | the parser accepts exactly the bytes that are signed for some dictionary |
| WireLayout.CommandLayout | response_engine/signing.py:88-107 | the signed bytes are the domain line and twelve named, byte-counted lines, spelled out over the dictionary's own entries |
| WireLayout.SignedEntriesExactly | response_engine/signing.py:46-91 | which dictionaries are signed, as conditions on their own entries |
| WireLayout.ManifestLayout | response_engine/artifacts.py:34-58 | an artifact's signed bytes are the domain line and thirteen named, byte-counted lines, spelled out over the manifest's own fields |
| Artifacts.ArtifactSigningInput | response_engine/artifacts.py:51-58 | an accepted manifest gives the domain line and its thirteen fields in order; any other is refused |
| Artifacts.WriteFields | response_engine/artifacts.py:55-57 | the loop appends one named, byte-counted field after another |
| Artifacts.ManifestAcceptedExactly | response_engine/artifacts.py:11-31 | the accepted manifests, each field by the values it may have |
| Artifacts.SignatureExactly | response_engine/artifacts.py:15 | a signature is 86 base64 characters and two equals signs |
| Artifacts.ArtifactBytesDetermineManifest | response_engine/artifacts.py:34-58 | manifests with equal bytes, or bytes of which one starts the other, differ in their signature at most |
| Artifacts.SignatureIsNotSigned | response_engine/artifacts.py:34-58 | the signature is the one thing the bytes leave out |
| Artifacts.FormatsDisjoint | response_engine/artifacts.py:54 | command bytes and artifact bytes never start each other |
| LinuxIdentity.EntityMaterialInjective | response_engine/linux_identity.py:47 | the entity material determines host, boot identity, pid and ticks, even when the host contains bars |
| LinuxIdentity.RecordMaterialInjective | response_engine/linux_identity.py:48 | the record material determines sensor, boot identity and sequence number |
| LinuxIdentity.MaterialsDisjoint | response_engine/linux_identity.py:47-48 | an entity material is never a record material |
| LinuxIdentity.NativeRecordReads | response_engine/linux_identity.py:18-50 | every acceptable native identity has a record that proves it |
| LinuxIdentity.ReadRecordExactly | response_engine/linux_identity.py:18-50 | a record proves an identity exactly when its entries name it, the three kind texts and the observed confidence are there, and both ids are the truncated hashes of its materials |
| LinuxIdentity.BuildExactly | response_engine/linux_identity.py:16-64 | a context is built exactly for a record that proves an identity, and is that identity's |
| LinuxIdentity.ContextEntries | response_engine/linux_identity.py:51-64 | the built context, entry by entry |
| LinuxIdentity.UuidExactly | response_engine/linux_identity.py:13 | a boot UUID is exactly five groups of lower-case hexadecimal digits, of 8, 4, 4, 4 and 12 |
| LinuxIdentity.HeldContextVerifies | response_engine/linux_identity.py:67-93 | a context that holds what an acceptable identity gives passes the recheck |
| LinuxIdentity.VerifiedHoldsIdentity | response_engine/linux_identity.py:67-93 | a context that passes the recheck holds what some acceptable identity gives |
| LinuxIdentity.VerifiedExactly | response_engine/linux_identity.py:67-93 | the recheck passes exactly the contexts that agree, on every rebuilt key, with the context of some acceptable record |
| Recommendation.NetstringsInjective | response_engine/recommendation.py:43-44 | the native identity material determines its list of fields |
| Recommendation.NativeMaterialSpelled | response_engine/recommendation.py:43-44 | the native material is the five named parts, each behind its byte count |
| Recommendation.PortableTargetExactly | response_engine/recommendation.py:20-60 | a portable context gives a target exactly when its entries name a process, its entity id hashes that process and the recommendation names it; the target is that process |
| Recommendation.SensedTargetExactly | response_engine/recommendation.py:46-60 | a sensed context gives a target exactly when it holds what an acceptable identity gives and the recommendation names that process; the target is that process |
| Recommendation.TranslationNamesAction | response_engine/recommendation.py:63-146 | a translation names the recommended action, with TERMINATE_PROCESS alone renamed |
| Recommendation.PlainTranslationExactly | response_engine/recommendation.py:84-146 | without a context, which recommendations translate, and the exact target |
| Recommendation.ContextIrrelevantElsewhere | response_engine/recommendation.py:78-83 | a context affects process recommendations only |
| Recommendation.NoLegacyFallback | response_engine/recommendation.py:78-83 | with a context supplied, whatever the recommendation holds, a process action translates to the target of the subject the context proves, or not at all |
| Recommendation.OwnRecommendationTranslates | response_engine/recommendation.py:46-60 | a context that proves its subject translates under the recommendation that names it |
| Recommendation.ContextTargetMeetsContract | response_engine/recommendation.py:20-60 | such a target is one a schema-2 command accepts, and names the recommended pid, ticks and host |
| Recommendation.LegacyTargetMeetsContractExactly | response_engine/recommendation.py:84-136 | every other translated target meets schema 1 exactly when the recommended pid is positive and the recommended path has at most 4096 characters |
| Recommendation.PidZeroIsTranslatedButRefused | response_engine/recommendation.py:92-102 | a recommendation for pid 0 is translated, and no command accepts it |
| Recommendation.LongPathIsTranslatedButRefused | response_engine/recommendation.py:122-132 | a recommendation for a path of 4097 characters is translated, and no command accepts it |
| Recommendation.ProvedRecordTranslates | response_engine/recommendation.py:46-60 | a proved Linux record, recommended by its own tokens, becomes exactly its own pid, ticks text and boot digest |
| Recommendation.EntityIdDeterminesTarget | response_engine/recommendation.py:43-60 | equal entity ids mean the same identity model, and the same target or a hash collision: of whole digests for portable ids, of their first halves for the sensor's ids |
| SignedTranslation.TranslatedCommandSignsBack | response_engine/signing.py:46-107 | a translated process target, once signed, is read back from the bytes as it was and names the recommended pid and ticks |
| SignedTranslation.SignedTranslationsNameOneInstance | response_engine/signing.py:46-107 | if the bytes of one translated process command start another's, their contexts prove subjects with the same pid, ticks and boot identity |
| SignedTranslation.SignedTranslationsNameOneSensedProcess | response_engine/linux_identity.py:47-62 | for sensed identities the pids and ticks then agree, and so do the boot UUIDs or their digests collide |
| Paths.LinuxPathsExactly | response_engine/triage.py:49-72 | accepted Linux paths are exactly a slash and a slash-join of legal components |
| Paths.WindowsPathsExactly | response_engine/triage.py:49-72 | accepted Windows paths are exactly a drive, a colon, a backslash and a backslash-join of legal, non-reserved components |
| Paths.WindowsComponentExactly | response_engine/triage.py:64-71 | a Windows component has legal characters, ends in neither dot nor space and is no device name, alone or before a dot |
| Paths.DeviceExactly | response_engine/triage.py:67 | the device names are twenty-two words in any letter case |
| Paths.LegalExactly | response_engine/triage.py:52-53 | a component's characters are those from the space on, without delete, wildcards and separators |
| Paths.SplitParts | response_engine/triage.py:59-63 | joining the parts of a split text gives the text back |
| Paths.SplitJoin | response_engine/triage.py:59-63 | splitting joined components gives the components back |
| Paths.ApprovedIsNormal | response_engine/triage.py:71-72 | lexical normalisation leaves an accepted path unchanged |
| Paths.ApprovedPathsStayDistinct | response_engine/triage.py:71-72 | accepted paths that normalise alike are the same path |
| Triage.FindEntryExact | response_engine/triage.py:103-109 | with one entry a key, the first match is the only match |
| Triage.OnePerKeyExactly | response_engine/triage.py:103-109 | there is one entry a key exactly when entries and keys are equally many |
| Triage.EntryAcceptedExactly | response_engine/triage.py:76-92 | which policy entries are accepted |
| Triage.BudgetAcceptedExactly | response_engine/triage.py:32-42 | the accepted budgets are those between the smallest and the largest |
| Triage.PolicyAcceptedExactly | response_engine/triage.py:95-109 | what each part of an accepted policy may be replaced with |
| Triage.WireNames | response_engine/triage.py:178-181 | a collection action keeps its name on the wire |
| Triage.EvaluateExactly | response_engine/triage.py:142-237 | a request is not skipped exactly when policy, capability, exact target and all six budgets allow it, and then gets its entry's decision |
| Triage.SkipsAtFirstFailingGate | response_engine/triage.py:168-228 | a request is skipped with a reason exactly when that reason's gate, stated on its own terms, is the first of the twenty gates to fail |
| Triage.EvaluateOnlyRestricts | response_engine/triage.py:152 | the decision is skip or the matching entry's decision, never a stronger one |
| Triage.EntryOrderIrrelevant | response_engine/triage.py:170-172 | reordering entries or allowlists changes no outcome |
| Triage.EvaluateMonotone | response_engine/triage.py:168-237 | less usage, more budget, more capability and a verified identity never weaken a decision |
| Triage.DefaultPolicyAccepted | response_engine/triage.py:240-258 | the default policy is valid and holds nine entries, one for every action and asset class, without allowlists |
| Triage.DefaultPolicyIsCautious | response_engine/triage.py:240-258 | the default skips everything; enabled, its exact decision: process and network collection on standard assets dispatch, the rest awaits approval, whenever endpoint, target and the default limits allow an action |
| TriageRuns.StepStaysSound | response_engine/triage.py:204-228 | each step keeps bytes equal to actions times the reservation, all limits, and the global count equal to the sum over endpoints |
| TriageRuns.EveryRunWithinLimits | response_engine/triage.py:24-42 | no interleaving over any alerts, endpoints and accepted policies breaks a limit |
| TriageRuns.CountersAreHistory | response_engine/triage.py:123-129 | an alert's count is the number of its grants, and all active actions are grants not yet completed |
| TriageRuns.EndpointCountersAreHistory | response_engine/triage.py:123-129 | at each endpoint, in every possible run, active actions are that endpoint's grants not yet completed, and its window holds those not yet aged |
| Automation.GateFailures | response_engine/automation.py:207-225 | the gate failures, in the order of the gates |
| Automation.AppendMissing | response_engine/automation.py:217-220 | the loop over required evidence reports every missing key in order |
| Automation.MissingEvidenceExactly | response_engine/automation.py:217-220 | a key is reported missing exactly when it is required and its value is absent or empty |
| Automation.NoFailuresIffGatesPass | response_engine/automation.py:207-225 | there is no failure exactly when level, confidence, evidence, source and host all pass |
| Automation.EvaluatePolicy | response_engine/automation.py:228-305 | the policy engine computes the specified decision, with its reasons |
| Automation.DecideByTier | response_engine/automation.py:281-289 | without a policy, the action's tier decides |
| Automation.DecideByPolicy | response_engine/automation.py:291-305 | with a policy, its gates and then the two downgrades of its mode decide |
| AutomationProperties.StringsExactly | response_engine/automation.py:196-204 | the evidence walk yields exactly the texts reachable through mappings, lists and tuples |
| AutomationProperties.ContainsExactly | response_engine/automation.py:266 | a text contains a part exactly when it is that part between two others |
| AutomationProperties.WellFormedExactly | response_engine/automation.py:180-193 | which alerts are well formed, on their own entries |
| AutomationProperties.ProblemIsTrue | response_engine/automation.py:180-193 | the problem reported is one the alert has |
| AutomationProperties.MatchesExactly | response_engine/automation.py:80-87 | a match is a listed rule id, a listed prefix of the rule id, or a listed tactic, and any one is enough |
| AutomationProperties.GatesExactly | response_engine/automation.py:207-225 | the gates as conditions on the alert's own entries, the level as an inequality |
| AutomationProperties.FailuresExactly | response_engine/automation.py:207-225 | which failures are reported, each as a condition on the alert's own entries |
| AutomationProperties.FirstApplyingExactly | response_engine/automation.py:274-280 | the policy taken is the first that matches the alert and declares the translated action |
| AutomationProperties.ReasonsExactly | response_engine/automation.py:291-305 | a policy's decision names the policy, then every failed gate or each restriction of its mode |
| AutomationProperties.FlagsFollowMode | response_engine/automation.py:241-255 | preview and execution flags follow the mode, and any mode text but enforce is the safe default |
| AutomationProperties.UnansweredAlerts | response_engine/automation.py:257-270 | the policy name, mode and reason of every decision made before policies are asked |
| AutomationProperties.DefaultTierExactly | response_engine/automation.py:281-289 | without a policy, the two read-only collections run and everything else is approved or previewed, with a cooldown of 300 seconds |
| AutomationProperties.OwnActivityExactly | response_engine/automation.py:266 | the loop guard fires exactly when a reachable text contains the marker |
| AutomationProperties.DeniedExactly | response_engine/automation.py:257-270 | an alert is denied exactly when it is malformed, its action is outside the closed set, or the loop guard fires |
| AutomationProperties.AutoExecutesExactly | response_engine/automation.py:272-305 | the exact condition for automatic execution |
| AutomationProperties.OnlySafeCollectionsAutoExecute | response_engine/automation.py:13-18 | from recommendation to decision, only the two read-only collections run without an analyst |
| AutomationProperties.SimulationPreviewsApprovals | response_engine/automation.py:24-27 | under any mode text but enforce, what would await approval is previewed, and nothing else changes |
| AutomationProperties.OnlyFirstApplyingPolicyDecides | response_engine/automation.py:274-280 | policies before the first match that do not match, and all after it, never matter |
| AutomationProperties.PolicyIsOnlyRestricted | response_engine/automation.py:291-305 | the applying policy's mode is only ever restricted, and exactly when a decision is recorded or awaits approval |
| AutomationProperties.RaisingNeverWeakens | response_engine/automation.py:207-216 | a higher level or confidence never weakens a decision, and changes one only by opening a gate |
| ResponseStatus.DeriveStatus | response_engine/automation.py:321-362 | collecting statuses in a set and picking by precedence computes the join of the items' statuses |
| ResponseStatus.ContributionsExactly | response_engine/automation.py:333-350 | what an item contributes, contribution by contribution, in the stored texts |
| ResponseStatus.ResolvedExactly | response_engine/automation.py:330-331 | only a resolved incident or a false positive is reported as resolved |
| ResponseStatus.JoinIsHighest | response_engine/automation.py:351-362 | the status is contributed by some item and none contributes a higher one; without items it is detected |
| ResponseStatus.HigherIsJoin | response_engine/automation.py:351-362 | the higher of two statuses is a semilattice join with detected as its least element |
| ResponseStatus.JoinOfConcat | response_engine/automation.py:332-362 | the status of two lists together is the higher of their statuses |
| ResponseStatus.JoinMonotone | response_engine/automation.py:332-362 | order and repetition do not matter, and more items never lower the status |
| Lifecycle.TransitionsExactly | response_engine/lifecycle.py:90-138 | the legal transitions are exactly one stage on, a report once dispatched, cancellation before dispatch, and expiry from any stage |
| Lifecycle.HistoryIsShort | response_engine/lifecycle.py:79-138 | an action makes at most four transitions, meets no state twice and stops at its first terminal state |
| Lifecycle.HistoryShape | response_engine/lifecycle.py:90-138 | an action is authorized first and dispatched second, and every agent report comes after both |
| Lifecycle.CancelledNeverDispatched | response_engine/lifecycle.py:90-125 | no action is both dispatched and cancelled |
| IncidentRuns.ChangeIsTransition | response_engine/lifecycle.py:16-54 | every change of the two tables is a legal transition of the single lifecycle |
| IncidentRuns.TransitionIsChange | response_engine/lifecycle.py:16-54 | every legal transition is made by some change of the two tables |
| IncidentRuns.TextsDistinct | response_engine/lifecycle.py:66-76 | the ten stored texts are distinct, and the status fold's groups of texts are those groups of states |
| IncidentRuns.RowsKeepTheirAction | response_engine/lifecycle.py:16-54 | after any run a row has the action and simulation it had, and the detail of its command's latest change |
| IncidentRuns.AppendedRowKeepsItsAction | response_engine/lifecycle.py:16-54 | an appended action is pending and keeps what it was appended with through every later run |
| IncidentRuns.RowContributesExactly | response_engine/automation.py:333-350 | what an action contributes to the status, by the state of its lifecycle |
| IncidentRuns.RowDropsExactly | response_engine/automation.py:333-350 | a change lowers what its action contributes exactly when it withdraws a containment action |
| IncidentRuns.StepDropsExactly | response_engine/automation.py:332-362 | an event lowers the incident's status exactly when it withdraws the one containment action above all others |
| IncidentRuns.StatusNeverDrops | response_engine/automation.py:321-362 | over interleaved runs of any number of actions, the status never drops while no containment action is withdrawn |
| IncidentRuns.LapseDropsStatus | response_engine/automation.py:345-349 | a lapsed pending containment action takes an incident from awaiting approval to recorded |
| IncidentRuns.ContainedWasDispatched | response_engine/automation.py:327-341 | a contained incident has a containment action that was authorized, dispatched and succeeded, with a verified detail exactly when it is reported as verified |
| IncidentRuns.RunsAreBounded | response_engine/lifecycle.py:79-138 | however n actions interleave, they make at most 4n transitions |
| Forensics.ConsistentEvidenceScope | response_engine/forensics.py:65-75 | evidence passes exactly when it is all of this endpoint and no artifact is cited twice |
| Forensics.IdentifierExactly | response_engine/forensics.py:25-26 | an identifier is a bounded text that is not all white space |
| Forensics.ProcessAcceptedExactly | response_engine/forensics.py:38-43 | a process identity is a positive uint32 pid, positive uint64 ticks and a boot digest if it has one |
| Forensics.ContextFieldsExactly | response_engine/forensics.py:46-63 | which contexts are accepted, apart from the scope of their evidence |
| Forensics.RequestAcceptedExactly | response_engine/forensics.py:78-92 | which requests are accepted, action by action |
| Forensics.PolicyAcceptedExactly | response_engine/forensics.py:95-118 | which collection policies are accepted |
| Forensics.KindTextOfAction | response_engine/forensics.py:27-31 | the evidence kind of each collection |
| Forensics.PlanBody | response_engine/forensics.py:156-174 | every accepted request has a command body that the contract accepts and that names the requested process or file |
| Forensics.PlanCollection | response_engine/forensics.py:140-194 | when a plan is made, its exact decision, reason and tier, and that its command body is accepted; the translation failure is unreachable |
| Forensics.SignedPlansNameOneTarget | response_engine/forensics.py:156-174 | signed bytes of planned commands never confuse two processes or file paths |

## Left out

- The library's model machinery (coercion, strict modes, serialisation, error text): only the resulting validity
  predicates are modelled. Dictionaries have text keys only.
- Lone surrogates, which Python strings may hold and encoding refuses, are outside the string model.
- NaN confidences and confidences that are not finite are outside the model.
- Signing.UnsignedText: text that Python's `int` reads but that is not plain digits (signs, spaces, underscores) counts
  as not a number; the contract check admits no such text. Python's limit on very long integer texts is not modelled.
- The observation time of a forensic context, on which nothing depends.
- The fixed explanation text that a translation carries beside its action and target.
- Parsing of RFC 3339 times, SHA-256 and ES256 themselves, and key custody.
- `evaluate` refusing an action or asset class outside its literals: the model's types admit no such value.
- ResponseStatus.DeriveStatus: items whose fields are neither text nor null, on which the source would raise, are not modelled.
- Automation.EvaluatePolicy: the wording of reasons is replaced by a datatype that keeps what each reason says.
- `access.py`, `catalog.py`, the content of the default response policies and `CommandResult.versioned_outcome`: finite
  tables that would only add easy members.
- `validate_evidence_metadata`: a comparison of four fields and a kind.
- Cooldowns, workflow expiry, campaign limits, persistence and dispatch: constants or other services' behaviour.
