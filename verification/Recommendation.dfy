/** From a detection engine's recommendation to a closed command (response_engine/recommendation.py). */
module Recommendation {
  import opened Wrappers
  import opened Json
  import opened Utf8
  import opened Decimal
  import opened FieldCodec
  import opened Contract
  import opened LinuxIdentity

  // ---- the native identity material ----

  /** Each field behind its UTF-8 byte count. */
  function Netstrings(fields: seq<string>): string {
    if fields == [] then "" else Print(|Encode(fields[0])|) + ":" + fields[0] + Netstrings(fields[1..])
  }

  lemma NetstringsBytes(fields: seq<string>)
    requires fields != []
    ensures Encode(Netstrings(fields)) == Counted(fields[0]) + Encode(Netstrings(fields[1..]))
  {
    var count, rest := Print(|Encode(fields[0])|), Netstrings(fields[1..]);
    EncodeConcat(count + ":" + fields[0], rest);
    EncodeConcat(count + ":", fields[0]);
    EncodeConcat(count, ":");
    assert EncodeChar(':') == [COLON] && Encode("") == [];
    assert Encode(":") == [COLON];
  }

  /** Different field lists never give the same material. */
  lemma {:induction false} NetstringsInjective(fs: seq<string>, gs: seq<string>)
    requires Encode(Netstrings(fs)) == Encode(Netstrings(gs))
    ensures fs == gs
  {
    if fs != [] && gs != [] {
      NetstringsBytes(fs);
      NetstringsBytes(gs);
      CountedRoundTrip(fs[0], Encode(Netstrings(fs[1..])));
      CountedRoundTrip(gs[0], Encode(Netstrings(gs[1..])));
      NetstringsInjective(fs[1..], gs[1..]);
      assert fs == [fs[0]] + fs[1..] && gs == [gs[0]] + gs[1..];
    } else if fs != [] {
      NetstringsBytes(fs);
    } else if gs != [] {
      NetstringsBytes(gs);
    }
  }

  function NativeMaterial(host: string, boot: string, pid: nat, ticks: string): string {
    Netstrings(["native-process-instance-v1", host, boot, Print(pid), ticks])
  }

  function NativeEntityId(host: string, boot: string, pid: nat, ticks: string, sha: Sha256): string {
    "proc_" + sha(Encode(NativeMaterial(host, boot, pid, ticks)))
  }

  // ---- the verified process target ----

  datatype Subject = Subject(host: string, boot: string, pid: nat, ticks: string)

  /** The subject a context names, once its native tokens have the required form. */
  function ReadSubject(context: Json): (r: Option<Subject>)
    ensures r.Some? ==> 0 < r.value.pid <= MAX_UINT32 && IsUint64Text(r.value.ticks) && IsBootIdentity(r.value.boot)
  {
    if !context.Dict? then None
    else
      var endpoint, subject := Get(context.fields, "endpoint"), Get(context.fields, "subject");
      if !endpoint.Dict? || !subject.Dict? then None
      else
        var host, boot := Get(endpoint.fields, "host_id"), Get(endpoint.fields, "boot_id");
        var pid, ticks := Get(subject.fields, "observed_pid"), Get(subject.fields, "native_creation_ticks");
        if || !host.Str? || host.s == ""
           || !boot.Str? || !IsBootIdentity(boot.s)
           || Get(subject.fields, "boot_id") != boot
           || Get(subject.fields, "resolution") != Str("native_exact")
           || !InRange(pid, MAX_UINT32)
           || !ticks.Str? || !IsUint64Text(ticks.s)
        then None
        else Some(Subject(host.s, boot.s, pid.i, ticks.s))
  }

  /** The identity is proved by the retained Linux record, or by the hash of the native tokens. */
  predicate Proved(context: Object, s: Subject, sha: Sha256) {
    if Get(context, "identity_model") == Str(MODEL) then Verified(context, sha)
    else EntityText(context) == Str(NativeEntityId(s.host, s.boot, s.pid, s.ticks, sha))
  }

  /** context["subject"].get("entity_id") */
  function EntityText(context: Object): Json {
    if Get(context, "subject").Dict? then Get(context["subject"].fields, "entity_id") else Null
  }

  /** The recommendation names exactly this subject; an absent host is not a disagreement. */
  predicate Names(recommendation: Object, s: Subject)
    requires IsUint64Text(s.ticks)
  {
    && Get(recommendation, "target_pid") == Int(s.pid)
    && Get(recommendation, "target_start_time_ticks") == Int(Read(s.ticks))
    && GetOr(recommendation, "host_id", Str(s.host)) == Str(s.host)
  }

  function TargetOf(s: Subject): Object {
    map["pid" := Int(s.pid), "start_time_ticks" := Str(s.ticks), "boot_id" := Str(s.boot)]
  }

  /** _canonical_process_target */
  function CanonicalTarget(context: Json, recommendation: Object, sha: Sha256): Option<Object> {
    match ReadSubject(context)
    case None => None
    case Some(s) =>
      if Proved(context.fields, s, sha) && Names(recommendation, s) then Some(TargetOf(s)) else None
  }

  // ---- translation ----

  function IntegerTarget(recommendation: Object): Option<Object> {
    var pid, ticks := Get(recommendation, "target_pid"), Get(recommendation, "target_start_time_ticks");
    if !pid.Int? || !ticks.Int? || ticks.i <= 0 then None
    else Some(map["pid" := pid, "start_time_ticks" := ticks])
  }

  /** translate_recommendation; an absent endpoint context is Null. */
  function Translate(action: string, recommendation: Object, context: Json, sha: Sha256): Option<(Action, Object)> {
    if context != Null && (action == "TERMINATE_PROCESS" || action == "COLLECT_PROCESS_INFO") then
      match CanonicalTarget(context, recommendation, sha)
      case None => None
      case Some(target) => Some((if action == "TERMINATE_PROCESS" then KillProcess else CollectProcessInfo, target))
    else if action == "TERMINATE_PROCESS" then
      match IntegerTarget(recommendation)
      case None => None
      case Some(target) => Some((KillProcess, target))
    else if action == "COLLECT_PROCESS_INFO" then
      match IntegerTarget(recommendation)
      case None => None
      case Some(target) => Some((CollectProcessInfo, target))
    else if action == "COLLECT_NETWORK_CONNECTIONS" then Some((CollectNetworkConnections, map[]))
    else if action == "QUARANTINE_FILE" then
      var path := Get(recommendation, "target_file");
      if !path.Str? || path.s == "" then None else Some((QuarantineFile, map["path" := path]))
    else if action == "ISOLATE_HOST" then Some((IsolateHost, map[]))
    else None
  }

  predicate IsProcessRecommendation(action: string) {
    action == "TERMINATE_PROCESS" || action == "COLLECT_PROCESS_INFO"
  }

  function ProcessCommand(action: string): Action {
    if action == "TERMINATE_PROCESS" then KillProcess else CollectProcessInfo
  }

  /** A supplied context is never bypassed: there is no falling back to the recommended integers. */
  lemma ContextIsNotBypassed(action: string, recommendation: Object, context: Json, sha: Sha256)
    requires context != Null && IsProcessRecommendation(action)
    ensures Translate(action, recommendation, context, sha)
         == match CanonicalTarget(context, recommendation, sha)
            case None => None
            case Some(target) => Some((ProcessCommand(action), target))
  {
  }

  /** The context names a subject in native form and proves its identity. */
  predicate ProvesSubject(context: Json, sha: Sha256) {
    ReadSubject(context).Some? && Proved(context.fields, ReadSubject(context).value, sha)
  }

  lemma CanonicalTargetIsOfSubject(context: Json, recommendation: Object, sha: Sha256)
    ensures CanonicalTarget(context, recommendation, sha).Some?
        ==> ProvesSubject(context, sha)
            && CanonicalTarget(context, recommendation, sha) == Some(TargetOf(ReadSubject(context).value))
  {
  }

  /** The recommendation that names a subject by its own tokens, and no host. */
  function OwnRecommendation(s: Subject): Object
    requires IsUint64Text(s.ticks)
  {
    map["target_pid" := Int(s.pid), "target_start_time_ticks" := Int(Read(s.ticks))]
  }

  lemma OwnRecommendationNames(s: Subject)
    requires IsUint64Text(s.ticks)
    ensures Names(OwnRecommendation(s), s)
  {
  }

  /**
   No legacy fallback: with a context supplied, a process action translates to the target of the subject
   that the context names and proves, or not at all; nothing a recommendation holds can change the target.
   */
  lemma NoLegacyFallback(action: string, recommendation: Object, context: Json, sha: Sha256)
    requires context != Null && IsProcessRecommendation(action)
    requires Translate(action, recommendation, context, sha).Some?
    ensures ProvesSubject(context, sha)
    ensures Translate(action, recommendation, context, sha)
         == Some((ProcessCommand(action), TargetOf(ReadSubject(context).value)))
  {
    ContextIsNotBypassed(action, recommendation, context, sha);
    CanonicalTargetIsOfSubject(context, recommendation, sha);
  }

  /** Conversely, a context that proves its subject translates under the recommendation that names it. */
  lemma OwnRecommendationTranslates(action: string, context: Json, sha: Sha256)
    requires context != Null && IsProcessRecommendation(action) && ProvesSubject(context, sha)
    ensures Translate(action, OwnRecommendation(ReadSubject(context).value), context, sha).Some?
  {
    var s := ReadSubject(context).value;
    OwnRecommendationNames(s);
    ContextIsNotBypassed(action, OwnRecommendation(s), context, sha);
  }

  lemma SubjectTargetAccepted(s: Subject, a: Action)
    requires 0 < s.pid <= MAX_UINT32 && IsUint64Text(s.ticks) && IsBootIdentity(s.boot) && IsProcessAction(a)
    ensures TargetAccepted("2", a, TargetOf(s), true)
    ensures TargetOf(s)["pid"] == Int(s.pid) && TargetOf(s)["start_time_ticks"] == Str(s.ticks)
  {
  }

  /**
   With a context, a process recommendation gives nothing, or a boot-bound target that a schema-2
   command accepts and that names the recommended process on the recommended host.
   */
  lemma ContextTargetMeetsContract(action: string, recommendation: Object, context: Json, sha: Sha256)
    requires context != Null && IsProcessRecommendation(action)
    requires Translate(action, recommendation, context, sha).Some?
    ensures var (a, target) := Translate(action, recommendation, context, sha).value;
            && a == ProcessCommand(action)
            && TargetAccepted("2", a, target, true)
            && target["pid"] == Get(recommendation, "target_pid")
            && Get(recommendation, "target_start_time_ticks") == Int(Read(target["start_time_ticks"].s))
            && ReadSubject(context).Some?
            && var host := Str(ReadSubject(context).value.host);
               GetOr(recommendation, "host_id", host) == host
  {
    ContextIsNotBypassed(action, recommendation, context, sha);
    SubjectTargetAccepted(ReadSubject(context).value, ProcessCommand(action));
  }

  /**
   Without one, the translated target meets schema 1 exactly when the recommended pid is positive and
   the recommended path is no longer than a command path may be; the translation checks neither.
   */
  lemma LegacyTargetMeetsContractExactly(action: string, recommendation: Object, context: Json, sha: Sha256, aware: bool)
    requires context == Null || !IsProcessRecommendation(action)
    requires Translate(action, recommendation, context, sha).Some?
    ensures var (a, target) := Translate(action, recommendation, context, sha).value;
            TargetAccepted("1", a, target, aware)
            <==> (IsProcessRecommendation(action) ==> recommendation["target_pid"].i > 0)
                 && (action == "QUARANTINE_FILE" ==> |recommendation["target_file"].s| <= 4096)
  {
  }

  /** A recommendation for pid 0 is translated, yet no command accepts the target. */
  lemma PidZeroIsTranslatedButRefused(sha: Sha256)
    ensures var r := map["target_pid" := Int(0), "target_start_time_ticks" := Int(1)];
            var target := map["pid" := Int(0), "start_time_ticks" := Int(1)];
            && Translate("TERMINATE_PROCESS", r, Null, sha) == Some((KillProcess, target))
            && forall schema, aware :: !TargetAccepted(schema, KillProcess, target, aware)
  {
  }

  /** A path one character too long for a command is translated, yet no command accepts the target. */
  lemma LongPathIsTranslatedButRefused(sha: Sha256)
    ensures var path := seq(4097, _ => 'a');
            var target := map["path" := Str(path)];
            && Translate("QUARANTINE_FILE", map["target_file" := Str(path)], Null, sha) == Some((QuarantineFile, target))
            && forall schema, aware :: !TargetAccepted(schema, QuarantineFile, target, aware)
  {
    var path := seq(4097, _ => 'a');
    assert |path| == 4097;
  }

  // ---- which action and which target ----

  /** A translation names the recommended action; only TERMINATE_PROCESS has another name on the wire. */
  lemma TranslationNamesAction(action: string, recommendation: Object, context: Json, sha: Sha256)
    requires Translate(action, recommendation, context, sha).Some?
    ensures Name(Translate(action, recommendation, context, sha).value.0)
         == if action == "TERMINATE_PROCESS" then "KILL_PROCESS" else action
  {
  }

  /** Without a context, what a recommendation must hold to be translated, and the target it then gives. */
  lemma PlainTranslationExactly(action: string, recommendation: Object, sha: Sha256)
    ensures Translate(action, recommendation, Null, sha).Some?
        <==> match action
             case "TERMINATE_PROCESS" => HasTicks(recommendation)
             case "COLLECT_PROCESS_INFO" => HasTicks(recommendation)
             case "COLLECT_NETWORK_CONNECTIONS" => true
             case "QUARANTINE_FILE" => exists path :: path != "" && Get(recommendation, "target_file") == Str(path)
             case "ISOLATE_HOST" => true
             case _ => false
    ensures Translate(action, recommendation, Null, sha).Some?
        ==> Translate(action, recommendation, Null, sha).value.1
            == match action
               case "TERMINATE_PROCESS" => RecommendedInstance(recommendation)
               case "COLLECT_PROCESS_INFO" => RecommendedInstance(recommendation)
               case "QUARANTINE_FILE" => map["path" := Get(recommendation, "target_file")]
               case _ => map[]
  {
  }

  ghost predicate HasTicks(recommendation: Object) {
    && (exists pid :: Get(recommendation, "target_pid") == Int(pid))
    && exists ticks :: ticks > 0 && Get(recommendation, "target_start_time_ticks") == Int(ticks)
  }

  function RecommendedInstance(recommendation: Object): Object {
    map["pid" := Get(recommendation, "target_pid"),
        "start_time_ticks" := Get(recommendation, "target_start_time_ticks")]
  }

  /** A context matters to process recommendations only. */
  lemma ContextIrrelevantElsewhere(action: string, recommendation: Object, context: Json, sha: Sha256)
    requires action != "TERMINATE_PROCESS" && action != "COLLECT_PROCESS_INFO"
    ensures Translate(action, recommendation, context, sha) == Translate(action, recommendation, Null, sha)
  {
  }

  /** The context's own entries name this process in native form. */
  predicate ContextNames(context: Json, host: string, h: string, pid: nat, ticks: nat) {
    && host != "" && Hex64(h) && 1 <= pid <= 4294967295 && 1 <= ticks <= 18446744073709551615
    && Entry(Entry(context, "endpoint"), "host_id") == Str(host)
    && Entry(Entry(context, "endpoint"), "boot_id") == Str("boot_" + h)
    && Entry(Entry(context, "subject"), "boot_id") == Str("boot_" + h)
    && Entry(Entry(context, "subject"), "resolution") == Str("native_exact")
    && Entry(Entry(context, "subject"), "observed_pid") == Int(pid)
    && Entry(Entry(context, "subject"), "native_creation_ticks") == Str(Print(ticks))
  }

  predicate RecommendationNames(recommendation: Object, host: string, pid: nat, ticks: nat) {
    && Get(recommendation, "target_pid") == Int(pid)
    && Get(recommendation, "target_start_time_ticks") == Int(ticks)
    && ("host_id" in recommendation ==> recommendation["host_id"] == Str(host))
  }

  /** The entries that a subject is read from. */
  predicate SubjectEntries(context: Json, s: Subject) {
    && s.host != "" && IsBootIdentity(s.boot) && 0 < s.pid <= MAX_UINT32 && IsUint64Text(s.ticks)
    && Entry(Entry(context, "endpoint"), "host_id") == Str(s.host)
    && Entry(Entry(context, "endpoint"), "boot_id") == Str(s.boot)
    && Entry(Entry(context, "subject"), "boot_id") == Str(s.boot)
    && Entry(Entry(context, "subject"), "resolution") == Str("native_exact")
    && Entry(Entry(context, "subject"), "observed_pid") == Int(s.pid)
    && Entry(Entry(context, "subject"), "native_creation_ticks") == Str(s.ticks)
  }

  lemma ReadSubjectExactly(context: Json, s: Subject)
    ensures ReadSubject(context) == Some(s) <==> SubjectEntries(context, s)
  {
  }

  lemma EntriesFromNames(context: Json, host: string, h: string, pid: nat, ticks: nat)
    requires ContextNames(context, host, h, pid, ticks)
    ensures SubjectEntries(context, Subject(host, "boot_" + h, pid, Print(ticks)))
  {
    PrintIsUint64Text(ticks);
    Hex64Exactly(h);
    assert ("boot_" + h)[..5] == "boot_" && ("boot_" + h)[5..] == h;
  }

  lemma BootDigestText(boot: string)
    requires IsBootIdentity(boot)
    ensures Hex64(boot[5..]) && boot == "boot_" + boot[5..]
  {
    Hex64Exactly(boot[5..]);
  }

  lemma TicksText(text: string)
    requires IsUint64Text(text)
    ensures 1 <= Read(text) <= 18446744073709551615 && text == Print(Read(text))
  {
    Uint64TextRead(text);
  }

  lemma NamesFromEntries(context: Json, s: Subject) returns (h: string, ticks: nat)
    requires SubjectEntries(context, s)
    ensures s.ticks == Print(ticks) && s.boot == "boot_" + h && ContextNames(context, s.host, h, s.pid, ticks)
  {
    h, ticks := s.boot[5..], Read(s.ticks);
    BootDigestText(s.boot);
    TicksText(s.ticks);
  }

  /** A part of the material behind its byte count. */
  function Netstring(field: string): string {
    Print(|Encode(field)|) + ":" + field
  }

  /** The hashed material of a portable id. */
  function PortableMaterial(host: string, h: string, pid: nat, ticks: nat): string {
    ("26:" + "native-process-instance-v1") + Netstring(host) + ("69:" + ("boot_" + h)) + Netstring(Print(pid))
    + Netstring(Print(ticks))
  }

  lemma AsciiNetstring(s: string)
    requires forall i :: 0 <= i < |s| ==> s[i] as int < 0x80
    ensures Netstring(s) == Print(|s|) + ":" + s
  {
    EncodeAscii(s);
  }

  lemma NameNetstring(name: string)
    requires name == "native-process-instance-v1"
    ensures Netstring(name) == "26:" + name
  {
    assert |name| == 26 && Print(26) == "26";
    AsciiNetstring(name);
    assert "26" + ":" == "26:";
  }

  lemma BootNetstring(h: string)
    requires Hex64(h)
    ensures Netstring("boot_" + h) == "69:" + ("boot_" + h)
  {
    forall i | 0 <= i < 69
      ensures ("boot_" + h)[i] as int < 0x80
    {
      if i >= 5 {
        HexDigitExactly(h[i - 5]);
      }
    }
    AsciiNetstring("boot_" + h);
    assert Print(69) == "69" && "69" + ":" == "69:";
  }

  lemma NetstringsOnward(fields: seq<string>)
    requires fields != []
    ensures Netstrings(fields) == Netstring(fields[0]) + Netstrings(fields[1..])
  {
  }

  lemma FiveNetstrings(a: string, b: string, c: string, d: string, e: string)
    ensures Netstrings([a, b, c, d, e]) == Netstring(a) + Netstring(b) + Netstring(c) + Netstring(d) + Netstring(e)
  {
    NetstringsOnward([a, b, c, d, e]);
    assert [a, b, c, d, e][1..] == [b, c, d, e];
    NetstringsOnward([b, c, d, e]);
    assert [b, c, d, e][1..] == [c, d, e];
    NetstringsOnward([c, d, e]);
    assert [c, d, e][1..] == [d, e];
    NetstringsOnward([d, e]);
    assert [d, e][1..] == [e];
    NetstringsOnward([e]);
    assert [e][1..] == [];
  }

  /** The native material is that text. */
  lemma NativeMaterialSpelled(host: string, h: string, pid: nat, ticks: nat)
    requires Hex64(h)
    ensures NativeMaterial(host, "boot_" + h, pid, Print(ticks)) == PortableMaterial(host, h, pid, ticks)
  {
    FiveNetstrings("native-process-instance-v1", host, "boot_" + h, Print(pid), Print(ticks));
    NameNetstring("native-process-instance-v1");
    BootNetstring(h);
  }

  /** The context's entries and the recommendation name one process, and the entity id is the hash of its material. */
  predicate PortableTarget(context: Json, recommendation: Object, host: string, h: string, pid: nat, ticks: nat,
                           sha: Sha256)
  {
    && ContextNames(context, host, h, pid, ticks)
    && Entry(Entry(context, "subject"), "entity_id") == Str("proc_" + sha(Encode(PortableMaterial(host, h, pid, ticks))))
    && RecommendationNames(recommendation, host, pid, ticks)
  }

  lemma NativeIdSpelled(s: Subject, h: string, ticks: nat, sha: Sha256)
    requires Hex64(h) && s.boot == "boot_" + h && s.ticks == Print(ticks)
    ensures NativeEntityId(s.host, s.boot, s.pid, s.ticks, sha)
         == "proc_" + sha(Encode(PortableMaterial(s.host, h, s.pid, ticks)))
  {
    NativeMaterialSpelled(s.host, h, s.pid, ticks);
  }

  lemma EntityTextIsEntry(context: Object)
    ensures EntityText(context) == Entry(Entry(Dict(context), "subject"), "entity_id")
  {
  }

  lemma PortableProof(context: Object, s: Subject, id: string, sha: Sha256)
    requires Get(context, "identity_model") != Str(MODEL)
    requires id == NativeEntityId(s.host, s.boot, s.pid, s.ticks, sha)
    ensures Proved(context, s, sha) <==> EntityText(context) == Str(id)
  {
  }

  /** For a portable context, proof is the hash of the material. */
  lemma PortableProved(context: Json, s: Subject, h: string, ticks: nat, sha: Sha256)
    requires context.Dict? && Entry(context, "identity_model") != Str("linux_endpoint_v1")
    requires Hex64(h) && s.boot == "boot_" + h && s.ticks == Print(ticks)
    ensures Proved(context.fields, s, sha)
        <==> Entry(Entry(context, "subject"), "entity_id")
             == Str("proc_" + sha(Encode(PortableMaterial(s.host, h, s.pid, ticks))))
  {
    NativeIdSpelled(s, h, ticks, sha);
    EntityTextIsEntry(context.fields);
    PortableProof(context.fields, s, NativeEntityId(s.host, s.boot, s.pid, s.ticks, sha), sha);
  }

  lemma NamesExactly(recommendation: Object, s: Subject, ticks: nat)
    requires IsUint64Text(s.ticks) && s.ticks == Print(ticks)
    ensures Names(recommendation, s) <==> RecommendationNames(recommendation, s.host, s.pid, ticks)
  {
    ReadPrint(ticks);
  }

  lemma CanonicalTargetBySubject(context: Json, recommendation: Object, s: Subject, sha: Sha256)
    requires ReadSubject(context) == Some(s)
    ensures context.Dict?
    ensures CanonicalTarget(context, recommendation, sha)
         == if Proved(context.fields, s, sha) && Names(recommendation, s) then Some(TargetOf(s)) else None
  {
  }

  lemma PortableTargetGiven(context: Json, recommendation: Object, host: string, h: string, pid: nat, ticks: nat,
                            sha: Sha256)
    requires Entry(context, "identity_model") != Str("linux_endpoint_v1")
    requires PortableTarget(context, recommendation, host, h, pid, ticks, sha)
    ensures CanonicalTarget(context, recommendation, sha) == Some(BootBoundTarget(pid, ticks, h))
  {
    var s := Subject(host, "boot_" + h, pid, Print(ticks));
    EntriesFromNames(context, host, h, pid, ticks);
    ReadSubjectExactly(context, s);
    CanonicalTargetBySubject(context, recommendation, s, sha);
    PortableProved(context, s, h, ticks, sha);
    NamesExactly(recommendation, s, ticks);
  }

  lemma PortableTargetHeld(context: Json, recommendation: Object, sha: Sha256)
    returns (host: string, h: string, pid: nat, ticks: nat)
    requires Entry(context, "identity_model") != Str("linux_endpoint_v1")
    requires CanonicalTarget(context, recommendation, sha).Some?
    ensures PortableTarget(context, recommendation, host, h, pid, ticks, sha)
    ensures CanonicalTarget(context, recommendation, sha) == Some(BootBoundTarget(pid, ticks, h))
  {
    var s := ReadSubject(context).value;
    ReadSubjectExactly(context, s);
    h, ticks := NamesFromEntries(context, s);
    host, pid := s.host, s.pid;
    CanonicalTargetBySubject(context, recommendation, s, sha);
    PortableProved(context, s, h, ticks, sha);
    NamesExactly(recommendation, s, ticks);
  }

  /**
   A portable context gives a target exactly when its own entries name a process whose hashed material is
   its entity id, and the recommendation names that process; the target is that process.
   */
  lemma PortableTargetExactly(context: Json, recommendation: Object, target: Object, sha: Sha256)
    requires Entry(context, "identity_model") != Str("linux_endpoint_v1")
    ensures CanonicalTarget(context, recommendation, sha) == Some(target)
        <==> exists host, h, pid: nat, ticks: nat ::
               && PortableTarget(context, recommendation, host, h, pid, ticks, sha)
               && target == BootBoundTarget(pid, ticks, h)
  {
    if CanonicalTarget(context, recommendation, sha) == Some(target) {
      var host, h, pid, ticks := PortableTargetHeld(context, recommendation, sha);
    }
    forall host, h, pid: nat, ticks: nat | PortableTarget(context, recommendation, host, h, pid, ticks, sha)
      ensures CanonicalTarget(context, recommendation, sha) == Some(BootBoundTarget(pid, ticks, h))
    {
      PortableTargetGiven(context, recommendation, host, h, pid, ticks, sha);
    }
  }

  /**
   A context of the Linux sensor gives a target exactly when it holds what an acceptable identity gives and
   the recommendation names that process; the target is that process under its boot digest.
   */
  lemma SensedTargetExactly(context: Object, recommendation: Object, target: Object, sha: Sha256)
    requires Get(context, "identity_model") == Str("linux_endpoint_v1")
    ensures CanonicalTarget(Dict(context), recommendation, sha) == Some(target)
        <==> exists n ::
               NativeAccepted(n) && Extends(context, ContextOf(n, sha))
               && RecommendationNames(recommendation, n.host, n.pid, n.ticks)
               && target == BootBoundTarget(n.pid, n.ticks, sha(Encode(n.boot)))
  {
    if CanonicalTarget(Dict(context), recommendation, sha) == Some(target) {
      var n := SensedTargetHeld(context, recommendation, sha);
    }
    forall n | NativeAccepted(n) && Extends(context, ContextOf(n, sha))
               && RecommendationNames(recommendation, n.host, n.pid, n.ticks)
      ensures CanonicalTarget(Dict(context), recommendation, sha)
           == Some(BootBoundTarget(n.pid, n.ticks, sha(Encode(n.boot))))
    {
      HeldContextTarget(context, n, recommendation, sha);
    }
  }

  lemma SensedTargetHeld(context: Object, recommendation: Object, sha: Sha256) returns (n: Native)
    requires Get(context, "identity_model") == Str("linux_endpoint_v1")
    requires CanonicalTarget(Dict(context), recommendation, sha).Some?
    ensures NativeAccepted(n) && Extends(context, ContextOf(n, sha))
    ensures RecommendationNames(recommendation, n.host, n.pid, n.ticks)
    ensures CanonicalTarget(Dict(context), recommendation, sha)
         == Some(BootBoundTarget(n.pid, n.ticks, sha(Encode(n.boot))))
  {
    n := VerifiedHoldsIdentity(context, sha);
    HeldContextNamesSubject(context, n, sha);
    ReadPrint(n.ticks);
  }

  // ---- the entity id determines the target ----

  /** What the entity id of an accepted context is the hash of. */
  function Material(context: Json): Bytes
    requires ReadSubject(context).Some?
  {
    var s, proof := ReadSubject(context).value, Get(context.fields, "linux_identity");
    if Get(context.fields, "identity_model") == Str(MODEL) && proof.Dict? && Get(proof.fields, "boot_uuid").Str? then
      Encode(EntityMaterial(s.host, proof.fields["boot_uuid"].s, s.pid, Read(s.ticks)))
    else
      Encode(NativeMaterial(s.host, s.boot, s.pid, s.ticks))
  }

  function NativeSubject(n: Native, sha: Sha256): Subject {
    Subject(n.host, BootDigest(n, sha), n.pid, Print(n.ticks))
  }

  lemma BootDigestShape(n: Native, sha: Sha256)
    ensures IsBootIdentity(BootDigest(n, sha))
  {
    var digest := sha(Encode(n.boot));
    assert ("boot_" + digest)[..5] == "boot_" && ("boot_" + digest)[5..] == digest;
  }

  lemma NativeParts(n: Native, sha: Sha256)
    ensures var e := EndpointOf(n, sha);
            Get(e, "host_id") == Str(n.host) && Get(e, "boot_id") == Str(BootDigest(n, sha))
    ensures var s := SubjectOf(n, sha);
            && Get(s, "observed_pid") == Int(n.pid) && Get(s, "native_creation_ticks") == Str(Print(n.ticks))
            && Get(s, "boot_id") == Str(BootDigest(n, sha)) && Get(s, "resolution") == Str("native_exact")
            && Get(s, "entity_id") == Str(EntityId(n, sha))
    ensures Get(ProofOf(n), "boot_uuid") == Str(n.boot)
  {
  }

  /** A context that holds an identity's parts names that identity's subject. */
  lemma HeldContextNamesSubject(context: Object, n: Native, sha: Sha256)
    requires NativeAccepted(n) && Extends(context, ContextOf(n, sha))
    ensures ReadSubject(Dict(context)) == Some(NativeSubject(n, sha))
    ensures EntityText(context) == Str(EntityId(n, sha))
    ensures Get(context, "identity_model") == Str(MODEL)
    ensures Get(context, "linux_identity") == Dict(ProofOf(n)) && Get(ProofOf(n), "boot_uuid") == Str(n.boot)
  {
    HeldParts(context, n, sha);
    NativeParts(n, sha);
    BootDigestShape(n, sha);
    PrintIsUint64Text(n.ticks);
  }

  lemma HeldContextTarget(context: Object, n: Native, recommendation: Object, sha: Sha256)
    requires NativeAccepted(n) && Extends(context, ContextOf(n, sha))
    requires Get(recommendation, "target_pid") == Int(n.pid)
    requires Get(recommendation, "target_start_time_ticks") == Int(n.ticks)
    requires GetOr(recommendation, "host_id", Str(n.host)) == Str(n.host)
    ensures CanonicalTarget(Dict(context), recommendation, sha) == Some(TargetOf(NativeSubject(n, sha)))
  {
    HeldContextNamesSubject(context, n, sha);
    HeldContextVerifies(context, n, sha);
    PrintIsUint64Text(n.ticks);
    assert Names(recommendation, NativeSubject(n, sha));
    assert Proved(context, NativeSubject(n, sha), sha);
  }

  /** A record the sensor proves, recommended by its own tokens, becomes exactly its own boot-bound target. */
  lemma ProvedRecordTranslates(record: Json, agentId: Json, recommendation: Object, action: string, sha: Sha256)
    requires ReadRecord(record, agentId, sha).Some? && IsProcessRecommendation(action)
    requires var n := ReadRecord(record, agentId, sha).value;
             && Get(recommendation, "target_pid") == Int(n.pid)
             && Get(recommendation, "target_start_time_ticks") == Int(n.ticks)
             && GetOr(recommendation, "host_id", Str(n.host)) == Str(n.host)
    ensures var n := ReadRecord(record, agentId, sha).value;
            Translate(action, recommendation, Dict(Build(record, agentId, sha).value), sha)
            == Some((ProcessCommand(action),
                     map["pid" := Int(n.pid), "start_time_ticks" := Str(Print(n.ticks)),
                         "boot_id" := Str("boot_" + sha(Encode(n.boot)))]))
  {
    ContextIsNotBypassed(action, recommendation, Dict(Build(record, agentId, sha).value), sha);
    HeldContextTarget(Build(record, agentId, sha).value, ReadRecord(record, agentId, sha).value, recommendation, sha);
  }

  /** The two ways an accepted context proves who its subject is. */
  datatype Identity = Sensed(native: Native) | Hashed(subject: Subject)

  function SubjectBy(i: Identity, sha: Sha256): Subject {
    match i
    case Sensed(n) => NativeSubject(n, sha)
    case Hashed(s) => s
  }

  function MaterialBy(i: Identity): Bytes {
    match i
    case Sensed(n) => Encode(EntityMaterial(n.host, n.boot, n.pid, n.ticks))
    case Hashed(s) => Encode(NativeMaterial(s.host, s.boot, s.pid, s.ticks))
  }

  function IdBy(i: Identity, sha: Sha256): string {
    match i
    case Sensed(n) => EntityId(n, sha)
    case Hashed(s) => NativeEntityId(s.host, s.boot, s.pid, s.ticks, sha)
  }

  lemma ProvedIdentity(context: Object, s: Subject, sha: Sha256) returns (i: Identity)
    requires ReadSubject(Dict(context)) == Some(s) && Proved(context, s, sha)
    ensures i.Sensed? == IsSensed(Dict(context)) && (i.Sensed? ==> IsUuid(i.native.boot))
    ensures s == SubjectBy(i, sha)
    ensures Material(Dict(context)) == MaterialBy(i)
    ensures EntityText(context) == Str(IdBy(i, sha))
  {
    if Get(context, "identity_model") == Str(MODEL) {
      var n := VerifiedHoldsIdentity(context, sha);
      HeldContextNamesSubject(context, n, sha);
      ReadPrint(n.ticks);
      i := Sensed(n);
    } else {
      i := Hashed(s);
    }
  }

  lemma HashedMaterialInjective(s: Subject, t: Subject)
    requires MaterialBy(Hashed(s)) == MaterialBy(Hashed(t))
    ensures s == t
  {
    var fs := ["native-process-instance-v1", s.host, s.boot, Print(s.pid), s.ticks];
    var gs := ["native-process-instance-v1", t.host, t.boot, Print(t.pid), t.ticks];
    NetstringsInjective(fs, gs);
    assert fs[1] == gs[1] && fs[2] == gs[2] && fs[3] == gs[3] && fs[4] == gs[4];
    PrintInjective(s.pid, t.pid);
  }

  /** A sensed id is the first half of the digest of its material. */
  lemma SensedIdShape(n: Native, sha: Sha256)
    ensures |IdBy(Sensed(n), sha)| == 32
    ensures IdBy(Sensed(n), sha) == sha(MaterialBy(Sensed(n)))[..32]
  {
  }

  /** A hashed id shows the whole digest of its material. */
  lemma HashedIdShape(s: Subject, sha: Sha256)
    ensures |IdBy(Hashed(s), sha)| == 69
    ensures IdBy(Hashed(s), sha) == "proc_" + sha(MaterialBy(Hashed(s)))
  {
  }

  lemma SensedMaterialInjective(n: Native, m: Native)
    requires IsUuid(n.boot) && IsUuid(m.boot) && MaterialBy(Sensed(n)) == MaterialBy(Sensed(m))
    ensures n.host == m.host && n.boot == m.boot && n.pid == m.pid && n.ticks == m.ticks
  {
    EntityMaterialInjective(n.host, n.boot, n.pid, n.ticks, m.host, m.boot, m.pid, m.ticks);
  }

  /** Two different materials have the same digest, in the part of it that ids of this model show. */
  predicate Collide(m: Bytes, n: Bytes, sensed: bool, sha: Sha256) {
    m != n && if sensed then sha(m)[..32] == sha(n)[..32] else sha(m) == sha(n)
  }

  lemma SensedIdentitiesAgree(n: Native, m: Native, sha: Sha256)
    requires IsUuid(n.boot) && IsUuid(m.boot) && IdBy(Sensed(n), sha) == IdBy(Sensed(m), sha)
    ensures NativeSubject(n, sha) == NativeSubject(m, sha)
         || Collide(MaterialBy(Sensed(n)), MaterialBy(Sensed(m)), true, sha)
  {
    SensedIdShape(n, sha);
    SensedIdShape(m, sha);
    if MaterialBy(Sensed(n)) == MaterialBy(Sensed(m)) {
      SensedMaterialInjective(n, m);
    }
  }

  lemma SameSuffix(prefix: string, x: string, y: string)
    requires prefix + x == prefix + y
    ensures x == y
  {
    assert (prefix + x)[|prefix|..] == x && (prefix + y)[|prefix|..] == y;
  }

  lemma HashedIdentitiesAgree(s: Subject, t: Subject, sha: Sha256)
    requires IdBy(Hashed(s), sha) == IdBy(Hashed(t), sha)
    ensures s == t || Collide(MaterialBy(Hashed(s)), MaterialBy(Hashed(t)), false, sha)
  {
    HashedIdShape(s, sha);
    HashedIdShape(t, sha);
    SameSuffix("proc_", sha(MaterialBy(Hashed(s))), sha(MaterialBy(Hashed(t))));
    if MaterialBy(Hashed(s)) == MaterialBy(Hashed(t)) {
      HashedMaterialInjective(s, t);
    }
  }

  /** Ids of different models differ, and equal ids of one model name one subject or exhibit a collision. */
  lemma IdentitiesAgree(i: Identity, j: Identity, sha: Sha256)
    requires (i.Sensed? ==> IsUuid(i.native.boot)) && (j.Sensed? ==> IsUuid(j.native.boot))
    requires IdBy(i, sha) == IdBy(j, sha)
    ensures i.Sensed? == j.Sensed?
    ensures SubjectBy(i, sha) == SubjectBy(j, sha) || Collide(MaterialBy(i), MaterialBy(j), i.Sensed?, sha)
  {
    match (i, j)
    case (Sensed(n), Sensed(m)) => SensedIdentitiesAgree(n, m, sha);
    case (Hashed(s), Hashed(t)) => HashedIdentitiesAgree(s, t, sha);
    case (Sensed(n), Hashed(t)) =>
      SensedIdShape(n, sha);
      HashedIdShape(t, sha);
    case (Hashed(s), Sensed(m)) =>
      HashedIdShape(s, sha);
      SensedIdShape(m, sha);
  }

  predicate IsSensed(context: Json)
    requires context.Dict?
  {
    Get(context.fields, "identity_model") == Str(MODEL)
  }

  /**
   Contexts that yield targets under the same entity id are of the same identity model and yield the same
   target, unless they exhibit a hash collision: of the whole digest for portable ids, of its first half
   for the sensor's shorter ids.
   */
  lemma EntityIdDeterminesTarget(c: Json, r: Object, d: Json, q: Object, sha: Sha256)
    requires CanonicalTarget(c, r, sha).Some? && CanonicalTarget(d, q, sha).Some?
    requires EntityText(c.fields) == EntityText(d.fields)
    ensures IsSensed(c) == IsSensed(d)
    ensures CanonicalTarget(c, r, sha) == CanonicalTarget(d, q, sha)
         || Collide(Material(c), Material(d), IsSensed(c), sha)
  {
    var i := ProvedIdentity(c.fields, ReadSubject(c).value, sha);
    var j := ProvedIdentity(d.fields, ReadSubject(d).value, sha);
    IdentitiesAgree(i, j, sha);
  }
}
