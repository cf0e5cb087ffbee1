/**
 The two signing formats spelled out: which lines are signed, in which order, under which names and with
 which values of the signed dictionary.
 */
module WireLayout {
  import opened Wrappers
  import opened Json
  import opened Utf8
  import opened Decimal
  import opened FieldCodec
  import opened Contract
  import Signing
  import Artifacts

  /** A signed line: the value behind its name and its UTF-8 byte count. */
  function Line(name: string, value: string): string {
    name + ":" + Print(|Encode(value)|) + ":" + value + "\n"
  }

  /** One line after another, each a name and its value. */
  function Lines(entries: seq<(string, string)>): string {
    if entries == [] then "" else Line(entries[0].0, entries[0].1) + Lines(entries[1..])
  }

  predicate IsAscii(s: string) {
    forall i :: 0 <= i < |s| ==> s[i] as int < 0x80
  }

  lemma LiteralIsEncode(text: string)
    requires IsAscii(text)
    ensures Literal(text) == Encode(text)
  {
    EncodeAscii(text);
  }

  lemma EncodeSingle(c: char)
    requires c as int < 0x80
    ensures Encode([c]) == [c as int]
  {
    EncodeAscii([c]);
  }

  /** A field's bytes are the encoding of its line. */
  lemma FieldIsLine(name: string, value: string)
    requires IsAscii(name)
    ensures Field(Literal(name), value) == Encode(Line(name, value))
  {
    var count := Print(|Encode(value)|);
    LiteralIsEncode(name);
    EncodeConcat(name + ":" + count + ":" + value, ['\n']);
    EncodeConcat(name + ":" + count + ":", value);
    EncodeConcat(name + ":" + count, [':']);
    EncodeConcat(name + ":", count);
    EncodeConcat(name, [':']);
    EncodeSingle(':');
    EncodeSingle('\n');
    FieldBytes(Encode(name), Encode(count), Encode(value));
  }

  lemma FieldBytes(name: Bytes, count: Bytes, data: Bytes)
    ensures name + [COLON] + (count + [COLON] + data) + [NEWLINE] == name + [COLON] + count + [COLON] + data + [NEWLINE]
  {
  }

  lemma {:induction false} FieldsAreLines(labels: seq<Bytes>, values: seq<string>, entries: seq<(string, string)>)
    requires |labels| == |values| == |entries|
    requires forall i :: 0 <= i < |entries| ==>
               IsAscii(entries[i].0) && labels[i] == Literal(entries[i].0) && values[i] == entries[i].1
    ensures Fields(labels, values) == Encode(Lines(entries))
  {
    if entries != [] {
      FieldIsLine(entries[0].0, entries[0].1);
      FieldsAreLines(labels[1..], values[1..], entries[1..]);
      EncodeConcat(Line(entries[0].0, entries[0].1), Lines(entries[1..]));
    }
  }

  /** A format's bytes are the encoding of its domain line and its lines. */
  lemma FormatLayout(domain: string, labels: seq<Bytes>, values: seq<string>, entries: seq<(string, string)>)
    requires IsAscii(domain) && |labels| == |values| == |entries|
    requires forall i :: 0 <= i < |entries| ==>
               IsAscii(entries[i].0) && labels[i] == Literal(entries[i].0) && values[i] == entries[i].1
    ensures Literal(domain) + Fields(labels, values) == Encode(domain + Lines(entries))
  {
    LiteralIsEncode(domain);
    FieldsAreLines(labels, values, entries);
    EncodeConcat(domain, Lines(entries));
  }

  // ---- commands ----

  /** The entry of a target as it is signed: numbers in decimal, texts as they are, absent numbers as zero. */
  function Signed(target: Object, key: string, absent: string): string {
    if key !in target then absent
    else
      match target[key]
      case Int(i) => if i >= 0 then Print(i) else ""
      case Str(s) => s
      case _ => ""
  }

  /** The twelve lines of a command, from the entries of its dictionary. */
  function CommandEntries(o: Object, created: nat, expires: nat): seq<(string, string)> {
    var target := if Get(o, "target").Dict? then Get(o, "target").fields else map[];
    [
      ("schema_version", Signed(o, "schema_version", "")),
      ("command_id", Signed(o, "command_id", "")),
      ("correlation_id", Signed(o, "correlation_id", "")),
      ("agent_id", Signed(o, "agent_id", "")),
      ("host_id", Signed(o, "host_id", "")),
      ("action", Signed(o, "action", "")),
      ("created_at", Print(created)),
      ("expires_at", Print(expires)),
      ("pid", Signed(target, "pid", "0")),
      ("start_time_ticks", Signed(target, "start_time_ticks", "0")),
      ("boot_id", Signed(target, "boot_id", "")),
      ("path", Signed(target, "path", ""))
    ]
  }

  lemma ZeroText()
    ensures Print(0) == "0"
  {
  }

  /** What the view signs are the dictionary's own entries. */
  lemma ViewSignsEntries(o: Object, clock: Signing.Clock)
    requires Signing.REQUIRED <= o.Keys && Signing.Signable(Signing.Open(o), clock)
    ensures var v := Signing.View(Signing.Open(o), clock);
            && Signed(o, "schema_version", "") == v.schema && Signed(o, "command_id", "") == v.commandId
            && Signed(o, "correlation_id", "") == v.correlationId && Signed(o, "agent_id", "") == v.agentId
            && Signed(o, "host_id", "") == v.hostId && Signed(o, "action", "") == Name(v.action)
            && Get(o, "target") == Dict(v.target)
  {
    var e := Signing.Open(o);
    ParseActionExact(e.contract.action.s, Signing.View(e, clock).action);
  }

  lemma TargetEntries(target: Object)
    ensures Signed(target, "pid", "0") == Signing.NumberText(target, "pid")
    ensures Signed(target, "start_time_ticks", "0") == Signing.NumberText(target, "start_time_ticks")
    ensures Get(target, "boot_id").Int? || Signed(target, "boot_id", "") == Signing.PlainText(target, "boot_id")
    ensures Get(target, "path").Int? || Signed(target, "path", "") == Signing.PlainText(target, "path")
  {
    assert Print(0) == "0";
  }

  predicate AsciiNames(entries: seq<(string, string)>) {
    forall i :: 0 <= i < |entries| ==> IsAscii(entries[i].0)
  }

  lemma CommandNamesAscii(o: Object, created: nat, expires: nat)
    ensures AsciiNames(CommandEntries(o, created, expires))
  {
  }

  lemma CommandLabels(o: Object, created: nat, expires: nat)
    requires AsciiNames(CommandEntries(o, created, expires))
    ensures var entries := CommandEntries(o, created, expires);
            |entries| == |Signing.NAMES|
            && forall i :: 0 <= i < |entries| ==> Signing.NAMES[i] == Literal(entries[i].0)
  {
  }

  lemma CommandValues(o: Object, clock: Signing.Clock)
    requires Signing.REQUIRED <= o.Keys && Signing.Signable(Signing.Open(o), clock)
    ensures var v := Signing.View(Signing.Open(o), clock);
            var entries := CommandEntries(o, v.createdAt, v.expiresAt);
            |entries| == |Signing.Values(v)|
            && forall i :: 0 <= i < |entries| ==> entries[i].1 == Signing.Values(v)[i]
  {
    ViewSignsEntries(o, clock);
    TargetEntries(Signing.View(Signing.Open(o), clock).target);
  }

  lemma ViewLayout(o: Object, clock: Signing.Clock)
    requires Signing.REQUIRED <= o.Keys && Signing.Signable(Signing.Open(o), clock)
    ensures var v := Signing.View(Signing.Open(o), clock);
            Signing.Render(v) == Encode("panopticon-command-auth/1\n" + Lines(CommandEntries(o, v.createdAt, v.expiresAt)))
  {
    var v := Signing.View(Signing.Open(o), clock);
    CommandNamesAscii(o, v.createdAt, v.expiresAt);
    CommandLabels(o, v.createdAt, v.expiresAt);
    CommandValues(o, clock);
    FormatLayout("panopticon-command-auth/1\n", Signing.NAMES, Signing.Values(v),
                 CommandEntries(o, v.createdAt, v.expiresAt));
  }

  /** What is signed for a command: the domain line and the twelve lines of its own entries. */
  lemma CommandLayout(command: Json, clock: Signing.Clock)
    requires Signing.Sign(command, clock).Success?
    ensures var o := command.fields;
            && Get(o, "created_at").Str? && clock.epoch(o["created_at"].s).Some?
            && Get(o, "expires_at").Str? && clock.epoch(o["expires_at"].s).Some?
            && var created, expires := clock.epoch(o["created_at"].s).value, clock.epoch(o["expires_at"].s).value;
            && Signing.Sign(command, clock).value
               == Encode("panopticon-command-auth/1\n" + Lines(CommandEntries(o, created, expires)))
  {
    ViewLayout(command.fields, clock);
  }

  predicate ShortEntry(o: Object, key: string) {
    Get(o, key).Str? && 1 <= |o[key].s| <= 128
  }

  predicate TimeEntry(o: Object, key: string, clock: Signing.Clock) {
    Get(o, key).Str? && clock.epoch(o[key].s).Some?
  }

  /** The dictionary's action and target meet the contract in the schema version it declares. */
  ghost predicate ContractEntries(o: Object, clock: Signing.Clock) {
    exists schema, action, target, aware ::
      && (schema == "1" || schema == "2")
      && Get(o, "schema_version") == Str(schema) && Get(o, "action") == Str(Name(action))
      && Get(o, "target") == Dict(target) && clock.parse(Get(o, "expires_at")) == Some(aware)
      && TargetAccepted(schema, action, target, aware)
  }

  /** Which dictionaries are signed, entry by entry. */
  ghost predicate SignedEntries(command: Json, clock: Signing.Clock) {
    && command.Dict?
    && var o, keys := command.fields,
                      {"schema_version", "command_id", "correlation_id", "agent_id", "host_id", "action", "created_at",
                       "expires_at", "target"};
    && (o.Keys == keys || o.Keys == keys + {"authorization"})
    && ShortEntry(o, "command_id") && ShortEntry(o, "correlation_id")
    && ShortEntry(o, "agent_id") && ShortEntry(o, "host_id")
    && ContractEntries(o, clock)
    && TimeEntry(o, "created_at", clock) && TimeEntry(o, "expires_at", clock)
  }

  lemma ClosedKeys(command: Json)
    ensures Signing.Closed(command)
        <==> command.Dict?
             && var keys := {"schema_version", "command_id", "correlation_id", "agent_id", "host_id", "action",
                             "created_at", "expires_at", "target"};
                (command.fields.Keys == keys || command.fields.Keys == keys + {"authorization"})
  {
  }

  lemma ContractEntriesExactly(o: Object, clock: Signing.Clock)
    requires Signing.REQUIRED <= o.Keys
    requires ShortEntry(o, "command_id") && ShortEntry(o, "correlation_id") && ShortEntry(o, "agent_id")
    ensures CommandAccepted(Signing.Open(o).contract, clock.parse) <==> ContractEntries(o, clock)
  {
    var c := Signing.Open(o).contract;
    if CommandAccepted(c, clock.parse) {
      ParseActionExact(c.action.s, ParseAction(c.action.s).value);
    }
    forall action | c.action == Str(Name(action))
      ensures ParseAction(c.action.s) == Some(action)
    {
      ParseActionExact(c.action.s, action);
    }
  }

  lemma SignedEntriesExactly(command: Json, clock: Signing.Clock)
    ensures Signing.Sign(command, clock).Success? <==> SignedEntries(command, clock)
  {
    ClosedKeys(command);
    if Signing.Closed(command) {
      var o := command.fields;
      if ShortEntry(o, "command_id") && ShortEntry(o, "correlation_id") && ShortEntry(o, "agent_id") {
        ContractEntriesExactly(o, clock);
      }
    }
  }

  // ---- artifacts ----

  /** The thirteen lines of a manifest. */
  function ManifestEntries(m: Artifacts.Manifest): seq<(string, string)>
    requires m.contentBytes >= 0 && m.producedAtUnix >= 0
  {
    var kind := match m.kind
      case ProcessSnapshot => "process_snapshot"
      case NetworkSnapshot => "network_snapshot"
      case FileMetadata => "file_metadata"
      case ExecutionReport => "execution_report";
    [
      ("schema_version", m.schemaVersion),
      ("artifact_id", m.artifactId),
      ("agent_id", m.agentId),
      ("host_id", m.hostId),
      ("command_id", m.commandId),
      ("correlation_id", m.correlationId),
      ("kind", kind),
      ("media_type", m.mediaType),
      ("content_bytes", Print(m.contentBytes)),
      ("sha256", m.sha256),
      ("produced_at_unix", Print(m.producedAtUnix)),
      ("algorithm", m.authorization.algorithm),
      ("key_id", m.authorization.keyId)
    ]
  }

  lemma ManifestNamesAscii(m: Artifacts.Manifest)
    requires Artifacts.ManifestAccepted(m)
    ensures AsciiNames(ManifestEntries(m))
  {
  }

  lemma ManifestLabels(m: Artifacts.Manifest)
    requires Artifacts.ManifestAccepted(m) && AsciiNames(ManifestEntries(m))
    ensures |ManifestEntries(m)| == |Artifacts.FIELDS|
    ensures forall i :: 0 <= i < |Artifacts.FIELDS| ==>
              Artifacts.Label(Artifacts.FIELDS[i]) == Literal(ManifestEntries(m)[i].0)
  {
  }

  lemma ManifestValues(m: Artifacts.Manifest)
    requires Artifacts.ManifestAccepted(m)
    ensures |ManifestEntries(m)| == |Artifacts.FIELDS|
    ensures forall i :: 0 <= i < |Artifacts.FIELDS| ==>
              Artifacts.Text(m, Artifacts.FIELDS[i]) == ManifestEntries(m)[i].1
  {
  }

  /** What is signed for a manifest: the domain line and its thirteen lines. */
  lemma ManifestLayout(m: Artifacts.Manifest)
    requires Artifacts.ManifestAccepted(m)
    ensures Artifacts.Render(m) == Encode("panopticon-response-artifact-auth/2\n" + Lines(ManifestEntries(m)))
  {
    ManifestNamesAscii(m);
    ManifestLabels(m);
    ManifestValues(m);
    FormatLayout("panopticon-response-artifact-auth/2\n", Artifacts.Labels(Artifacts.FIELDS),
                 Artifacts.Texts(m, Artifacts.FIELDS), ManifestEntries(m));
  }
}
