/**
 Canonical command signing bytes (response_engine/signing.py): what is signed, and the encoder proved
 against it.
 */
module Signing {
  import opened Wrappers
  import opened Json
  import opened Utf8
  import opened Decimal
  import opened FieldCodec
  import opened Contract

  const DOMAIN := "panopticon-command-auth/1\n"

  function DomainLine(): Bytes {
    Literal(DOMAIN)
  }

  const NAMES: seq<Bytes> := [
    Literal("schema_version"), Literal("command_id"), Literal("correlation_id"), Literal("agent_id"),
    Literal("host_id"), Literal("action"), Literal("created_at"), Literal("expires_at"), Literal("pid"),
    Literal("start_time_ticks"), Literal("boot_id"), Literal("path")
  ]

  const REQUIRED := {
    "schema_version", "command_id", "correlation_id", "agent_id", "host_id", "action",
    "created_at", "expires_at", "target"
  }

  datatype Unsignable =
    | EnvelopeNotClosed
    | HostInvalid
    | ContractRefused
    | TargetNotObject
    | IdentityNotText
    | SchemaDisagrees
    | NotATime
    | NotUnsigned
    | FieldNotText

  /** The date library: epoch reads a text as whole epoch seconds, parse as the contract reads it. */
  datatype Clock = Clock(epoch: string -> Option<nat>, parse: Json -> Option<bool>)

  // ---- what is signed ----

  /** Everything the signed bytes speak about. */
  datatype Signed = Signed(
    schema: string, commandId: string, correlationId: string, agentId: string, hostId: string,
    action: Action, createdAt: nat, expiresAt: nat, target: Object)

  predicate IsId(s: string) {
    1 <= |s| <= 128
  }

  predicate WellFormed(v: Signed) {
    && (v.schema == "1" || v.schema == "2")
    && IsId(v.commandId) && IsId(v.correlationId) && IsId(v.agentId) && IsId(v.hostId)
    && TargetAccepted(v.schema, v.action, v.target, true)
  }

  /** A number of the target as signed: integers in decimal, native tick texts verbatim. */
  function NumberText(target: Object, key: string): string {
    match GetOr(target, key, Int(0))
    case Int(i) => if i >= 0 then Print(i) else ""
    case Str(s) => s
    case _ => ""
  }

  function PlainText(target: Object, key: string): string {
    match GetOr(target, key, Str(""))
    case Str(s) => s
    case _ => ""
  }

  function Values(v: Signed): (values: seq<string>)
    ensures |values| == |NAMES|
  {
    [v.schema, v.commandId, v.correlationId, v.agentId, v.hostId, Name(v.action),
     Print(v.createdAt), Print(v.expiresAt),
     NumberText(v.target, "pid"), NumberText(v.target, "start_time_ticks"),
     PlainText(v.target, "boot_id"), PlainText(v.target, "path")]
  }

  function Render(v: Signed): Bytes {
    DomainLine() + Fields(NAMES, Values(v))
  }

  // ---- which dictionaries are signed ----

  predicate Closed(command: Json) {
    command.Dict? && REQUIRED <= command.fields.Keys <= REQUIRED + {"authorization"}
  }

  /** The required entries of a closed dictionary; authorization is not looked at. */
  datatype Envelope = Envelope(contract: CommandFields, hostId: Json, createdAt: Json)

  function Open(o: Object): Envelope
    requires REQUIRED <= o.Keys
  {
    Envelope(CommandFields(o["command_id"], o["schema_version"], o["agent_id"], o["action"],
                           o["expires_at"], o["target"], o["correlation_id"]),
             o["host_id"], o["created_at"])
  }

  predicate TimeReads(clock: Clock, v: Json) {
    v.Str? && clock.epoch(v.s).Some?
  }

  predicate Signable(e: Envelope, clock: Clock) {
    && IsShortText(e.hostId, 128)
    && CommandAccepted(e.contract, clock.parse)
    && TimeReads(clock, e.createdAt)
    && TimeReads(clock, e.contract.expiresAt)
  }

  function View(e: Envelope, clock: Clock): (v: Signed)
    requires Signable(e, clock)
    ensures WellFormed(v)
  {
    var c := e.contract;
    Signed(c.schemaVersion.s, c.commandId.s, c.correlationId.s, c.agentId.s, e.hostId.s,
           ParseAction(c.action.s).value, clock.epoch(e.createdAt.s).value, clock.epoch(c.expiresAt.s).value,
           c.target.fields)
  }

  /** Signing as a function: the first refusal that applies, or the rendered view. */
  function Sign(command: Json, clock: Clock): Result<Bytes, Unsignable> {
    if !Closed(command) then Failure(EnvelopeNotClosed)
    else
      var e := Open(command.fields);
      if !IsShortText(e.hostId, 128) then Failure(HostInvalid)
      else if !CommandAccepted(e.contract, clock.parse) then Failure(ContractRefused)
      else if !Signable(e, clock) then Failure(NotATime)
      else Success(Render(View(e, clock)))
  }

  // ---- the encoder ----

  /** _unsigned */
  function UnsignedText(target: Object, key: string): Result<string, Unsignable> {
    match GetOr(target, key, Int(0))
    case Int(i) => if i < 0 then Failure(NotUnsigned) else Success(Print(i))
    case Str(s) => if s != "" && AllDigits(s) then Success(Print(Read(s))) else Failure(NotUnsigned)
    case _ => Failure(NotUnsigned)
  }

  /** epoch_seconds */
  function EpochText(clock: Clock, v: Json): Result<string, Unsignable> {
    if TimeReads(clock, v) then Success(Print(clock.epoch(v.s).value)) else Failure(NotATime)
  }

  /** On a contract-accepted target the number checks pass and leave tick texts as they are. */
  lemma UnsignedIsVerbatim(schema: string, action: Action, target: Object, aware: bool, key: string)
    requires TargetAccepted(schema, action, target, aware)
    requires key == "pid" || key == "start_time_ticks"
    ensures UnsignedText(target, key) == Success(NumberText(target, key))
  {
    if key in target && target[key].Str? {
      Uint64TextRead(target[key].s);
    }
  }

  /** The identity checks after the contract check pass, and the schema version follows the boot identity. */
  lemma IdentityTexts(schema: string, action: Action, target: Object, aware: bool)
    requires TargetAccepted(schema, action, target, aware) && (schema == "1" || schema == "2")
    ensures GetOr(target, "boot_id", Str("")) == Str(PlainText(target, "boot_id"))
    ensures GetOr(target, "path", Str("")) == Str(PlainText(target, "path"))
    ensures schema == if PlainText(target, "boot_id") != "" then "2" else "1"
  {
  }

  function Texts(values: seq<Json>): seq<string> {
    seq(|values|, i requires 0 <= i < |values| => if values[i].Str? then values[i].s else "")
  }

  /** The loop that writes one field after another behind the domain line. */
  method WriteFields(domain: Bytes, names: seq<Bytes>, values: seq<Json>)
    returns (r: Result<Bytes, Unsignable>)
    requires |values| == |names|
    ensures r == if forall i :: 0 <= i < |values| ==> values[i].Str?
                 then Success(domain + Fields(names, Texts(values)))
                 else Failure(FieldNotText)
  {
    var out := domain;
    ghost var texts := Texts(values);
    for i := 0 to |names|
      invariant forall j :: 0 <= j < i ==> values[j].Str?
      invariant out + Fields(names[i..], texts[i..]) == domain + Fields(names, texts)
    {
      if !values[i].Str? {
        return Failure(FieldNotText);
      }
      assert names[i..][1..] == names[i + 1..] && texts[i..][1..] == texts[i + 1..];
      Shift(out, Field(names[i], values[i].s), Fields(names[i + 1..], texts[i + 1..]));
      out := out + Field(names[i], values[i].s);
    }
    assert out + [] == out;
    r := Success(out);
  }

  /** The twelve values of the encoder, in field order. */
  function Gather(e: Envelope, schema: string, created: string, expires: string, pid: string, ticks: string,
                  boot: string, path: string): (values: seq<Json>)
    ensures |values| == |NAMES|
  {
    [Str(schema), e.contract.commandId, e.contract.correlationId, e.contract.agentId, e.hostId, e.contract.action,
     Str(created), Str(expires), Str(pid), Str(ticks), Str(boot), Str(path)]
  }

  /** They are the ones the view calls for. */
  lemma GatheredValues(e: Envelope, clock: Clock)
    requires Signable(e, clock)
    ensures var v := View(e, clock);
            var values := Gather(e, v.schema, Print(v.createdAt), Print(v.expiresAt),
                                 NumberText(v.target, "pid"), NumberText(v.target, "start_time_ticks"),
                                 PlainText(v.target, "boot_id"), PlainText(v.target, "path"));
            && (forall i :: 0 <= i < |values| ==> values[i].Str?)
            && Texts(values) == Values(v)
  {
    ParseActionExact(e.contract.action.s, View(e, clock).action);
  }

  method SigningInput(command: Json, clock: Clock) returns (r: Result<Bytes, Unsignable>)
    ensures r == Sign(command, clock)
  {
    if !command.Dict? || !(REQUIRED <= command.fields.Keys)
       || command.fields.Keys - REQUIRED - {"authorization"} != {} {
      assert !Closed(command);
      return Failure(EnvelopeNotClosed);
    }
    var e := Open(command.fields);
    r := EncodeEnvelope(e, clock);
  }

  /** The body of signing_input once the envelope is known to be closed. */
  method EncodeEnvelope(e: Envelope, clock: Clock) returns (r: Result<Bytes, Unsignable>)
    ensures r.Success? <==> Signable(e, clock)
    ensures r.Success? ==> r.value == Render(View(e, clock))
    ensures r.Failure? ==> r.error == if !IsShortText(e.hostId, 128) then HostInvalid
                                      else if !CommandAccepted(e.contract, clock.parse) then ContractRefused
                                      else NotATime
  {
    var c := e.contract;
    if !e.hostId.Str? || !(1 <= |e.hostId.s| <= 128) {
      return Failure(HostInvalid);
    }
    if !CommandAccepted(c, clock.parse) {
      return Failure(ContractRefused);
    }
    var target := c.target.fields;
    ghost var action, aware := ParseAction(c.action.s).value, clock.parse(c.expiresAt).value;
    IdentityTexts(c.schemaVersion.s, action, target, aware);
    var boot, path := GetOr(target, "boot_id", Str("")), GetOr(target, "path", Str(""));
    if !boot.Str? || !path.Str? {
      return Failure(IdentityNotText);
    }
    var schema := if boot.s != "" then "2" else "1";
    if c.schemaVersion != Str(schema) {
      return Failure(SchemaDisagrees);
    }
    var created, expires := EpochText(clock, e.createdAt), EpochText(clock, c.expiresAt);
    if created.Failure? || expires.Failure? {
      return Failure(NotATime);
    }
    var pid, ticks := UnsignedText(target, "pid"), UnsignedText(target, "start_time_ticks");
    UnsignedIsVerbatim(c.schemaVersion.s, action, target, aware, "pid");
    UnsignedIsVerbatim(c.schemaVersion.s, action, target, aware, "start_time_ticks");
    if pid.Failure? || ticks.Failure? {
      return Failure(NotUnsigned);
    }
    GatheredValues(e, clock);
    r := WriteFields(DomainLine(), NAMES,
                     Gather(e, schema, created.value, expires.value, pid.value, ticks.value, boot.s, path.s));
  }
}
