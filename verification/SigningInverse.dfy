/** A parser for command signing bytes, and the proof that the bytes determine the command. */
module SigningInverse {
  import opened Wrappers
  import opened Json
  import opened Utf8
  import opened Decimal
  import opened FieldCodec
  import opened Contract
  import opened Signing

  function NumberOf(text: string): Json {
    if Canonical(text) then Int(Read(text)) else Null
  }

  /**
   The target that left these four texts. The closed target schema tells a field that was present
   from a zero or empty fill-in, and a native tick text from an integer.
   */
  function Rebuild(schema: string, action: Action, pid: string, ticks: string, boot: string, path: string): Object {
    if schema == "2" then
      map["pid" := NumberOf(pid), "start_time_ticks" := Str(ticks), "boot_id" := Str(boot)]
    else if IsProcessAction(action) then
      map["pid" := NumberOf(pid), "start_time_ticks" := NumberOf(ticks)]
    else if IsFileAction(action) then
      map["path" := Str(path)]
    else
      map[]
  }

  /** Reads twelve field values back; anything that would not print to the same values is refused. */
  function Assemble(values: seq<string>): Option<Signed>
    requires |values| == |NAMES|
  {
    if ParseAction(values[5]).None? || !Canonical(values[6]) || !Canonical(values[7]) then None
    else
      var action := ParseAction(values[5]).value;
      var v := Signed(values[0], values[1], values[2], values[3], values[4], action,
                      Read(values[6]), Read(values[7]),
                      Rebuild(values[0], action, values[8], values[9], values[10], values[11]));
      if WellFormed(v) && Values(v) == values then Some(v) else None
  }

  function ParseCommand(bs: Bytes): Option<Signed> {
    match TakePrefix(DomainLine(), bs)
    case None => None
    case Some(body) =>
      match ParseFields(NAMES, body)
      case None => None
      case Some((values, rest)) =>
        if |values| == |NAMES| && rest == [] then Assemble(values) else None
  }

  lemma RebuildInverts(schema: string, action: Action, target: Object)
    requires TargetAccepted(schema, action, target, true)
    ensures Rebuild(schema, action, NumberText(target, "pid"), NumberText(target, "start_time_ticks"),
                    PlainText(target, "boot_id"), PlainText(target, "path")) == target
  {
    if schema == "2" {
      ReadPrint(target["pid"].i);
      assert target == map["pid" := target["pid"], "start_time_ticks" := target["start_time_ticks"],
                           "boot_id" := target["boot_id"]];
    } else if IsProcessAction(action) {
      ReadPrint(target["pid"].i);
      ReadPrint(target["start_time_ticks"].i);
      assert target == map["pid" := target["pid"], "start_time_ticks" := target["start_time_ticks"]];
    }
  }

  lemma AssembleInvertsValues(v: Signed)
    requires WellFormed(v)
    ensures Assemble(Values(v)) == Some(v)
  {
    ParseActionExact(Name(v.action), v.action);
    ReadPrint(v.createdAt);
    ReadPrint(v.expiresAt);
    RebuildInverts(v.schema, v.action, v.target);
  }

  /** The parser inverts the encoder, and accepts nothing but the encoder's output. */
  lemma ParseCommandExact(bs: Bytes, v: Signed)
    ensures ParseCommand(bs) == Some(v) <==> WellFormed(v) && bs == Render(v)
  {
    if WellFormed(v) && bs == Render(v) {
      var body := Fields(NAMES, Values(v));
      assert TakePrefix(DomainLine(), bs) == Some(body);
      assert body + [] == body;
      FieldsExact(NAMES, body, Values(v), []);
      AssembleInvertsValues(v);
    }
    if ParseCommand(bs) == Some(v) {
      var body := TakePrefix(DomainLine(), bs).value;
      FieldsExact(NAMES, body, Values(v), []);
      assert body + [] == body;
    }
  }

  /** No rendered command starts another. */
  lemma CommandsPrefixFree(v: Signed, w: Signed)
    requires WellFormed(v) && WellFormed(w)
    requires Render(v) <= Render(w)
    ensures v == w
  {
    var domain, fv, fw := DomainLine(), Fields(NAMES, Values(v)), Fields(NAMES, Values(w));
    assert fv <= fw by {
      assert (domain + fv)[|domain|..] == fv && (domain + fw)[|domain|..] == fw;
    }
    FieldsPrefixFree(NAMES, Values(v), Values(w));
    AssembleInvertsValues(v);
    AssembleInvertsValues(w);
  }

  /**
   Two commands the encoder signs alike, or one of which it signs as a prefix of the other, agree on
   every entry but authorization; their two times name the same seconds.
   */
  lemma SignedBytesDetermineCommand(c: Json, d: Json, clock: Clock)
    requires Sign(c, clock).Success? && Sign(d, clock).Success?
    requires Sign(c, clock).value <= Sign(d, clock).value
    ensures var f, g := Open(c.fields), Open(d.fields);
            && f.contract.(expiresAt := Null) == g.contract.(expiresAt := Null)
            && f.hostId == g.hostId
            && clock.epoch(f.createdAt.s) == clock.epoch(g.createdAt.s)
            && clock.epoch(f.contract.expiresAt.s) == clock.epoch(g.contract.expiresAt.s)
  {
    var e, h := Open(c.fields), Open(d.fields);
    CommandsPrefixFree(View(e, clock), View(h, clock));
    ParseActionExact(e.contract.action.s, View(e, clock).action);
    ParseActionExact(h.contract.action.s, View(h, clock).action);
  }

  /** A dictionary is signed exactly when its required entries pass these checks; no later check fails. */
  lemma SignedExactly(command: Json, clock: Clock)
    ensures Sign(command, clock).Success? <==> Closed(command) && Signable(Open(command.fields), clock)
    ensures Sign(command, clock).Success?
        ==> ParseCommand(Sign(command, clock).value) == Some(View(Open(command.fields), clock))
  {
    if Sign(command, clock).Success? {
      var v := View(Open(command.fields), clock);
      ParseCommandExact(Render(v), v);
    }
  }

  // ---- every parsed command is one that some dictionary signs ----

  /** A dictionary for a view, with its times written as plain seconds. */
  function DictionaryOf(v: Signed): Object {
    map["schema_version" := Str(v.schema), "command_id" := Str(v.commandId), "correlation_id" := Str(v.correlationId),
        "agent_id" := Str(v.agentId), "host_id" := Str(v.hostId), "action" := Str(Name(v.action)),
        "created_at" := Str(Print(v.createdAt)), "expires_at" := Str(Print(v.expiresAt)), "target" := Dict(v.target)]
  }

  function SecondsClock(): Clock {
    Clock(s => if AllDigits(s) then Some(Read(s)) else None, t => Some(true))
  }

  function EnvelopeOf(v: Signed): Envelope {
    Envelope(CommandFields(Str(v.commandId), Str(v.schema), Str(v.agentId), Str(Name(v.action)),
                           Str(Print(v.expiresAt)), Dict(v.target), Str(v.correlationId)),
             Str(v.hostId), Str(Print(v.createdAt)))
  }

  lemma DictionaryOpens(v: Signed)
    ensures Closed(Dict(DictionaryOf(v))) && Open(DictionaryOf(v)) == EnvelopeOf(v)
  {
  }

  lemma EnvelopeSigns(v: Signed)
    requires WellFormed(v)
    ensures Signable(EnvelopeOf(v), SecondsClock()) && View(EnvelopeOf(v), SecondsClock()) == v
  {
    ParseActionExact(Name(v.action), v.action);
    ReadPrint(v.createdAt);
    ReadPrint(v.expiresAt);
  }

  lemma WellFormedIsSigned(v: Signed)
    requires WellFormed(v)
    ensures Sign(Dict(DictionaryOf(v)), SecondsClock()) == Success(Render(v))
  {
    DictionaryOpens(v);
    EnvelopeSigns(v);
  }

  /** The parser accepts exactly the bytes that are signed for some dictionary. */
  lemma ParsedExactlyWhatIsSigned(bs: Bytes)
    ensures ParseCommand(bs).Some? <==> exists command, clock :: Sign(command, clock) == Success(bs)
  {
    if ParseCommand(bs).Some? {
      var v := ParseCommand(bs).value;
      ParseCommandExact(bs, v);
      WellFormedIsSigned(v);
    }
    forall command, clock | Sign(command, clock) == Success(bs)
      ensures ParseCommand(bs).Some?
    {
      SignedExactly(command, clock);
    }
  }
}
