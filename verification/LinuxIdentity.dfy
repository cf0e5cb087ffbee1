/** The Linux sensor's native process identity and its retained proof (response_engine/linux_identity.py). */
module LinuxIdentity {
  import opened Wrappers
  import opened Json
  import opened Utf8
  import opened Decimal
  import opened Contract
  import opened Paths

  /** A SHA-256 hexdigest; the hash itself is any function with results of this shape. */
  type Digest = s: string | IsHex(s, 64) witness seq(64, _ => '0')

  type Sha256 = Bytes -> Digest

  const MODEL := "linux_endpoint_v1"

  predicate IsUuid(s: string) {
    && |s| == 36
    && forall i :: 0 <= i < 36 ==>
         if i == 8 || i == 13 || i == 18 || i == 23 then s[i] == '-' else IsHexDigit(s[i])
  }

  // ---- the two hashed materials ----

  function EntityMaterial(host: string, boot: string, pid: nat, ticks: nat): string {
    host + "|" + boot + "|" + Print(pid) + "|" + Print(ticks)
  }

  function RecordMaterial(sensor: string, boot: string, number: nat): string {
    sensor + "|" + boot + "|" + Print(number)
  }

  function ShortHash(sha: Sha256, material: string): string {
    sha(Encode(material))[..32]
  }

  /** Text after the last bar can be told apart whatever stands before it. */
  lemma LastBar(a: string, x: string, b: string, y: string)
    requires Lacks(x, '|') && Lacks(y, '|')
    requires a + "|" + x == b + "|" + y
    ensures a == b && x == y
  {
    var s, t := a + "|" + x, b + "|" + y;
    assert s[|a|] == '|' && forall i :: |a| < i < |s| ==> s[i] == x[i - |a| - 1] != '|';
    assert t[|b|] == '|' && forall i :: |b| < i < |t| ==> t[i] == y[i - |b| - 1] != '|';
    assert s[..|a|] == a && t[..|b|] == b;
    assert s[|a| + 1..] == x && t[|b| + 1..] == y;
  }

  /** The host may hold bars; the boot identity and the numbers after it cannot. */
  lemma EntityMaterialInjective(h: string, b: string, p: nat, t: nat, h': string, b': string, p': nat, t': nat)
    requires IsUuid(b) && IsUuid(b')
    requires Encode(EntityMaterial(h, b, p, t)) == Encode(EntityMaterial(h', b', p', t'))
    ensures h == h' && b == b' && p == p' && t == t'
  {
    EncodeInjective(EntityMaterial(h, b, p, t), EntityMaterial(h', b', p', t'));
    LastBar(h + "|" + b + "|" + Print(p), Print(t), h' + "|" + b' + "|" + Print(p'), Print(t'));
    LastBar(h + "|" + b, Print(p), h' + "|" + b', Print(p'));
    LastBar(h, b, h', b');
    PrintInjective(p, p');
    PrintInjective(t, t');
  }

  lemma RecordMaterialInjective(s: string, b: string, n: nat, s': string, b': string, n': nat)
    requires IsUuid(b) && IsUuid(b')
    requires Encode(RecordMaterial(s, b, n)) == Encode(RecordMaterial(s', b', n'))
    ensures s == s' && b == b' && n == n'
  {
    EncodeInjective(RecordMaterial(s, b, n), RecordMaterial(s', b', n'));
    LastBar(s + "|" + b, Print(n), s' + "|" + b', Print(n'));
    LastBar(s, b, s', b');
    PrintInjective(n, n');
  }

  /** What precedes the last number is a boot identity in one material and a number in the other. */
  lemma MaterialsDisjoint(h: string, b: string, p: nat, t: nat, s: string, b': string, n: nat)
    requires IsUuid(b) && IsUuid(b')
    ensures Encode(EntityMaterial(h, b, p, t)) != Encode(RecordMaterial(s, b', n))
  {
    assert b'[8] == '-' && forall i :: 0 <= i < |Print(p)| ==> Print(p)[i] != '-';
    if Encode(EntityMaterial(h, b, p, t)) == Encode(RecordMaterial(s, b', n)) {
      EncodeInjective(EntityMaterial(h, b, p, t), RecordMaterial(s, b', n));
      LastBar(h + "|" + b + "|" + Print(p), Print(t), s + "|" + b', Print(n));
      LastBar(h + "|" + b, Print(p), s, b');
    }
  }

  // ---- building a context from a record ----

  datatype Native = Native(agent: string, host: string, boot: string, sensor: string, pid: nat, ticks: nat, number: nat)

  predicate NativeAccepted(n: Native) {
    && n.agent != "" && n.host != "" && IsUuid(n.boot) && n.sensor != ""
    && 0 < n.pid <= MAX_UINT32 && 0 < n.ticks <= MAX_UINT64 && 0 < n.number <= MAX_UINT64
  }

  function EntityId(n: Native, sha: Sha256): string {
    ShortHash(sha, EntityMaterial(n.host, n.boot, n.pid, n.ticks))
  }

  function RecordId(n: Native, sha: Sha256): string {
    ShortHash(sha, RecordMaterial(n.sensor, n.boot, n.number))
  }

  function BootDigest(n: Native, sha: Sha256): string {
    "boot_" + sha(Encode(n.boot))
  }

  predicate InRange(v: Json, max: nat) {
    v.Int? && 0 < v.i <= max
  }

  /** The gates of linux_endpoint_context: the native identity a record proves, if it proves one. */
  function ReadRecord(record: Json, agentId: Json, sha: Sha256): (r: Option<Native>)
    ensures r.Some? ==> NativeAccepted(r.value)
  {
    if !record.Dict? || !agentId.Str? || agentId.s == "" then None
    else
      var r := record.fields;
      var host, process, sensor := Get(r, "host"), Get(r, "process"), Get(r, "sensor");
      if !host.Dict? || !process.Dict? || !sensor.Dict? then None
      else
        var hostId, boot := Get(host.fields, "id"), Get(host.fields, "boot_id");
        var pid, ticks, number := Get(process.fields, "pid"), Get(process.fields, "start_ticks"), Get(r, "seq");
        var confidence, sensorId := Get(process.fields, "confidence"), Get(sensor.fields, "id");
        if || Get(r, "schema_version") != Str("1.0")
           || Get(r, "record_type") != Str("event")
           || Get(r, "type") != Str("process.exec")
           || !hostId.Str? || hostId.s == ""
           || !boot.Str? || !IsUuid(boot.s)
           || !sensorId.Str? || sensorId.s == ""
           || !InRange(pid, MAX_UINT32)
           || !InRange(ticks, MAX_UINT64)
           || !InRange(number, MAX_UINT64)
           || !confidence.Dict? || Get(confidence.fields, "identity") != Str("observed")
        then None
        else
          var n := Native(agentId.s, hostId.s, boot.s, sensorId.s, pid.i, ticks.i, number.i);
          if Get(process.fields, "entity_id") != Str(EntityId(n, sha)) || Get(r, "id") != Str(RecordId(n, sha)) then None
          else Some(n)
  }

  function EndpointOf(n: Native, sha: Sha256): Object {
    map["agent_id" := Str(n.agent), "host_id" := Str(n.host), "boot_id" := Str(BootDigest(n, sha))]
  }

  function SubjectOf(n: Native, sha: Sha256): Object {
    map["observed_pid" := Int(n.pid), "native_creation_ticks" := Str(Print(n.ticks)),
        "boot_id" := Str(BootDigest(n, sha)), "resolution" := Str("native_exact"),
        "entity_id" := Str(EntityId(n, sha))]
  }

  function ProofOf(n: Native): Object {
    map["boot_uuid" := Str(n.boot), "sensor_id" := Str(n.sensor), "seq" := Int(n.number)]
  }

  function ContextOf(n: Native, sha: Sha256): Object {
    map["identity_model" := Str(MODEL), "record_id" := Str(RecordId(n, sha)),
        "endpoint" := Dict(EndpointOf(n, sha)), "subject" := Dict(SubjectOf(n, sha)),
        "linux_identity" := Dict(ProofOf(n))]
  }

  /** linux_endpoint_context */
  function Build(record: Json, agentId: Json, sha: Sha256): Option<Object> {
    match ReadRecord(record, agentId, sha)
    case None => None
    case Some(n) => Some(ContextOf(n, sha))
  }

  // ---- what the builder asks of a record ----

  predicate HexText(s: string, width: nat) {
    |s| == width && forall i :: 0 <= i < |s| ==> s[i] in "0123456789abcdef"
  }

  lemma HexTextExactly(s: string, width: nat)
    ensures HexText(s, width) <==> |s| == width && forall i :: 0 <= i < |s| ==> IsHexDigit(s[i])
  {
    forall c
      ensures IsHexDigit(c) <==> c in "0123456789abcdef"
    {
      HexDigitExactly(c);
    }
  }

  function Grouped(a: string, b: string, c: string, d: string, e: string): string {
    a + "-" + b + "-" + c + "-" + d + "-" + e
  }

  predicate FiveGroups(a: string, b: string, c: string, d: string, e: string) {
    HexText(a, 8) && HexText(b, 4) && HexText(c, 4) && HexText(d, 4) && HexText(e, 12)
  }

  lemma GroupedIsUuid(a: string, b: string, c: string, d: string, e: string)
    requires FiveGroups(a, b, c, d, e)
    ensures IsUuid(Grouped(a, b, c, d, e))
  {
    HexTextExactly(a, 8);
    HexTextExactly(b, 4);
    HexTextExactly(c, 4);
    HexTextExactly(d, 4);
    HexTextExactly(e, 12);
  }

  /** A boot identity is five groups of lower-case hexadecimal digits. */
  lemma UuidExactly(s: string)
    ensures IsUuid(s) <==> exists a, b, c, d, e :: FiveGroups(a, b, c, d, e) && s == Grouped(a, b, c, d, e)
  {
    if IsUuid(s) {
      var a, b, c, d, e := s[..8], s[9..13], s[14..18], s[19..23], s[24..];
      HexTextExactly(a, 8);
      HexTextExactly(b, 4);
      HexTextExactly(c, 4);
      HexTextExactly(d, 4);
      HexTextExactly(e, 12);
      assert FiveGroups(a, b, c, d, e);
      assert Grouped(a, b, c, d, e) == s;
    }
    forall a, b, c, d, e | FiveGroups(a, b, c, d, e)
      ensures IsUuid(Grouped(a, b, c, d, e))
    {
      GroupedIsUuid(a, b, c, d, e);
    }
  }

  /** The record's own entries prove this native identity, by the two hashes among them. */
  predicate RecordProves(record: Json, agentId: Json, n: Native, sha: Sha256) {
    && n.agent != "" && agentId == Str(n.agent)
    && Entry(record, "schema_version") == Str("1.0")
    && Entry(record, "record_type") == Str("event")
    && Entry(record, "type") == Str("process.exec")
    && n.host != "" && Entry(Entry(record, "host"), "id") == Str(n.host)
    && IsUuid(n.boot) && Entry(Entry(record, "host"), "boot_id") == Str(n.boot)
    && n.sensor != "" && Entry(Entry(record, "sensor"), "id") == Str(n.sensor)
    && 1 <= n.pid <= 4294967295 && Entry(Entry(record, "process"), "pid") == Int(n.pid)
    && 1 <= n.ticks <= 18446744073709551615 && Entry(Entry(record, "process"), "start_ticks") == Int(n.ticks)
    && 1 <= n.number <= 18446744073709551615 && Entry(record, "seq") == Int(n.number)
    && Entry(Entry(Entry(record, "process"), "confidence"), "identity") == Str("observed")
    && Entry(Entry(record, "process"), "entity_id")
       == Str(sha(Encode(n.host + "|" + n.boot + "|" + Print(n.pid) + "|" + Print(n.ticks)))[..32])
    && Entry(record, "id") == Str(sha(Encode(n.sensor + "|" + n.boot + "|" + Print(n.number)))[..32])
  }

  lemma ReadRecordHolds(record: Json, agentId: Json, n: Native, sha: Sha256)
    requires ReadRecord(record, agentId, sha) == Some(n)
    ensures RecordProves(record, agentId, n, sha)
  {
  }

  lemma ReadRecordExactly(record: Json, agentId: Json, n: Native, sha: Sha256)
    ensures ReadRecord(record, agentId, sha) == Some(n) <==> RecordProves(record, agentId, n, sha)
  {
    if ReadRecord(record, agentId, sha) == Some(n) {
      ReadRecordHolds(record, agentId, n, sha);
    }
  }

  /** The context as it is written for an identity, entry by entry. */
  lemma ContextEntries(n: Native, sha: Sha256)
    ensures var context, digest := ContextOf(n, sha), Str("boot_" + sha(Encode(n.boot)));
            var entity := Str(sha(Encode(n.host + "|" + n.boot + "|" + Print(n.pid) + "|" + Print(n.ticks)))[..32]);
            context == map[
              "identity_model" := Str("linux_endpoint_v1"),
              "record_id" := Str(sha(Encode(n.sensor + "|" + n.boot + "|" + Print(n.number)))[..32]),
              "endpoint" := Dict(map["agent_id" := Str(n.agent), "host_id" := Str(n.host), "boot_id" := digest]),
              "subject" := Dict(map["observed_pid" := Int(n.pid), "native_creation_ticks" := Str(Print(n.ticks)),
                                    "boot_id" := digest, "resolution" := Str("native_exact"), "entity_id" := entity]),
              "linux_identity" := Dict(map["boot_uuid" := Str(n.boot), "sensor_id" := Str(n.sensor),
                                           "seq" := Int(n.number)])]
  {
  }

  /** A context is built exactly when the record's own entries prove an identity, and it is that identity's. */
  lemma BuildExactly(record: Json, agentId: Json, context: Object, sha: Sha256)
    ensures Build(record, agentId, sha) == Some(context)
        <==> exists n :: RecordProves(record, agentId, n, sha) && context == ContextOf(n, sha)
  {
    var read := ReadRecord(record, agentId, sha);
    if read.Some? {
      ReadRecordHolds(record, agentId, read.value, sha);
    }
    forall n | RecordProves(record, agentId, n, sha)
      ensures read == Some(n)
    {
      ReadRecordExactly(record, agentId, n, sha);
    }
  }

  // ---- rechecking a retained proof ----

  function HostOf(host: Json, boot: Json): Object {
    map["id" := host, "boot_id" := boot]
  }

  function ProcessOf(pid: Json, ticks: Json, entity: Json): Object {
    map["pid" := pid, "start_ticks" := ticks, "entity_id" := entity,
        "confidence" := Dict(map["identity" := Str("observed")])]
  }

  /** The record that verified_linux_subject puts together from retained values. */
  function RecordOf(id: Json, number: Json, host: Object, sensor: Json, process: Object): Object {
    map["schema_version" := Str("1.0"), "record_type" := Str("event"), "type" := Str("process.exec"),
        "id" := id, "seq" := number, "host" := Dict(host), "sensor" := Dict(map["id" := sensor]),
        "process" := Dict(process)]
  }

  lemma RecordParts(id: Json, number: Json, host: Object, sensor: Json, process: Object)
    ensures var r := RecordOf(id, number, host, sensor, process);
            && Get(r, "schema_version") == Str("1.0") && Get(r, "record_type") == Str("event")
            && Get(r, "type") == Str("process.exec") && Get(r, "id") == id && Get(r, "seq") == number
            && Get(r, "host") == Dict(host) && Get(r, "process") == Dict(process)
            && Get(r, "sensor").Dict? && Get(Get(r, "sensor").fields, "id") == sensor
  {
  }

  lemma ProcessParts(pid: Json, ticks: Json, entity: Json)
    ensures var p := ProcessOf(pid, ticks, entity);
            && Get(p, "pid") == pid && Get(p, "start_ticks") == ticks && Get(p, "entity_id") == entity
            && Get(p, "confidence").Dict? && Get(Get(p, "confidence").fields, "identity") == Str("observed")
  {
  }

  function Retained(recordId: Json, endpoint: Object, subject: Object, proof: Object, ticks: nat): Json {
    Dict(RecordOf(recordId, Get(proof, "seq"), HostOf(Get(endpoint, "host_id"), Get(proof, "boot_uuid")),
                  Get(proof, "sensor_id"),
                  ProcessOf(Get(subject, "observed_pid"), Int(ticks), Get(subject, "entity_id"))))
  }

  /** verified_linux_subject */
  predicate Verified(context: Object, sha: Sha256) {
    var endpoint, subject, proof := Get(context, "endpoint"), Get(context, "subject"), Get(context, "linux_identity");
    && endpoint.Dict? && subject.Dict? && proof.Dict?
    && var ticks := Get(subject.fields, "native_creation_ticks");
    && ticks.Str? && TickShape(ticks.s)
    && var record := Retained(Get(context, "record_id"), endpoint.fields, subject.fields, proof.fields, Read(ticks.s));
    && var rebuilt := Build(record, Get(endpoint.fields, "agent_id"), sha);
    && rebuilt.Some? && Extends(context, rebuilt.value)
  }

  function NativeRecord(n: Native, sha: Sha256): Json {
    Dict(RecordOf(Str(RecordId(n, sha)), Int(n.number), HostOf(Str(n.host), Str(n.boot)), Str(n.sensor),
                  ProcessOf(Int(n.pid), Int(n.ticks), Str(EntityId(n, sha)))))
  }

  /** Every acceptable identity has a record that proves it. */
  lemma NativeRecordReads(n: Native, sha: Sha256)
    requires NativeAccepted(n)
    ensures ReadRecord(NativeRecord(n, sha), Str(n.agent), sha) == Some(n)
  {
    var host, process := HostOf(Str(n.host), Str(n.boot)), ProcessOf(Int(n.pid), Int(n.ticks), Str(EntityId(n, sha)));
    RecordParts(Str(RecordId(n, sha)), Int(n.number), host, Str(n.sensor), process);
    ProcessParts(Int(n.pid), Int(n.ticks), Str(EntityId(n, sha)));
    assert Get(host, "id") == Str(n.host) && Get(host, "boot_id") == Str(n.boot);
  }

  /** The parts of an identity's context are retained as that identity's record. */
  lemma RetainedIsNativeRecord(n: Native, sha: Sha256)
    ensures Retained(Str(RecordId(n, sha)), EndpointOf(n, sha), SubjectOf(n, sha), ProofOf(n), n.ticks)
         == NativeRecord(n, sha)
  {
  }

  lemma HeldParts(context: Object, n: Native, sha: Sha256)
    requires Extends(context, ContextOf(n, sha))
    ensures Get(context, "record_id") == Str(RecordId(n, sha))
    ensures Get(context, "endpoint") == Dict(EndpointOf(n, sha))
    ensures Get(context, "subject") == Dict(SubjectOf(n, sha))
    ensures Get(context, "linux_identity") == Dict(ProofOf(n))
    ensures Get(context, "identity_model") == Str(MODEL)
  {
    var held := ContextOf(n, sha);
    assert "record_id" in held && "endpoint" in held && "subject" in held && "linux_identity" in held;
    assert "identity_model" in held;
  }

  /** A context that holds what some acceptable identity gives passes the recheck. */
  lemma HeldContextVerifies(context: Object, n: Native, sha: Sha256)
    requires NativeAccepted(n) && Extends(context, ContextOf(n, sha))
    ensures Verified(context, sha)
  {
    HeldParts(context, n, sha);
    PrintIsUint64Text(n.ticks);
    assert Get(SubjectOf(n, sha), "native_creation_ticks") == Str(Print(n.ticks));
    assert Get(EndpointOf(n, sha), "agent_id") == Str(n.agent);
    RetainedIsNativeRecord(n, sha);
    NativeRecordReads(n, sha);
  }

  /** The identity behind a verified context. */
  lemma VerifiedHoldsIdentity(context: Object, sha: Sha256) returns (n: Native)
    requires Verified(context, sha)
    ensures NativeAccepted(n) && Extends(context, ContextOf(n, sha))
  {
    var endpoint, subject := context["endpoint"].fields, context["subject"].fields;
    var proof := context["linux_identity"].fields;
    var record := Retained(Get(context, "record_id"), endpoint, subject, proof, Read(subject["native_creation_ticks"].s));
    n := ReadRecord(record, Get(endpoint, "agent_id"), sha).value;
  }

  /**
   The recheck is exact: it passes just those contexts that agree, on every key the builder writes,
   with the context of some acceptable record.
   */
  lemma VerifiedExactly(context: Object, sha: Sha256)
    ensures Verified(context, sha)
        <==> exists record, agentId :: Build(record, agentId, sha).Some?
                                       && Extends(context, Build(record, agentId, sha).value)
  {
    if Verified(context, sha) {
      var n := VerifiedHoldsIdentity(context, sha);
      NativeRecordReads(n, sha);
      assert Build(NativeRecord(n, sha), Str(n.agent), sha) == Some(ContextOf(n, sha));
    }
    forall record, agentId | Build(record, agentId, sha).Some?
                             && Extends(context, Build(record, agentId, sha).value)
      ensures Verified(context, sha)
    {
      HeldContextVerifies(context, ReadRecord(record, agentId, sha).value, sha);
    }
  }
}
