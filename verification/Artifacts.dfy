/** Signed artifact manifests and their domain-separated signing bytes (response_engine/artifacts.py). */
module Artifacts {
  import opened Wrappers
  import opened Utf8
  import opened Decimal
  import opened FieldCodec
  import opened Contract
  import Signing

  datatype Kind = ProcessSnapshot | NetworkSnapshot | FileMetadata | ExecutionReport

  function KindText(k: Kind): string {
    match k
    case ProcessSnapshot => "process_snapshot"
    case NetworkSnapshot => "network_snapshot"
    case FileMetadata => "file_metadata"
    case ExecutionReport => "execution_report"
  }

  datatype Authorization = Authorization(algorithm: string, keyId: string, signature: string)

  datatype Manifest = Manifest(
    schemaVersion: string, artifactId: string, agentId: string, hostId: string, commandId: string,
    correlationId: string, kind: Kind, mediaType: string, contentBytes: int, sha256: string,
    producedAtUnix: int, authorization: Authorization)

  predicate IsBase64Char(c: char) {
    'A' <= c <= 'Z' || 'a' <= c <= 'z' || '0' <= c <= '9' || c == '+' || c == '/'
  }

  predicate IsSignature(s: string) {
    |s| == 88 && s[86..] == "==" && forall i :: 0 <= i < 86 ==> IsBase64Char(s[i])
  }

  /** ArtifactManifest.model_validate */
  predicate ManifestAccepted(m: Manifest) {
    && m.schemaVersion == "2"
    && |m.artifactId| == 68 && m.artifactId[..4] == "art_" && IsHex(m.artifactId[4..], 64)
    && 1 <= |m.agentId| <= 128
    && 1 <= |m.hostId| <= 256
    && 1 <= |m.commandId| <= 128
    && 1 <= |m.correlationId| <= 128
    && m.mediaType == "application/json"
    && 1 <= m.contentBytes <= 1048576
    && IsHex(m.sha256, 64)
    && 0 <= m.producedAtUnix <= 253402300799
    && m.authorization.algorithm == "ES256"
    && IsHex(m.authorization.keyId, 16)
    && IsSignature(m.authorization.signature)
  }

  lemma Base64CharExactly(c: char)
    ensures IsBase64Char(c) <==> 65 <= c as int <= 90 || 97 <= c as int <= 122 || 48 <= c as int <= 57 || c in {'+', '/'}
  {
  }

  lemma SignatureExactly(s: string)
    ensures IsSignature(s)
        <==> exists body :: |body| == 86 && (forall i :: 0 <= i < 86 ==> IsBase64Char(body[i])) && s == body + "=="
  {
    if IsSignature(s) {
      assert s == s[..86] + "==";
    }
  }

  lemma ArtifactIdExactly(s: string)
    ensures |s| == 68 && s[..4] == "art_" && IsHex(s[4..], 64) <==> exists h :: Hex64(h) && s == "art_" + h
  {
    if |s| == 68 {
      Hex64Exactly(s[4..]);
      assert s[..4] == "art_" ==> s == "art_" + s[4..];
    }
    forall h | Hex64(h) && s == "art_" + h
      ensures |s| == 68 && s[..4] == "art_" && s[4..] == h
    {
    }
  }

  predicate Bounded(s: string, limit: nat) {
    s != "" && |s| <= limit
  }

  /** The accepted manifests, each field by the values it may have. */
  lemma ManifestAcceptedExactly(m: Manifest)
    ensures ManifestAccepted(m)
        <==> && m.schemaVersion == "2" && m.mediaType == "application/json" && m.authorization.algorithm == "ES256"
             && (exists h :: Hex64(h) && m.artifactId == "art_" + h)
             && Bounded(m.agentId, 128) && Bounded(m.hostId, 256)
             && Bounded(m.commandId, 128) && Bounded(m.correlationId, 128)
             && 0 < m.contentBytes <= 1024 * 1024 && Hex64(m.sha256)
             && 0 <= m.producedAtUnix < 253402300800
             && |m.authorization.keyId| == 16 && (forall c :: c in m.authorization.keyId ==> c in "0123456789abcdef")
             && IsSignature(m.authorization.signature)
  {
    forall c
      ensures IsHexDigit(c) <==> c in "0123456789abcdef"
    {
      HexDigitExactly(c);
    }
    ArtifactIdExactly(m.artifactId);
    Hex64Exactly(m.sha256);
  }

  const DOMAIN := "panopticon-response-artifact-auth/2\n"

  function DomainLine(): Bytes {
    Literal(DOMAIN)
  }

  datatype FieldName =
    | SchemaVersion | ArtifactId | AgentId | HostId | CommandId | CorrelationId | KindField | MediaType
    | ContentBytes | Sha256 | ProducedAtUnix | Algorithm | KeyId

  const FIELDS := [
    SchemaVersion, ArtifactId, AgentId, HostId, CommandId, CorrelationId, KindField, MediaType,
    ContentBytes, Sha256, ProducedAtUnix, Algorithm, KeyId
  ]

  function Label(f: FieldName): Bytes {
    match f
    case SchemaVersion => Literal("schema_version")
    case ArtifactId => Literal("artifact_id")
    case AgentId => Literal("agent_id")
    case HostId => Literal("host_id")
    case CommandId => Literal("command_id")
    case CorrelationId => Literal("correlation_id")
    case KindField => Literal("kind")
    case MediaType => Literal("media_type")
    case ContentBytes => Literal("content_bytes")
    case Sha256 => Literal("sha256")
    case ProducedAtUnix => Literal("produced_at_unix")
    case Algorithm => Literal("algorithm")
    case KeyId => Literal("key_id")
  }

  /** str(fields[name]) */
  function Text(m: Manifest, f: FieldName): string
    requires m.contentBytes >= 0 && m.producedAtUnix >= 0
  {
    match f
    case SchemaVersion => m.schemaVersion
    case ArtifactId => m.artifactId
    case AgentId => m.agentId
    case HostId => m.hostId
    case CommandId => m.commandId
    case CorrelationId => m.correlationId
    case KindField => KindText(m.kind)
    case MediaType => m.mediaType
    case ContentBytes => Print(m.contentBytes)
    case Sha256 => m.sha256
    case ProducedAtUnix => Print(m.producedAtUnix)
    case Algorithm => m.authorization.algorithm
    case KeyId => m.authorization.keyId
  }

  function Labels(fs: seq<FieldName>): (labels: seq<Bytes>)
    ensures |labels| == |fs| && forall i :: 0 <= i < |fs| ==> labels[i] == Label(fs[i])
  {
    seq(|fs|, i requires 0 <= i < |fs| => Label(fs[i]))
  }

  function Texts(m: Manifest, fs: seq<FieldName>): (texts: seq<string>)
    requires ManifestAccepted(m)
    ensures |texts| == |fs| && forall i :: 0 <= i < |fs| ==> texts[i] == Text(m, fs[i])
  {
    seq(|fs|, i requires 0 <= i < |fs| => Text(m, fs[i]))
  }

  function Render(m: Manifest): Bytes
    requires ManifestAccepted(m)
  {
    DomainLine() + Fields(Labels(FIELDS), Texts(m, FIELDS))
  }

  /** artifact_signing_input */
  method ArtifactSigningInput(m: Manifest) returns (r: Option<Bytes>)
    ensures r == if ManifestAccepted(m) then Some(Render(m)) else None
  {
    if !ManifestAccepted(m) {
      return None;
    }
    var output := WriteFields(DomainLine(), m, FIELDS);
    r := Some(output);
  }

  method WriteFields(domain: Bytes, m: Manifest, names: seq<FieldName>) returns (output: Bytes)
    requires ManifestAccepted(m)
    ensures output == domain + Fields(Labels(names), Texts(m, names))
  {
    output := domain;
    ghost var labels, texts := Labels(names), Texts(m, names);
    for i := 0 to |names|
      invariant output + Fields(labels[i..], texts[i..]) == domain + Fields(labels, texts)
    {
      var data := Text(m, names[i]);
      assert labels[i..][1..] == labels[i + 1..] && texts[i..][1..] == texts[i + 1..];
      Shift(output, Field(labels[i], data), Fields(labels[i + 1..], texts[i + 1..]));
      output := output + Field(Label(names[i]), data);
    }
    assert output + [] == output;
  }

  lemma TextsDetermineManifest(m: Manifest, n: Manifest)
    requires ManifestAccepted(m) && ManifestAccepted(n)
    requires forall f :: Text(m, f) == Text(n, f)
    ensures m.(authorization := n.authorization) == n
    ensures m.authorization.(signature := n.authorization.signature) == n.authorization
  {
    assert Text(m, SchemaVersion) == Text(n, SchemaVersion) && Text(m, ArtifactId) == Text(n, ArtifactId);
    assert Text(m, AgentId) == Text(n, AgentId) && Text(m, HostId) == Text(n, HostId);
    assert Text(m, CommandId) == Text(n, CommandId) && Text(m, CorrelationId) == Text(n, CorrelationId);
    assert Text(m, MediaType) == Text(n, MediaType) && Text(m, Sha256) == Text(n, Sha256);
    assert Text(m, Algorithm) == Text(n, Algorithm) && Text(m, KeyId) == Text(n, KeyId);
    assert Text(m, KindField) == Text(n, KindField);
    assert Text(m, ContentBytes) == Text(n, ContentBytes);
    PrintInjective(m.contentBytes, n.contentBytes);
    assert Text(m, ProducedAtUnix) == Text(n, ProducedAtUnix);
    PrintInjective(m.producedAtUnix, n.producedAtUnix);
  }

  lemma EveryFieldIsSigned(f: FieldName)
    ensures exists i :: 0 <= i < |FIELDS| && FIELDS[i] == f
  {
    assert FIELDS[0].SchemaVersion? && FIELDS[1].ArtifactId? && FIELDS[2].AgentId? && FIELDS[3].HostId?;
    assert FIELDS[4].CommandId? && FIELDS[5].CorrelationId? && FIELDS[6].KindField? && FIELDS[7].MediaType?;
    assert FIELDS[8].ContentBytes? && FIELDS[9].Sha256? && FIELDS[10].ProducedAtUnix?;
    assert FIELDS[11].Algorithm? && FIELDS[12].KeyId?;
  }

  /** Manifests signed alike, or one as a prefix of the other, differ in their signature at most. */
  lemma ArtifactBytesDetermineManifest(m: Manifest, n: Manifest)
    requires ManifestAccepted(m) && ManifestAccepted(n)
    requires Render(m) <= Render(n)
    ensures Render(m) == Render(n)
    ensures m.(authorization := n.authorization) == n
    ensures m.authorization.(signature := n.authorization.signature) == n.authorization
  {
    var domain, labels := DomainLine(), Labels(FIELDS);
    var fm, fn := Fields(labels, Texts(m, FIELDS)), Fields(labels, Texts(n, FIELDS));
    assert fm <= fn by {
      assert (domain + fm)[|domain|..] == fm && (domain + fn)[|domain|..] == fn;
    }
    FieldsPrefixFree(labels, Texts(m, FIELDS), Texts(n, FIELDS));
    forall f
      ensures Text(m, f) == Text(n, f)
    {
      EveryFieldIsSigned(f);
      var i :| 0 <= i < |FIELDS| && FIELDS[i] == f;
      assert Texts(m, FIELDS)[i] == Texts(n, FIELDS)[i];
    }
    TextsDetermineManifest(m, n);
  }

  /** The converse: the signature is the one thing the signed bytes leave out. */
  lemma SignatureIsNotSigned(m: Manifest, signature: string)
    requires ManifestAccepted(m) && IsSignature(signature)
    ensures var n := m.(authorization := m.authorization.(signature := signature));
            ManifestAccepted(n) && Render(n) == Render(m)
  {
    var n := m.(authorization := m.authorization.(signature := signature));
    assert Texts(n, FIELDS) == Texts(m, FIELDS);
  }

  /** Command bytes and artifact bytes never start each other. */
  lemma FormatsDisjoint(v: Signing.Signed, m: Manifest)
    requires Signing.WellFormed(v) && ManifestAccepted(m)
    ensures !(Signing.Render(v) <= Render(m)) && !(Render(m) <= Signing.Render(v))
  {
    assert Signing.Render(v)[11] == Signing.DOMAIN[11] as int == 'c' as int;
    assert Render(m)[11] == DOMAIN[11] as int == 'r' as int;
  }
}
