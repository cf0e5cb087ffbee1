/** From a recommendation, through translation, to the signed bytes of its command. */
module SignedTranslation {
  import opened Wrappers
  import opened Json
  import opened Utf8
  import opened Decimal
  import opened Contract
  import opened LinuxIdentity
  import opened Recommendation
  import Signing
  import SigningInverse

  /** The view's action and target are what this recommendation translates to under this context. */
  predicate Translates(v: Signing.Signed, action: string, recommendation: Object, context: Json, sha: Sha256) {
    && context != Null && IsProcessRecommendation(action)
    && Translate(action, recommendation, context, sha) == Some((v.action, v.target))
  }

  lemma TargetsNameSubjects(s: Subject, t: Subject)
    requires TargetOf(s) == TargetOf(t)
    ensures s.pid == t.pid && s.ticks == t.ticks && s.boot == t.boot
  {
    assert TargetOf(s)["pid"] == Int(s.pid) && TargetOf(t)["pid"] == Int(t.pid);
    assert TargetOf(s)["start_time_ticks"] == Str(s.ticks) && TargetOf(t)["start_time_ticks"] == Str(t.ticks);
    assert TargetOf(s)["boot_id"] == Str(s.boot) && TargetOf(t)["boot_id"] == Str(t.boot);
  }

  /** A translated process target, signed under any ids and times, is read back from the bytes as it was. */
  lemma TranslatedCommandSignsBack(v: Signing.Signed, action: string, recommendation: Object, context: Json, sha: Sha256)
    requires Translates(v, action, recommendation, context, sha)
    requires v.schema == "2"
    requires Signing.IsId(v.commandId) && Signing.IsId(v.correlationId)
    requires Signing.IsId(v.agentId) && Signing.IsId(v.hostId)
    ensures Signing.WellFormed(v) && SigningInverse.ParseCommand(Signing.Render(v)) == Some(v)
    ensures v.target["pid"] == Get(recommendation, "target_pid")
    ensures Get(recommendation, "target_start_time_ticks") == Int(Read(v.target["start_time_ticks"].s))
  {
    ContextTargetMeetsContract(action, recommendation, context, sha);
    SigningInverse.ParseCommandExact(Signing.Render(v), v);
  }

  /**
   Signed bytes never confuse two translated process instances: if one command's bytes start the other's,
   the subjects their contexts prove have the same pid, ticks and boot identity.
   */
  lemma SignedTranslationsNameOneInstance(v: Signing.Signed, a: string, r: Object, c: Json,
                                          w: Signing.Signed, b: string, q: Object, d: Json, sha: Sha256)
    requires Translates(v, a, r, c, sha) && Translates(w, b, q, d, sha)
    requires Signing.WellFormed(v) && Signing.WellFormed(w)
    requires Signing.Render(v) <= Signing.Render(w)
    ensures ProvesSubject(c, sha) && ProvesSubject(d, sha)
    ensures ReadSubject(c).value.(host := "") == ReadSubject(d).value.(host := "")
  {
    SigningInverse.CommandsPrefixFree(v, w);
    NoLegacyFallback(a, r, c, sha);
    NoLegacyFallback(b, q, d, sha);
    TargetsNameSubjects(ReadSubject(c).value, ReadSubject(d).value);
  }

  /** Two boot identities are the same, or their digests collide. */
  lemma BootDigestsAgree(n: Native, m: Native, sha: Sha256)
    requires BootDigest(n, sha) == BootDigest(m, sha)
    ensures n.boot == m.boot || Collide(Encode(n.boot), Encode(m.boot), false, sha)
  {
    SameSuffix("boot_", sha(Encode(n.boot)), sha(Encode(m.boot)));
    if Encode(n.boot) == Encode(m.boot) {
      EncodeInjective(n.boot, m.boot);
    }
  }

  /** For contexts of the Linux sensor that comes down to the sensed numbers, and the boot identity behind its digest. */
  lemma SignedTranslationsNameOneSensedProcess(v: Signing.Signed, a: string, r: Object, c: Object, n: Native,
                                               w: Signing.Signed, b: string, q: Object, d: Object, m: Native,
                                               sha: Sha256)
    requires Translates(v, a, r, Dict(c), sha) && Translates(w, b, q, Dict(d), sha)
    requires NativeAccepted(n) && Extends(c, ContextOf(n, sha))
    requires NativeAccepted(m) && Extends(d, ContextOf(m, sha))
    requires Signing.WellFormed(v) && Signing.WellFormed(w)
    requires Signing.Render(v) <= Signing.Render(w)
    ensures n.pid == m.pid && n.ticks == m.ticks
    ensures n.boot == m.boot || Collide(Encode(n.boot), Encode(m.boot), false, sha)
  {
    SignedTranslationsNameOneInstance(v, a, r, Dict(c), w, b, q, Dict(d), sha);
    HeldContextNamesSubject(c, n, sha);
    HeldContextNamesSubject(d, m, sha);
    PrintInjective(n.ticks, m.ticks);
    BootDigestsAgree(n, m, sha);
  }
}
