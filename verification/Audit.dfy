/** The tamper-evidence primitives of the audit log: entry verification and chain verification. */
module Audit {
  import opened ByteStrings
  import opened Contracts
  import opened HashChain

  datatype AuditError =
    | BrokenChain(seqNo: int)
    | Tampered(seqNo: int)
    | UnknownKey(kid: Bytes, seqNo: int)
    | BadSignature(seqNo: int)

  function EntryHash(h: HashFn, e: AuditEntry): Bytes {
    Digest(h, AuditPayload(e))
  }

  function VerifyEntry(h: HashFn, s: Scheme, keys: KeySet, e: AuditEntry): (v: Option<AuditError>)
    ensures v.None? <==>
              && e.entryHash == EntryHash(h, e) && e.signingKeyId in keys
              && SignatureOk(s, keys[e.signingKeyId], e.entryHash, e.signature)
    ensures v.Some? ==> v.value.seqNo == e.seqNo && (v.value.Tampered? <==> e.entryHash != EntryHash(h, e))
    ensures v.Some? && v.value.UnknownKey? ==> v.value.kid == e.signingKeyId && v.value.kid !in keys
    ensures v.Some? ==> !v.value.BrokenChain?
  {
    if e.entryHash != EntryHash(h, e) then Some(Tampered(e.seqNo))
    else if e.signingKeyId !in keys then Some(UnknownKey(e.signingKeyId, e.seqNo))
    else if !SignatureOk(s, keys[e.signingKeyId], e.entryHash, e.signature) then Some(BadSignature(e.seqNo))
    else None
  }

  function PrevHash(e: AuditEntry): Bytes { e.prevHash }

  function StoredHash(e: AuditEntry): Bytes { e.entryHash }

  function Broken(e: AuditEntry): AuditError { BrokenChain(e.seqNo) }

  function AuditRules(h: HashFn, s: Scheme, keys: KeySet): Rules<AuditEntry, AuditError> {
    Rules(PrevHash, StoredHash, e => VerifyEntry(h, s, keys, e), Broken)
  }

  /** The loop of `VerifyChain`, and what its acceptance means. */
  method VerifyChain(h: HashFn, s: Scheme, keys: KeySet, entries: seq<AuditEntry>) returns (v: Option<AuditError>)
    ensures v == Verdict(AuditRules(h, s, keys), entries)
    ensures v.None? <==> ChainIntact(AuditRules(h, s, keys), entries) && RecordsPass(AuditRules(h, s, keys), entries)
  {
    hide AuditPayload;
    var r := AuditRules(h, s, keys);
    AcceptanceMeans(r, entries);
    var prev := GENESIS;
    for i := 0 to |entries|
      invariant Verdict(r, entries[..i]).None? && prev == Tail(r, entries[..i])
    {
      var e := entries[i];
      WalkStep(r, entries, i);
      if e.prevHash != prev {
        return Some(BrokenChain(e.seqNo));
      }
      var want := EntryHash(h, e);
      if e.entryHash != want {
        return Some(Tampered(e.seqNo));
      }
      if e.signingKeyId !in keys {
        return Some(UnknownKey(e.signingKeyId, e.seqNo));
      }
      if !SignatureOk(s, keys[e.signingKeyId], e.entryHash, e.signature) {
        return Some(BadSignature(e.seqNo));
      }
      prev := e.entryHash;
    }
    assert entries[..|entries|] == entries;
    return None;
  }

  // ---------------------------------------------------------------- the last hash binds the log

  ghost predicate AllFit(log: seq<AuditEntry>) {
    forall e :: e in log ==> AuditFits(e)
  }

  ghost predicate SameContents(a: seq<AuditEntry>, b: seq<AuditEntry>) {
    |a| == |b| && forall i :: 0 <= i < |a| ==> AuditContent(a[i]) == AuditContent(b[i])
  }

  /** The back-link inside a payload. */
  function PrevIn(p: Bytes): Bytes {
    var e := ParseAudit(p);
    if e.None? then [] else e.value.prevHash
  }

  lemma {:induction false} EntriesEncode(h: HashFn, s: Scheme, keys: KeySet, log: seq<AuditEntry>)
    requires AllFit(log) && Verdict(AuditRules(h, s, keys), log).None?
    ensures forall i :: 0 <= i < |log| ==> Encodes(h, AuditRules(h, s, keys), AuditPayload, PrevIn, log[i])
  {
    var r := AuditRules(h, s, keys);
    AcceptanceMeans(r, log);
    forall i | 0 <= i < |log|
      ensures Encodes(h, r, AuditPayload, PrevIn, log[i])
    {
      assert r.check(log[i]).None?;
      AuditPayloadRoundTrip(log[i]);
    }
  }

  /** Two accepted nonempty logs, possibly under different key sets, that end in one entry hash have
      the same length and the same content in every entry, or the walk back names a collision or a
      preimage of the all-zero genesis hash. */
  lemma {:induction false} LastHashBindsLog(
      h: HashFn, s: Scheme, keysA: KeySet, keysB: KeySet, a: seq<AuditEntry>, b: seq<AuditEntry>)
    requires a != [] && b != [] && AllFit(a) && AllFit(b)
    requires Verdict(AuditRules(h, s, keysA), a).None? && Verdict(AuditRules(h, s, keysB), b).None?
    requires a[|a| - 1].entryHash == b[|b| - 1].entryHash
    ensures SameContents(a, b) || Breaks(h, ChainEvidence(Payloads(AuditPayload, a), Payloads(AuditPayload, b)))
  {
    var pa, pb := Payloads(AuditPayload, a), Payloads(AuditPayload, b);
    EntriesEncode(h, s, keysA, a);
    EntriesEncode(h, s, keysB, b);
    AcceptedIsLinked(h, AuditRules(h, s, keysA), AuditPayload, PrevIn, a);
    AcceptedIsLinked(h, AuditRules(h, s, keysB), AuditPayload, PrevIn, b);
    ChainBinding(h, PrevIn, pa, pb);
    if pa == pb {
      forall i | 0 <= i < |a|
        ensures AuditContent(a[i]) == AuditContent(b[i])
      {
        assert pa[i] == pb[i];
        AuditPayloadInjective(a[i], b[i]);
      }
    }
  }
}
