/** The recording-consent ledger: chained appends, chain verification, and the latest-wins gate. */
module ConsentLedger {
  import opened ByteStrings
  import opened Contracts
  import opened HashChain

  // ---------------------------------------------------------------- chain verification

  datatype ConsentError = BrokenChain(id: Bytes) | UnknownKey(kid: Bytes, id: Bytes) | BadSignature(id: Bytes)

  function RecordHash(h: HashFn, r: ConsentRecord): Bytes {
    Digest(h, ConsentPayload(r))
  }

  /** A record's signature covers its payload directly; no hash is stored beside it. */
  function CheckRecord(s: Scheme, keys: KeySet, r: ConsentRecord): (v: Option<ConsentError>)
    ensures v.None? <==>
              r.signingKeyId in keys && SignatureOk(s, keys[r.signingKeyId], ConsentPayload(r), r.signature)
    ensures v.Some? ==> v.value.id == r.id && (v.value.UnknownKey? <==> r.signingKeyId !in keys)
  {
    if r.signingKeyId !in keys then Some(UnknownKey(r.signingKeyId, r.id))
    else if !SignatureOk(s, keys[r.signingKeyId], ConsentPayload(r), r.signature) then Some(BadSignature(r.id))
    else None
  }

  function PrevHash(r: ConsentRecord): Bytes { r.prevHash }

  function Broken(r: ConsentRecord): ConsentError { BrokenChain(r.id) }

  function ConsentRules(h: HashFn, s: Scheme, keys: KeySet): Rules<ConsentRecord, ConsentError> {
    Rules(PrevHash, r => RecordHash(h, r), r => CheckRecord(s, keys, r), Broken)
  }

  method VerifyChain(h: HashFn, s: Scheme, keys: KeySet, records: seq<ConsentRecord>) returns (v: Option<ConsentError>)
    ensures v == Verdict(ConsentRules(h, s, keys), records)
    ensures v.None? <==>
              ChainIntact(ConsentRules(h, s, keys), records) && RecordsPass(ConsentRules(h, s, keys), records)
  {
    hide ConsentPayload;
    var rules := ConsentRules(h, s, keys);
    AcceptanceMeans(rules, records);
    var prev := GENESIS;
    for i := 0 to |records|
      invariant Verdict(rules, records[..i]).None? && prev == Tail(rules, records[..i])
    {
      var r := records[i];
      WalkStep(rules, records, i);
      if r.prevHash != prev {
        return Some(BrokenChain(r.id));
      }
      if r.signingKeyId !in keys {
        return Some(UnknownKey(r.signingKeyId, r.id));
      }
      if !SignatureOk(s, keys[r.signingKeyId], ConsentPayload(r), r.signature) {
        return Some(BadSignature(r.id));
      }
      prev := RecordHash(h, r);
    }
    assert records[..|records|] == records;
    return None;
  }

  ghost predicate SameContents(a: seq<ConsentRecord>, b: seq<ConsentRecord>) {
    |a| == |b| && forall i :: 0 <= i < |a| ==> ConsentContent(a[i]) == ConsentContent(b[i])
  }

  function PrevIn(p: Bytes): Bytes {
    var r := ParseConsent(p);
    if r.None? then [] else r.value.prevHash
  }

  lemma {:induction false} RecordsEncode(h: HashFn, s: Scheme, keys: KeySet, ledger: seq<ConsentRecord>)
    requires forall r :: r in ledger ==> ConsentFits(r)
    ensures forall i :: 0 <= i < |ledger| ==> Encodes(h, ConsentRules(h, s, keys), ConsentPayload, PrevIn, ledger[i])
  {
    forall i | 0 <= i < |ledger|
      ensures Encodes(h, ConsentRules(h, s, keys), ConsentPayload, PrevIn, ledger[i])
    {
      ConsentPayloadRoundTrip(ledger[i]);
    }
  }

  /** Two accepted nonempty ledgers with one last record hash agree on every signed field, or the walk
      back names a collision or a preimage of the genesis hash. */
  lemma {:induction false} LastHashBindsLedger(
      h: HashFn, s: Scheme, keysA: KeySet, keysB: KeySet, a: seq<ConsentRecord>, b: seq<ConsentRecord>)
    requires a != [] && b != []
    requires (forall r :: r in a ==> ConsentFits(r)) && (forall r :: r in b ==> ConsentFits(r))
    requires Verdict(ConsentRules(h, s, keysA), a).None? && Verdict(ConsentRules(h, s, keysB), b).None?
    requires RecordHash(h, a[|a| - 1]) == RecordHash(h, b[|b| - 1])
    ensures SameContents(a, b) || Breaks(h, ChainEvidence(Payloads(ConsentPayload, a), Payloads(ConsentPayload, b)))
  {
    var pa, pb := Payloads(ConsentPayload, a), Payloads(ConsentPayload, b);
    RecordsEncode(h, s, keysA, a);
    RecordsEncode(h, s, keysB, b);
    AcceptedIsLinked(h, ConsentRules(h, s, keysA), ConsentPayload, PrevIn, a);
    AcceptedIsLinked(h, ConsentRules(h, s, keysB), ConsentPayload, PrevIn, b);
    ChainBinding(h, PrevIn, pa, pb);
    if pa == pb {
      forall i | 0 <= i < |a|
        ensures ConsentContent(a[i]) == ConsentContent(b[i])
      {
        assert pa[i] == pb[i];
        ConsentPayloadInjective(a[i], b[i]);
      }
    }
  }

  // ---------------------------------------------------------------- appends

  datatype ConsentInput = ConsentInput(id: Bytes, sessionId: Bytes, subjectId: Bytes, purpose: Bytes, granted: bool)

  function NewRecord(s: Scheme, signer: Signer, prev: Bytes, now: int64, input: ConsentInput): ConsentRecord {
    var r := ConsentRecord(1, input.id, prev, input.sessionId, input.subjectId, input.purpose,
                           input.granted, now, signer.kid, []);
    r.(signature := Sign(s, signer.key, ConsentPayload(r)))
  }

  /** The payload does not cover the signature, so signing does not disturb what was signed. */
  lemma {:induction false} NewRecordPasses(
      s: Scheme, keys: KeySet, signer: Signer, prev: Bytes, now: int64, input: ConsentInput)
    requires SignaturesVerify(s) && Knows(s, keys, signer)
    ensures CheckRecord(s, keys, NewRecord(s, signer, prev, now, input)).None?
  {
    var r := NewRecord(s, signer, prev, now, input);
    var unsigned := r.(signature := []);
    assert ConsentPayload(r) == ConsentPayload(unsigned);
    var payload := ConsentPayload(unsigned);
    assert SignatureOk(s, PublicKey(s, signer.key), payload, Sign(s, signer.key, payload));
  }

  /** The hash the next record links to; a chain's tail does not depend on the verifier's keys. */
  function LedgerTail(h: HashFn, s: Scheme, ledger: seq<ConsentRecord>): Bytes {
    Tail(ConsentRules(h, s, map[]), ledger)
  }

  function Appended(h: HashFn, s: Scheme, signer: Signer, ledger: seq<ConsentRecord>, now: int64, input: ConsentInput)
    : seq<ConsentRecord>
  {
    ledger + [NewRecord(s, signer, LedgerTail(h, s, ledger), now, input)]
  }

  /** Reads the tail hash (the genesis hash when there is no row), signs, and inserts. */
  method ChainRecord(h: HashFn, s: Scheme, signer: Signer, ledger: seq<ConsentRecord>, now: int64, input: ConsentInput)
    returns (next: seq<ConsentRecord>)
    ensures next == Appended(h, s, signer, ledger, now, input)
  {
    var prev := GENESIS;
    if |ledger| > 0 {
      prev := RecordHash(h, ledger[|ledger| - 1]);
    }
    var r := NewRecord(s, signer, prev, now, input);
    next := ledger + [r];
  }

  lemma {:induction false} AppendKeepsVerifying(h: HashFn, s: Scheme, keys: KeySet, signer: Signer,
                                                ledger: seq<ConsentRecord>, now: int64, input: ConsentInput)
    requires SignaturesVerify(s) && Knows(s, keys, signer)
    requires Verdict(ConsentRules(h, s, keys), ledger).None?
    ensures Verdict(ConsentRules(h, s, keys), Appended(h, s, signer, ledger, now, input)).None?
  {
    NewRecordPasses(s, keys, signer, LedgerTail(h, s, ledger), now, input);
    LinkedRecordAccepted(h, s, keys, ledger, NewRecord(s, signer, LedgerTail(h, s, ledger), now, input));
  }

  lemma {:induction false} LinkedRecordAccepted(
      h: HashFn, s: Scheme, keys: KeySet, ledger: seq<ConsentRecord>, r: ConsentRecord)
    requires Verdict(ConsentRules(h, s, keys), ledger).None?
    requires r.prevHash == LedgerTail(h, s, ledger) && CheckRecord(s, keys, r).None?
    ensures Verdict(ConsentRules(h, s, keys), ledger + [r]).None?
  {
    AppendAccepted(ConsentRules(h, s, keys), ledger, r);
  }

  /** The consent_records table. `signer` may be swapped for another key between appends. */
  class ConsentStore {
    const h: HashFn
    const scheme: Scheme
    ghost const keys: KeySet
    var signer: Option<Signer>
    var ledger: seq<ConsentRecord>

    /** Every key in use is known to the verifier, and the verifier accepts the ledger. */
    ghost predicate Valid()
      reads this
    {
      && SignaturesVerify(scheme)
      && (signer.Some? ==> Knows(scheme, keys, signer.value))
      && Verdict(ConsentRules(h, scheme, keys), ledger).None?
    }

    constructor (h: HashFn, scheme: Scheme, ghost keys: KeySet)
      requires SignaturesVerify(scheme)
      ensures Valid() && ledger == [] && signer.None?
      ensures this.h == h && this.scheme == scheme && this.keys == keys
    {
      this.h, this.scheme, this.keys := h, scheme, keys;
      signer, ledger := None, [];
    }

    method UseSigner(next: Signer)
      requires Valid() && Knows(scheme, keys, next)
      modifies this`signer
      ensures Valid() && signer == Some(next)
    {
      signer := Some(next);
    }

    /** One transaction. `fault` stands for any database or remote-signer failure in it. */
    method AppendConsent(input: ConsentInput, now: int64, fault: bool) returns (ok: bool)
      requires Valid()
      modifies this`ledger
      ensures Valid()
      ensures ok <==> signer.Some? && !fault
      ensures !ok ==> ledger == old(ledger)
      ensures ok ==> ledger == Appended(h, scheme, signer.value, old(ledger), now, input)
      ensures ok ==> forall u, x, p ::
                EffectiveConsent(ledger, u, x, p) ==
                if Concerns(input, u, x, p) then input.granted else EffectiveConsent(old(ledger), u, x, p)
    {
      hide ConsentPayload, EffectiveConsent;
      ok := signer.Some? && !fault;
      if ok {
        var next := ChainRecord(h, scheme, signer.value, ledger, now, input);
        AppendKeepsVerifying(h, scheme, keys, signer.value, ledger, now, input);
        forall u, x, p
          ensures EffectiveConsent(next, u, x, p) ==
                  if Concerns(input, u, x, p) then input.granted else EffectiveConsent(ledger, u, x, p)
        {
          AppendDecides(ledger, Ask(h, scheme, signer.value, now, input), u, x, p);
        }
        ledger := next;
      }
    }
  }

  // ---------------------------------------------------------------- the recording gate

  const SESSION_RECORDING: Bytes := Ascii("session_recording")

  predicate Matches(r: ConsentRecord, subject: Bytes, session: Bytes, purpose: Bytes) {
    r.subjectId == subject && r.sessionId == session && r.purpose == purpose
  }

  predicate Concerns(input: ConsentInput, subject: Bytes, session: Bytes, purpose: Bytes) {
    input.subjectId == subject && input.sessionId == session && input.purpose == purpose
  }

  /** The newest matching record decides; no record means no consent. */
  function EffectiveConsent(ledger: seq<ConsentRecord>, subject: Bytes, session: Bytes, purpose: Bytes): bool
    decreases |ledger|
  {
    if ledger == [] then false else
    var r := ledger[|ledger| - 1];
    if Matches(r, subject, session, purpose) then r.granted
    else EffectiveConsent(ledger[..|ledger| - 1], subject, session, purpose)
  }

  // ---- what was asked

  /** A decision on its way to the ledger: what is asked, when, and how it is chained and signed. */
  datatype Ask = Ask(h: HashFn, scheme: Scheme, signer: Signer, now: int64, input: ConsentInput)

  function Asked(ledger: seq<ConsentRecord>, ask: Ask): seq<ConsentRecord> {
    Appended(ask.h, ask.scheme, ask.signer, ledger, ask.now, ask.input)
  }

  /** What the new record says is what was asked. */
  lemma {:induction false} RecordSays(ledger: seq<ConsentRecord>, ask: Ask)
    ensures var ledger', r := Asked(ledger, ask), Asked(ledger, ask)[|ledger|];
            && |ledger'| == |ledger| + 1 && ledger'[..|ledger|] == ledger
            && ConsentInput(r.id, r.sessionId, r.subjectId, r.purpose, r.granted) == ask.input
            && r.grantedAt == ask.now && r.signingKeyId == ask.signer.kid && r.schemaVersion == 1
  {
  }

  /** After an append, the decision asked for is the effective one where it was asked, and every other
      stands. */
  lemma {:induction false} AppendDecides(
      ledger: seq<ConsentRecord>, ask: Ask, subject: Bytes, session: Bytes, purpose: Bytes)
    ensures EffectiveConsent(Asked(ledger, ask), subject, session, purpose) ==
            if Concerns(ask.input, subject, session, purpose) then ask.input.granted
            else EffectiveConsent(ledger, subject, session, purpose)
  {
    RecordSays(ledger, ask);
    hide Asked;
    assert Asked(ledger, ask)[..|Asked(ledger, ask)| - 1] == ledger;
  }

  function AskedAll(asks: seq<Ask>): seq<ConsentRecord>
    decreases |asks|
  {
    if asks == [] then [] else Asked(AskedAll(asks[..|asks| - 1]), asks[|asks| - 1])
  }

  /** The last decision asked for, on this subject, session and purpose, was a grant. */
  ghost predicate LastGrants(asks: seq<Ask>, subject: Bytes, session: Bytes, purpose: Bytes) {
    exists i ::
      && 0 <= i < |asks| && Concerns(asks[i].input, subject, session, purpose) && asks[i].input.granted
      && forall j :: i < j < |asks| ==> !Concerns(asks[j].input, subject, session, purpose)
  }

  lemma {:induction false} LastAskDecides(asks: seq<Ask>, subject: Bytes, session: Bytes, purpose: Bytes)
    ensures EffectiveConsent(AskedAll(asks), subject, session, purpose) <==> LastGrants(asks, subject, session, purpose)
    decreases |asks|
  {
    hide Asked, EffectiveConsent;
    if asks == [] {
      assert !EffectiveConsent([], subject, session, purpose) by { NoneEffective(subject, session, purpose); }
    } else {
      var init, last := asks[..|asks| - 1], asks[|asks| - 1];
      LastAskDecides(init, subject, session, purpose);
      AppendDecides(AskedAll(init), last, subject, session, purpose);
      LastGrantsStep(init, last, subject, session, purpose);
      assert asks == init + [last];
    }
  }

  lemma {:induction false} NoneEffective(subject: Bytes, session: Bytes, purpose: Bytes)
    ensures !EffectiveConsent([], subject, session, purpose)
  {
  }

  lemma {:induction false} LastGrantsStep(init: seq<Ask>, last: Ask, subject: Bytes, session: Bytes, purpose: Bytes)
    ensures LastGrants(init + [last], subject, session, purpose) <==>
              if Concerns(last.input, subject, session, purpose) then last.input.granted
              else LastGrants(init, subject, session, purpose)
  {
    var asks := init + [last];
    assert forall i :: 0 <= i < |init| ==> asks[i] == init[i];
    assert asks[|init|] == last;
    if Concerns(last.input, subject, session, purpose) {
      assert last.input.granted ==> LastGrants(asks, subject, session, purpose);
    } else if LastGrants(init, subject, session, purpose) {
      var i :| && 0 <= i < |init| && Concerns(init[i].input, subject, session, purpose) && init[i].input.granted
               && forall j :: i < j < |init| ==> !Concerns(init[j].input, subject, session, purpose);
      assert Concerns(asks[i].input, subject, session, purpose);
    }
  }

  /** Effective consent is the decision of the last matching record in append order: the one at `i`,
      or none at all when `i` is -1. */
  lemma {:induction false} EffectiveIsLast(
      ledger: seq<ConsentRecord>, subject: Bytes, session: Bytes, purpose: Bytes, i: int)
    requires -1 <= i < |ledger| && (i >= 0 ==> Matches(ledger[i], subject, session, purpose))
    requires forall j :: i < j < |ledger| ==> !Matches(ledger[j], subject, session, purpose)
    ensures EffectiveConsent(ledger, subject, session, purpose) <==> i >= 0 && ledger[i].granted
    decreases |ledger|
  {
    if i == |ledger| - 1 {
    } else {
      EffectiveIsLast(ledger[..|ledger| - 1], subject, session, purpose, i);
    }
  }

  /** The participant table: (session, user) to whether the row's left_at is set. */
  type Participants = map<(Bytes, Bytes), bool>

  function Present(parts: Participants, session: Bytes): set<Bytes> {
    set k | k in parts && k.0 == session && !parts[k] :: k.1
  }

  /** The DISTINCT ON query: for each subject, the decision of the newest record. */
  function Latest(ledger: seq<ConsentRecord>, session: Bytes, purpose: Bytes): map<Bytes, bool>
    decreases |ledger|
  {
    if ledger == [] then map[] else
    var r, older := ledger[|ledger| - 1], Latest(ledger[..|ledger| - 1], session, purpose);
    if r.sessionId == session && r.purpose == purpose then older[r.subjectId := r.granted] else older
  }

  /** The gate as the store computes it: two counts compared. */
  predicate RecordingAllowed(parts: Participants, ledger: seq<ConsentRecord>, session: Bytes) {
    var active, latest := Present(parts, session), Latest(ledger, session, SESSION_RECORDING);
    var consented := set u | u in active && u in latest && latest[u];
    |active| > 0 && |active| == |consented|
  }

  lemma {:induction false} LatestIsEffective(ledger: seq<ConsentRecord>, session: Bytes, purpose: Bytes, u: Bytes)
    ensures var l := Latest(ledger, session, purpose);
            (u in l && l[u]) <==> EffectiveConsent(ledger, u, session, purpose)
    decreases |ledger|
  {
    if ledger == [] {
    } else {
      LatestIsEffective(ledger[..|ledger| - 1], session, purpose, u);
    }
  }

  /** The counts agree exactly when someone is present and every present participant's effective
      consent is granted. */
  lemma {:induction false} GateMeans(parts: Participants, ledger: seq<ConsentRecord>, session: Bytes)
    ensures RecordingAllowed(parts, ledger, session) <==>
              && Present(parts, session) != {}
              && forall u :: u in Present(parts, session) ==> EffectiveConsent(ledger, u, session, SESSION_RECORDING)
  {
    var active, latest := Present(parts, session), Latest(ledger, session, SESSION_RECORDING);
    var consented := set u | u in active && u in latest && latest[u];
    forall u | u in active
      ensures u in consented <==> EffectiveConsent(ledger, u, session, SESSION_RECORDING)
    {
      LatestIsEffective(ledger, session, SESSION_RECORDING, u);
    }
    assert consented <= active;
    if |consented| == |active| {
      SubsetOfSameSize(consented, active);
    }
    if forall u :: u in active ==> u in consented {
      assert consented == active;
    }
  }

  /** The gate in terms of what was asked, not of what is stored: someone is present, and the last decision
      each participant present asked for is a grant. */
  lemma {:induction false} GateMeansAsked(parts: Participants, asks: seq<Ask>, session: Bytes)
    ensures RecordingAllowed(parts, AskedAll(asks), session) <==>
              && Present(parts, session) != {}
              && forall u :: u in Present(parts, session) ==> LastGrants(asks, u, session, SESSION_RECORDING)
  {
    hide RecordingAllowed, AskedAll, EffectiveConsent, LastGrants, Present;
    GateMeans(parts, AskedAll(asks), session);
    forall u
      ensures EffectiveConsent(AskedAll(asks), u, session, SESSION_RECORDING) <==>
                LastGrants(asks, u, session, SESSION_RECORDING)
    {
      LastAskDecides(asks, u, session, SESSION_RECORDING);
    }
  }

  lemma {:induction false} SubsetOfSameSize(a: set<Bytes>, b: set<Bytes>)
    requires a <= b && |a| == |b|
    ensures a == b
  {
    assert b == a + (b - a);
    assert |b| == |a| + |b - a|;
  }
}
