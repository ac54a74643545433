/** The audit entry, the consent record and the presence event, with the canonical bytes each one is
    hashed over, and the parsers that recover every encoded field from those bytes. */
module Contracts {
  import opened ByteStrings
  import opened FieldCodec

  // ---------------------------------------------------------------- audit entries

  datatype AuditEntry = AuditEntry(
    schemaVersion: int64, seqNo: int, occurredAt: int64,
    actorId: Bytes, actorRole: Bytes, action: Bytes, targetType: Bytes, targetId: Bytes,
    metadata: Bytes, prevHash: Bytes, entryHash: Bytes, signingKeyId: Bytes, signature: Bytes)

  function AuditFields(e: AuditEntry): seq<Bytes> {
    [e.actorId, e.actorRole, e.action, e.targetType, e.targetId, e.metadata, e.prevHash, e.signingKeyId]
  }

  function AuditPayload(e: AuditEntry): Bytes {
    U32(e.schemaVersion) + U64(e.occurredAt) + EncodeFields(AuditFields(e))
  }

  /** The part of an entry its payload covers: everything but seq, entry hash and signature. */
  function AuditContent(e: AuditEntry): AuditEntry {
    e.(seqNo := 0, entryHash := [], signature := [])
  }

  /** What a caller can check up front: no length and no version is cut down to 32 bits. */
  predicate AuditFits(e: AuditEntry) {
    0 <= e.schemaVersion < TWO_32 && FieldsFit(AuditFields(e))
  }

  method SignedAuditPayload(e: AuditEntry) returns (b: Bytes)
    ensures b == AuditPayload(e)
  {
    b := [];
    b := b + U32(e.schemaVersion);
    b := b + U64(e.occurredAt);
    ghost var head := U32(e.schemaVersion) + U64(e.occurredAt);
    ghost var fs := AuditFields(e);
    assert b == head + EncodeFields([]);
    b := PutField(b, head, [], e.actorId);
    assert [] + [e.actorId] == fs[..1];
    b := PutField(b, head, fs[..1], e.actorRole);
    assert fs[..1] + [e.actorRole] == fs[..2];
    b := PutField(b, head, fs[..2], e.action);
    assert fs[..2] + [e.action] == fs[..3];
    b := PutField(b, head, fs[..3], e.targetType);
    assert fs[..3] + [e.targetType] == fs[..4];
    b := PutField(b, head, fs[..4], e.targetId);
    assert fs[..4] + [e.targetId] == fs[..5];
    b := PutField(b, head, fs[..5], e.metadata);
    assert fs[..5] + [e.metadata] == fs[..6];
    b := PutField(b, head, fs[..6], e.prevHash);
    assert fs[..6] + [e.prevHash] == fs[..7];
    b := PutField(b, head, fs[..7], e.signingKeyId);
    assert fs[..7] + [e.signingKeyId] == fs;
  }

  function ParseAudit(s: Bytes): (r: Option<AuditEntry>)
    ensures r.Some? ==> AuditFits(r.value)
  {
    var frame := TakeFrame(12, 8, s);
    if frame.None? || frame.value.tail != [] then None else
    Widths();
    var Frame(head, f, _) := frame.value;
    Some(AuditEntry(FromBigEndian(head[..4]), 0, ToInt64(head[4..]),
                    f[0], f[1], f[2], f[3], f[4], f[5], f[6], [], f[7], []))
  }

  /** The parser recovers an entry's content from its payload exactly when nothing was cut down. */
  lemma {:induction false} AuditPayloadRoundTrip(e: AuditEntry)
    ensures ParseAudit(AuditPayload(e)) == Some(AuditContent(e)) <==> AuditFits(e)
  {
    if AuditFits(e) {
      AuditPayloadParses(e);
    }
  }

  lemma {:induction false} AuditPayloadParses(e: AuditEntry)
    requires AuditFits(e)
    ensures ParseAudit(AuditPayload(e)) == Some(AuditContent(e))
  {
    var v, t := U32(e.schemaVersion), U64(e.occurredAt);
    assert FromBigEndian(v) == e.schemaVersion by { U32Inverse(e.schemaVersion); }
    assert ToInt64(t) == e.occurredAt by { U64Inverse(e.occurredAt); }
    AuditPayloadFrame(v, t, AuditFields(e), AuditPayload(e));
  }

  lemma {:induction false} AuditPayloadFrame(v: Bytes, t: Bytes, fs: seq<Bytes>, s: Bytes)
    requires FieldsFit(fs) && |v| == 4 && |t| == 8 && |fs| == 8
    requires s == v + t + EncodeFields(fs)
    ensures ParseAudit(s) == (Widths(); Some(AuditEntry(FromBigEndian(v), 0, ToInt64(t),
                                    fs[0], fs[1], fs[2], fs[3], fs[4], fs[5], fs[6], [], fs[7], [])))
  {
    TakeFrameInverse(v + t, fs, []);
    assert s + [] == s;
    assert (v + t)[..4] == v && (v + t)[4..] == t;
  }

  lemma {:induction false} AuditPayloadInjective(a: AuditEntry, b: AuditEntry)
    requires AuditFits(a) && AuditFits(b)
    requires AuditPayload(a) == AuditPayload(b)
    ensures AuditContent(a) == AuditContent(b)
  {
    AuditPayloadRoundTrip(a);
    AuditPayloadRoundTrip(b);
  }

  /** Two different entries, one with an actor id and one with a key id of 2^32 zero bytes, share
      their payload: the bound in `AuditFits` cannot be dropped. */
  lemma {:induction false} AuditPayloadWraps() returns (a: AuditEntry, b: AuditEntry)
    ensures AuditContent(a) != AuditContent(b) && AuditPayload(a) == AuditPayload(b)
  {
    var z, none := Zeros(TWO_32), AuditEntry(1, 0, 0, [], [], [], [], [], [], [], [], [], []);
    a, b := none.(actorId := z), none.(signingKeyId := z);
    assert AuditFields(a) == [z] + EmptyFields(7) && AuditFields(b) == EmptyFields(7) + [z];
    hide EmptyFields;
    LongFieldMoves(z);
    assert |a.actorId| != |b.actorId|;
  }

  /** A field of 2^32 zero bytes encodes to zeros only, so it may stand before or after empty fields. */
  lemma {:induction false} LongFieldMoves(z: Bytes)
    requires z == Zeros(TWO_32)
    ensures EncodeFields([z] + EmptyFields(7)) == EncodeFields(EmptyFields(7) + [z])
  {
    EncodeFieldsPrepend(z, EmptyFields(7));
    EncodeFieldsAppend(EmptyFields(7), z);
    EncodeEmptyFields(7);
    ZeroU32();
    hide EncodeFields, EmptyFields, U32;
    assert Field(z) == Zeros(4 + TWO_32);
    assert Field(z) + Zeros(28) == Zeros(28) + Field(z);
  }

  // ---------------------------------------------------------------- consent records

  datatype ConsentRecord = ConsentRecord(
    schemaVersion: int64, id: Bytes, prevHash: Bytes, sessionId: Bytes, subjectId: Bytes,
    purpose: Bytes, granted: bool, grantedAt: int64, signingKeyId: Bytes, signature: Bytes)

  function ConsentFields(r: ConsentRecord): seq<Bytes> {
    [r.id, r.prevHash, r.sessionId, r.subjectId, r.purpose]
  }

  function ConsentTail(r: ConsentRecord): Bytes {
    [if r.granted then 1 else 0] + U64(r.grantedAt) + EncodeFields([r.signingKeyId])
  }

  function ConsentPayload(r: ConsentRecord): Bytes {
    U32(r.schemaVersion) + EncodeFields(ConsentFields(r)) + ConsentTail(r)
  }

  function ConsentContent(r: ConsentRecord): ConsentRecord {
    r.(signature := [])
  }

  predicate ConsentFits(r: ConsentRecord) {
    0 <= r.schemaVersion < TWO_32 && FieldsFit(ConsentFields(r)) && FieldsFit([r.signingKeyId])
  }

  method SignedConsentPayload(r: ConsentRecord) returns (b: Bytes)
    ensures b == ConsentPayload(r)
  {
    b := [];
    b := b + U32(r.schemaVersion);
    ghost var head, fs := U32(r.schemaVersion), ConsentFields(r);
    assert b == head + EncodeFields([]);
    b := PutField(b, head, [], r.id);
    assert [] + [r.id] == fs[..1];
    b := PutField(b, head, fs[..1], r.prevHash);
    assert fs[..1] + [r.prevHash] == fs[..2];
    b := PutField(b, head, fs[..2], r.sessionId);
    assert fs[..2] + [r.sessionId] == fs[..3];
    b := PutField(b, head, fs[..3], r.subjectId);
    assert fs[..3] + [r.subjectId] == fs[..4];
    b := PutField(b, head, fs[..4], r.purpose);
    assert fs[..4] + [r.purpose] == fs;
    b := PutConsentTail(b, r);
  }

  method PutConsentTail(b: Bytes, r: ConsentRecord) returns (s: Bytes)
    ensures s == b + ConsentTail(r)
  {
    if r.granted {
      s := b + [1];
    } else {
      s := b + [0];
    }
    s := s + U64(r.grantedAt);
    ghost var head := s;
    assert s == head + EncodeFields([]);
    s := PutField(s, head, [], r.signingKeyId);
    assert [] + [r.signingKeyId] == [r.signingKeyId];
  }

  function ParseConsent(s: Bytes): (r: Option<ConsentRecord>)
    ensures r.Some? ==> ConsentFits(r.value)
  {
    var frame := TakeFrame(4, 5, s);
    if frame.None? then None else
    var last := TakeFrame(9, 1, frame.value.tail);
    if last.None? || last.value.tail != [] then None else
    Widths();
    var f, t := frame.value.fields, last.value.head;
    Some(ConsentRecord(FromBigEndian(frame.value.head), f[0], f[1], f[2], f[3], f[4], t[0] == 1,
                       ToInt64(t[1..]), last.value.fields[0], []))
  }

  lemma {:induction false} ConsentPayloadRoundTrip(r: ConsentRecord)
    ensures ParseConsent(ConsentPayload(r)) == Some(ConsentContent(r)) <==> ConsentFits(r)
  {
    if ConsentFits(r) {
      ConsentPayloadParses(r);
    }
  }

  lemma {:induction false} ConsentPayloadParses(r: ConsentRecord)
    requires ConsentFits(r)
    ensures ParseConsent(ConsentPayload(r)) == Some(ConsentContent(r))
  {
    var v, g, t := U32(r.schemaVersion), if r.granted then 1 else 0, U64(r.grantedAt);
    assert FromBigEndian(v) == r.schemaVersion by { U32Inverse(r.schemaVersion); }
    assert ToInt64(t) == r.grantedAt by { U64Inverse(r.grantedAt); }
    ConsentPayloadFrame(v, ConsentFields(r), g, t, r.signingKeyId, ConsentPayload(r));
  }

  lemma {:induction false} ConsentPayloadFrame(
      v: Bytes, fs: seq<Bytes>, g: byte, t: Bytes, kid: Bytes, s: Bytes)
    requires FieldsFit(fs) && FieldsFit([kid]) && |v| == 4 && |t| == 8 && |fs| == 5
    requires s == v + EncodeFields(fs) + ([g] + t + EncodeFields([kid]))
    ensures ParseConsent(s) == (Widths(); Some(ConsentRecord(FromBigEndian(v),
                                    fs[0], fs[1], fs[2], fs[3], fs[4], g == 1, ToInt64(t), kid, [])))
  {
    var tail := [g] + t + EncodeFields([kid]);
    TakeFrameInverse(v, fs, tail);
    TakeFrameInverse([g] + t, [kid], []);
    assert tail + [] == tail;
    assert ([g] + t)[0] == g && ([g] + t)[1..] == t;
  }

  lemma {:induction false} ConsentPayloadInjective(a: ConsentRecord, b: ConsentRecord)
    requires ConsentFits(a) && ConsentFits(b)
    requires ConsentPayload(a) == ConsentPayload(b)
    ensures ConsentContent(a) == ConsentContent(b)
  {
    ConsentPayloadRoundTrip(a);
    ConsentPayloadRoundTrip(b);
  }

  // ---------------------------------------------------------------- presence events

  /** `occurredAt` is the whole second the leaf encodes; the stored timestamp is finer. */
  datatype PresenceEvent = PresenceEvent(
    seqNo: int64, id: Bytes, sessionId: Bytes, userId: Bytes, action: Bytes, role: Bytes, occurredAt: int64)

  function PresenceFields(e: PresenceEvent): seq<Bytes> {
    [e.id, e.sessionId, e.userId, e.action, e.role]
  }

  function LeafBytes(e: PresenceEvent): Bytes {
    U64(e.seqNo) + EncodeFields(PresenceFields(e)) + U64(e.occurredAt)
  }

  predicate PresenceFits(e: PresenceEvent) {
    FieldsFit(PresenceFields(e))
  }

  method EncodeLeaf(e: PresenceEvent) returns (b: Bytes)
    ensures b == LeafBytes(e)
  {
    b := [];
    b := b + U64(e.seqNo);
    ghost var head, fs := U64(e.seqNo), PresenceFields(e);
    assert b == head + EncodeFields([]);
    b := PutField(b, head, [], e.id);
    assert [] + [e.id] == fs[..1];
    b := PutField(b, head, fs[..1], e.sessionId);
    assert fs[..1] + [e.sessionId] == fs[..2];
    b := PutField(b, head, fs[..2], e.userId);
    assert fs[..2] + [e.userId] == fs[..3];
    b := PutField(b, head, fs[..3], e.action);
    assert fs[..3] + [e.action] == fs[..4];
    b := PutField(b, head, fs[..4], e.role);
    assert fs[..4] + [e.role] == fs;
    b := b + U64(e.occurredAt);
  }

  function ParseLeaf(s: Bytes): (r: Option<PresenceEvent>)
    ensures r.Some? ==> PresenceFits(r.value)
  {
    var frame := TakeFrame(8, 5, s);
    if frame.None? || |frame.value.tail| != 8 then None else
    var Frame(head, f, tail) := frame.value;
    Some(PresenceEvent(ToInt64(head), f[0], f[1], f[2], f[3], f[4], ToInt64(tail)))
  }

  lemma {:induction false} LeafRoundTrip(e: PresenceEvent)
    ensures ParseLeaf(LeafBytes(e)) == Some(e) <==> PresenceFits(e)
  {
    if PresenceFits(e) {
      TakeFrameInverse(U64(e.seqNo), PresenceFields(e), U64(e.occurredAt));
      U64Inverse(e.seqNo);
      U64Inverse(e.occurredAt);
    }
  }

  lemma {:induction false} LeafInjective(a: PresenceEvent, b: PresenceEvent)
    requires PresenceFits(a) && PresenceFits(b)
    requires LeafBytes(a) == LeafBytes(b)
    ensures a == b
  {
    LeafRoundTrip(a);
    LeafRoundTrip(b);
  }
}
