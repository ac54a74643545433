/** The audited store operations: each commits a mutation together with one chained, signed entry. */
module AuditStore {
  import opened ByteStrings
  import opened Contracts
  import opened HashChain
  import opened Audit
  import opened Accounts

  // ---------------------------------------------------------------- building an entry

  datatype AuditInput = AuditInput(
    actorId: Bytes, actorRole: Bytes, action: Bytes, targetType: Bytes, targetId: Bytes, metadata: Bytes)

  /** What a jsonb column gives back for the bytes written to it; None when they are not JSON. */
  datatype Jsonb = Jsonb(raw: Bytes -> Option<Bytes>)

  function Normalise(j: Jsonb, m: Bytes): Option<Bytes> { j.raw(m) }

  datatype Platform = Platform(h: HashFn, scheme: Scheme, jsonb: Jsonb)

  const EMPTY_OBJECT: Bytes := Ascii("{}")

  function MetadataOf(input: AuditInput): Bytes {
    if input.metadata == [] then EMPTY_OBJECT else input.metadata
  }

  /** The entry as it is hashed and signed, before the database assigns a seq. */
  function NewEntry(p: Platform, signer: Signer, prev: Bytes, now: int64, input: AuditInput): AuditEntry {
    var e := AuditEntry(1, 0, now, input.actorId, input.actorRole, input.action, input.targetType,
                        input.targetId, MetadataOf(input), prev, [], signer.kid, []);
    var hash := EntryHash(p.h, e);
    e.(entryHash := hash, signature := Sign(p.scheme, signer.key, hash))
  }

  /** The row as a later read returns it. */
  function StoredRow(e: AuditEntry, seqNo: int, metadata: Bytes): AuditEntry {
    e.(seqNo := seqNo, metadata := metadata)
  }

  /** What a caller can check: the metadata survives storage byte for byte. */
  predicate Stable(p: Platform, input: AuditInput) {
    Normalise(p.jsonb, MetadataOf(input)) == Some(MetadataOf(input))
  }

  /** The hash the next entry links to; a chain's tail does not depend on the verifier's keys. */
  function TailHash(p: Platform, log: seq<AuditEntry>): Bytes {
    Tail(AuditRules(p.h, p.scheme, map[]), log)
  }

  // ---------------------------------------------------------------- transactions

  datatype State = State(log: seq<AuditEntry>, accounts: Db, signer: Option<Signer>, nextSeq: int)

  /** Where a transaction dies, if it does. A row inserted and then rolled back still used up a seq. */
  datatype Fault = NoFault | BeforeInsert | AfterInsert

  datatype Op =
    | Audited(input: AuditInput, mutation: Mutation, now: int64, fault: Fault)
    | UseSigner(signer: Option<Signer>)

  function EntryFor(p: Platform, st: State, input: AuditInput, now: int64): AuditEntry
    requires st.signer.Some?
  {
    NewEntry(p, st.signer.value, TailHash(p, st.log), now, input)
  }

  /** One operation: the new state, and whether it committed. */
  function Apply(p: Platform, st: State, op: Op): (State, bool) {
    match op
    case UseSigner(signer) => (st.(signer := signer), true)
    case Audited(input, mutation, now, fault) =>
      var accounts := Mutate(st.accounts, input.targetId, mutation);
      var meta := Normalise(p.jsonb, MetadataOf(input));
      if st.signer.None? || accounts.None? || fault == BeforeInsert || meta.None? then (st, false)
      else if fault == AfterInsert then (st.(nextSeq := st.nextSeq + 1), false)
      else
        var row := StoredRow(EntryFor(p, st, input, now), st.nextSeq, meta.value);
        (st.(log := st.log + [row], accounts := accounts.value, nextSeq := st.nextSeq + 1), true)
  }

  function Run(p: Platform, st: State, ops: seq<Op>): State
    decreases |ops|
  {
    if ops == [] then st else Apply(p, Run(p, st, ops[..|ops| - 1]), ops[|ops| - 1]).0
  }

  const EMPTY: State := State([], Db(map[], []), None, 1)

  /** The store as an object: its tables are fields, and each transaction works on copies that it
      assigns at commit. */
  class Store {
    const p: Platform
    var log: seq<AuditEntry>
    var accounts: Db
    var signer: Option<Signer>
    var nextSeq: int

    ghost function Contents(): State
      reads this
    {
      State(log, accounts, signer, nextSeq)
    }

    constructor (p: Platform)
      ensures Contents() == EMPTY && this.p == p
    {
      this.p := p;
      log, accounts, signer, nextSeq := [], Db(map[], []), None, 1;
    }

    /** Reads the tail hash, fills in the entry, hashes and signs it. */
    method PrepareEntry(input: AuditInput, now: int64) returns (e: AuditEntry)
      requires signer.Some?
      ensures e == EntryFor(p, Contents(), input, now)
    {
      hide AuditPayload;
      var prev := GENESIS;
      if |log| > 0 {
        prev := log[|log| - 1].entryHash;
      }
      var meta := input.metadata;
      if |meta| == 0 {
        meta := EMPTY_OBJECT;
      }
      e := AuditEntry(1, 0, now, input.actorId, input.actorRole, input.action, input.targetType,
                      input.targetId, meta, prev, [], signer.value.kid, []);
      e := e.(entryHash := EntryHash(p.h, e));
      e := e.(signature := Sign(p.scheme, signer.value.key, e.entryHash));
    }

    method InAuditTx(input: AuditInput, mutation: Mutation, now: int64, fault: Fault) returns (ok: bool)
      modifies this`log, this`accounts, this`nextSeq
      ensures (Contents(), ok) == Apply(p, old(Contents()), Audited(input, mutation, now, fault))
    {
      hide EntryFor, Mutate;
      if signer.None? {
        return false;
      }
      var accounts' := Mutate(accounts, input.targetId, mutation);
      if accounts'.None? {
        return false;
      }
      var e := PrepareEntry(input, now);
      var meta := Normalise(p.jsonb, MetadataOf(input));
      if fault == BeforeInsert || meta.None? {
        return false;
      }
      var seqNo := nextSeq;
      nextSeq := nextSeq + 1;
      if fault == AfterInsert {
        return false;
      }
      log, accounts := log + [StoredRow(e, seqNo, meta.value)], accounts'.value;
      return true;
    }
  }

  // ---------------------------------------------------------------- theorems

  lemma {:induction false} NewEntryVerifies(
      p: Platform, keys: KeySet, signer: Signer, prev: Bytes, now: int64, input: AuditInput, seqNo: int)
    requires SignaturesVerify(p.scheme) && Knows(p.scheme, keys, signer)
    ensures VerifyEntry(p.h, p.scheme, keys, NewEntry(p, signer, prev, now, input).(seqNo := seqNo)).None?
  {
    var e := NewEntry(p, signer, prev, now, input);
    PayloadIgnoresDerived(e, seqNo, [], []);
    PayloadIgnoresDerived(e, 0, [], []);
    hide AuditPayload;
    assert e.entryHash == EntryHash(p.h, e.(seqNo := 0, entryHash := [], signature := []));
    assert SignatureOk(p.scheme, PublicKey(p.scheme, signer.key), e.entryHash, Sign(p.scheme, signer.key, e.entryHash));
  }

  /** Seq, entry hash and signature are not part of what is hashed. */
  lemma {:induction false} PayloadIgnoresDerived(e: AuditEntry, seqNo: int, hash: Bytes, sig: Bytes)
    ensures AuditPayload(e.(seqNo := seqNo)) == AuditPayload(e)
    ensures AuditPayload(e.(seqNo := seqNo, entryHash := hash, signature := sig)) == AuditPayload(e)
  {
    assert AuditFields(e.(seqNo := seqNo)) == AuditFields(e);
    assert AuditFields(e.(seqNo := seqNo, entryHash := hash, signature := sig)) == AuditFields(e);
  }

  /** Committing one entry onto an accepted log keeps it accepted exactly when the metadata survives
      storage, or else the two payloads collide. */
  lemma {:induction false} CommitExact(
      p: Platform, keys: KeySet, st: State, input: AuditInput, now: int64, metadata: Bytes)
    requires SignaturesVerify(p.scheme) && st.signer.Some? && Knows(p.scheme, keys, st.signer.value)
    requires Verdict(AuditRules(p.h, p.scheme, keys), st.log).None?
    ensures var e := EntryFor(p, st, input, now);
            var row := StoredRow(e, st.nextSeq, metadata);
            var ok := Verdict(AuditRules(p.h, p.scheme, keys), st.log + [row]).None?;
            && (metadata == MetadataOf(input) ==> ok)
            && (ok && AuditFits(e) && AuditFits(row) ==>
                  metadata == MetadataOf(input) || Collides(p.h, (AuditPayload(e), AuditPayload(row))))
  {
    var signer, rules := st.signer.value, AuditRules(p.h, p.scheme, keys);
    var e := EntryFor(p, st, input, now);
    var row := StoredRow(e, st.nextSeq, metadata);
    NewEntryVerifies(p, keys, signer, TailHash(p, st.log), now, input, 0);
    NewEntryVerifies(p, keys, signer, TailHash(p, st.log), now, input, st.nextSeq);
    hide AuditPayload;
    AppendAccepted(rules, st.log, row);
    if metadata == MetadataOf(input) {
      assert row == e.(seqNo := st.nextSeq);
    } else if rules.check(row).None? && AuditFits(e) && AuditFits(row) && AuditPayload(e) == AuditPayload(row) {
      AuditPayloadInjective(e, row);
    }
  }

  /** A column that drops blanks, on the one text that matters here. */
  const TRIMMING: Jsonb := Jsonb(m => if m == SPACED then Some(EMPTY_OBJECT) else Some(m))
  const SPACED: Bytes := Ascii("{ }")

  /** The input where it fails: metadata written as "{ }" and read back as "{}". The entry commits, and the
      log of that one entry is rejected, or else its two payloads collide. */
  lemma {:induction false} SpacedMetadataBreaksLog(h: HashFn, scheme: Scheme, keys: KeySet, signer: Signer, now: int64)
    requires SignaturesVerify(scheme) && Knows(scheme, keys, signer) && |signer.kid| < TWO_32
    ensures var p := Platform(h, scheme, TRIMMING);
            var input := AuditInput([], [], [], [], [], SPACED);
            var st := EMPTY.(signer := Some(signer));
            var (st', ok) := Apply(p, st, Audited(input, NoMutation, now, NoFault));
            && ok && |st'.log| == 1
            && (|| Verdict(AuditRules(h, scheme, keys), st'.log).Some?
                || Collides(h, (AuditPayload(EntryFor(p, st, input, now)), AuditPayload(st'.log[0]))))
  {
    hide AuditPayload, EntryHash;
    var p := Platform(h, scheme, TRIMMING);
    var input := AuditInput([], [], [], [], [], SPACED);
    var st := EMPTY.(signer := Some(signer));
    assert |SPACED| == 3 && |EMPTY_OBJECT| == 2;
    assert Normalise(p.jsonb, SPACED) == Some(EMPTY_OBJECT);
    var e := EntryFor(p, st, input, now);
    var row := StoredRow(e, st.nextSeq, EMPTY_OBJECT);
    SmallEntryFits(e);
    SmallEntryFits(row);
    CommitExact(p, keys, st, input, now, EMPTY_OBJECT);
    assert st.log + [row] == [row];
  }

  lemma {:induction false} SmallEntryFits(e: AuditEntry)
    requires e.schemaVersion == 1 && |e.metadata| <= 3 && e.prevHash == GENESIS && |e.signingKeyId| < TWO_32
    requires e.actorId == [] && e.actorRole == [] && e.action == [] && e.targetType == [] && e.targetId == []
    ensures AuditFits(e)
  {
  }

  /** Every signer in use is known to the verifier, the log is accepted, and seqs increase. */
  ghost predicate Inv(p: Platform, keys: KeySet, st: State) {
    && (st.signer.Some? ==> Knows(p.scheme, keys, st.signer.value))
    && Verdict(AuditRules(p.h, p.scheme, keys), st.log).None?
    && SeqsIncrease(st.log, st.nextSeq)
  }

  ghost predicate SeqsIncrease(log: seq<AuditEntry>, nextSeq: int) {
    && (forall i :: 0 <= i < |log| ==> log[i].seqNo < nextSeq)
    && (forall i, j :: 0 <= i < j < |log| ==> log[i].seqNo < log[j].seqNo)
  }

  /** Keys are known before they are used, and metadata survives storage. */
  ghost predicate Proper(p: Platform, keys: KeySet, op: Op) {
    match op
    case Audited(input, _, _, _) => Stable(p, input)
    case UseSigner(signer) => signer.Some? ==> Knows(p.scheme, keys, signer.value)
  }

  lemma {:induction false} SeqsGrow(log: seq<AuditEntry>, row: AuditEntry, nextSeq: int)
    requires SeqsIncrease(log, nextSeq) && row.seqNo == nextSeq
    ensures SeqsIncrease(log + [row], nextSeq + 1)
  {
  }

  lemma {:induction false} StepKeepsInv(p: Platform, keys: KeySet, st: State, op: Op)
    requires SignaturesVerify(p.scheme) && Inv(p, keys, st) && Proper(p, keys, op)
    ensures Inv(p, keys, Apply(p, st, op).0)
  {
    hide EntryFor, Mutate, SignaturesVerify, Verdict, SeqsIncrease, AuditRules;
    match op
    case UseSigner(_) =>
    case Audited(input, mutation, now, fault) =>
      if fault == AfterInsert {
        assert SeqsIncrease(st.log, st.nextSeq + 1) by { SeqSkipped(st.log, st.nextSeq); }
      }
      if Apply(p, st, op).1 {
        var row := StoredRow(EntryFor(p, st, input, now), st.nextSeq, MetadataOf(input));
        CommitExact(p, keys, st, input, now, MetadataOf(input));
        SeqsGrow(st.log, row, st.nextSeq);
      }
  }

  lemma {:induction false} SeqSkipped(log: seq<AuditEntry>, nextSeq: int)
    requires SeqsIncrease(log, nextSeq)
    ensures SeqsIncrease(log, nextSeq + 1)
  {
  }

  /** Whatever is attempted, fails, rolls back or rotates its key, the log stays verifiable. */
  lemma {:induction false} RunKeepsInv(p: Platform, keys: KeySet, ops: seq<Op>)
    requires SignaturesVerify(p.scheme) && forall op :: op in ops ==> Proper(p, keys, op)
    ensures Inv(p, keys, Run(p, EMPTY, ops))
    decreases |ops|
  {
    if ops == [] {
    } else {
      var init := ops[..|ops| - 1];
      RunKeepsInv(p, keys, init);
      assert ops[|ops| - 1] in ops;
      StepKeepsInv(p, keys, Run(p, EMPTY, init), ops[|ops| - 1]);
    }
  }

  /** Every prefix of the log left by any run is accepted under all the keys used. */
  lemma {:induction false} EveryRunVerifies(p: Platform, keys: KeySet, ops: seq<Op>, n: nat)
    requires SignaturesVerify(p.scheme) && forall op :: op in ops ==> Proper(p, keys, op)
    requires n <= |Run(p, EMPTY, ops).log|
    ensures Verdict(AuditRules(p.h, p.scheme, keys), Run(p, EMPTY, ops).log[..n]).None?
  {
    RunKeepsInv(p, keys, ops);
    RejectionSticks(AuditRules(p.h, p.scheme, keys), Run(p, EMPTY, ops).log, n);
  }

  // ---------------------------------------------------------------- lookup by seq

  function EntryBySeq(log: seq<AuditEntry>, seqNo: int): (r: Option<AuditEntry>)
    ensures r.Some? ==> r.value in log && r.value.seqNo == seqNo
    decreases |log|
  {
    if log == [] then None
    else if log[|log| - 1].seqNo == seqNo then Some(log[|log| - 1])
    else EntryBySeq(log[..|log| - 1], seqNo)
  }

  lemma {:induction false} EntryFound(log: seq<AuditEntry>, nextSeq: int, i: nat)
    requires SeqsIncrease(log, nextSeq) && i < |log|
    ensures EntryBySeq(log, log[i].seqNo) == Some(log[i])
    decreases |log|
  {
    if i == |log| - 1 {
    } else {
      EntryFound(log[..|log| - 1], nextSeq, i);
    }
  }
}
