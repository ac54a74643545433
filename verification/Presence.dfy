/** The presence verifier: a row is included under a root that a signed audit entry commits to. */
module Presence {
  import opened ByteStrings
  import opened Contracts
  import opened HashChain
  import opened Audit
  import opened Merkle
  import opened CheckpointTarget
  import opened AuditStore

  // ---------------------------------------------------------------- tables and queries

  /** One row of the presence_checkpoints index. */
  datatype Checkpoint = Checkpoint(
    id: Bytes, fromSeq: int64, toSeq: int64, leafCount: int64, merkleRoot: Bytes, auditSeq: int)

  /** The presence_events table is represented by its rows in primary-key order. */
  ghost predicate InSeqOrder(rows: seq<PresenceEvent>) {
    forall i, j :: 0 <= i < j < |rows| ==> rows[i].seqNo < rows[j].seqNo
  }

  function EventsInRange(rows: seq<PresenceEvent>, lo: int, hi: int): seq<PresenceEvent>
    decreases |rows|
  {
    if rows == [] then [] else
    var e := rows[|rows| - 1];
    EventsInRange(rows[..|rows| - 1], lo, hi) + (if lo <= e.seqNo <= hi then [e] else [])
  }

  /** Among the checkpoints whose range contains `seqNo`, one with the largest `toSeq`. */
  function Covering(cps: seq<Checkpoint>, seqNo: int): Option<Checkpoint>
    decreases |cps|
  {
    if cps == [] then None else
    var cp, other := cps[|cps| - 1], Covering(cps[..|cps| - 1], seqNo);
    if !(cp.fromSeq <= seqNo <= cp.toSeq) then other
    else if other.Some? && other.value.toSeq > cp.toSeq then other
    else Some(cp)
  }

  function Leaves(rows: seq<PresenceEvent>): (leaves: seq<Bytes>)
    ensures |leaves| == |rows| && forall i :: 0 <= i < |rows| ==> leaves[i] == LeafBytes(rows[i])
    decreases |rows|
  {
    if rows == [] then [] else Leaves(rows[..|rows| - 1]) + [LeafBytes(rows[|rows| - 1])]
  }

  /** The last position holding `seqNo`, or -1. */
  function IndexOfSeq(rows: seq<PresenceEvent>, seqNo: int): (i: int)
    ensures -1 <= i < |rows| && (i >= 0 ==> rows[i].seqNo == seqNo)
    ensures i < 0 ==> forall j :: 0 <= j < |rows| ==> rows[j].seqNo != seqNo
    decreases |rows|
  {
    if rows == [] then -1
    else if rows[|rows| - 1].seqNo == seqNo then |rows| - 1
    else IndexOfSeq(rows[..|rows| - 1], seqNo)
  }

  // ---------------------------------------------------------------- Verify

  datatype Outcome =
    | Verified
    | NoVerifier
    | NotCheckpointed
    | EventNotFound
    | RangeTampered
    | ProofFailed
    | EntryMissing
    | BadEntry(entryError: AuditError)
    | BadTarget(targetError: ParseError)
    | SignedRootDiffers

  datatype Tables = Tables(rows: seq<PresenceEvent>, cps: seq<Checkpoint>, log: seq<AuditEntry>)

  /** The checks on the signed entry that a checkpoint points at. */
  function CheckAnchor(h: HashFn, s: Scheme, keys: KeySet, log: seq<AuditEntry>, cp: Checkpoint): Outcome {
    var entry := EntryBySeq(log, cp.auditSeq);
    if entry.None? then EntryMissing else
    var err := VerifyEntry(h, s, keys, entry.value);
    if err.Some? then BadEntry(err.value) else
    var meta := ParseTarget(entry.value.targetId);
    if meta.Rejected? then BadTarget(meta.error)
    else if meta.meta.merkleRoot != cp.merkleRoot then SignedRootDiffers
    else Verified
  }

  function VerifyOutcome(h: HashFn, s: Scheme, keys: Option<KeySet>, t: Tables, seqNo: int): Outcome {
    if keys.None? then NoVerifier else
    var cp := Covering(t.cps, seqNo);
    if cp.None? then NotCheckpointed else
    var rows := EventsInRange(t.rows, cp.value.fromSeq, cp.value.toSeq);
    var idx := IndexOfSeq(rows, seqNo);
    if idx < 0 then EventNotFound
    else if Root(h, Leaves(rows)) != cp.value.merkleRoot then RangeTampered
    else CheckAnchor(h, s, keys.value, t.log, cp.value)
  }

  /** The verifier as it runs: one pass over the range fills the leaves and finds the index. The
      inclusion proof it then checks cannot fail, since the rebuilt root already matched. */
  method Verify(h: HashFn, s: Scheme, keys: Option<KeySet>, t: Tables, seqNo: int) returns (r: Outcome)
    ensures r == VerifyOutcome(h, s, keys, t, seqNo) && r != ProofFailed
  {
    hide LeafBytes, Root, Path, Covering, EventsInRange, ParseTarget;
    if keys.None? {
      return NoVerifier;
    }
    var found := Covering(t.cps, seqNo);
    if found.None? {
      return NotCheckpointed;
    }
    var cp := found.value;
    var rows := EventsInRange(t.rows, cp.fromSeq, cp.toSeq);
    var leaves, idx := LeavesAndIndex(rows, seqNo);
    if idx < 0 {
      return EventNotFound;
    }
    if Root(h, leaves) != cp.merkleRoot {
      return RangeTampered;
    }
    PathVerifies(h, leaves, idx);
    if !VerifyProof(h, leaves[idx], idx, |leaves|, Path(h, idx, leaves), cp.merkleRoot) {
      return ProofFailed;
    }
    r := CheckAnchor(h, s, keys.value, t.log, cp);
  }

  method LeavesAndIndex(rows: seq<PresenceEvent>, seqNo: int) returns (leaves: seq<Bytes>, idx: int)
    ensures leaves == Leaves(rows) && idx == IndexOfSeq(rows, seqNo)
  {
    leaves, idx := [], -1;
    for i := 0 to |rows|
      invariant leaves == Leaves(rows[..i]) && idx == IndexOfSeq(rows[..i], seqNo)
    {
      assert rows[..i + 1][..i] == rows[..i];
      var leaf := EncodeLeaf(rows[i]);
      hide LeafBytes;
      leaves := leaves + [leaf];
      if rows[i].seqNo == seqNo {
        idx := i;
      }
    }
    assert rows[..|rows|] == rows;
  }

  // ---------------------------------------------------------------- what a success proves

  /** Where the hash collides if the rows are not the checkpointed ones: in the entry, or in the tree. */
  function TrailCollision(h: HashFn, entry: AuditEntry, genuine: AuditEntry,
                          now: seq<PresenceEvent>, then_: seq<PresenceEvent>): (Bytes, Bytes) {
    if AuditPayload(entry) != AuditPayload(genuine) then (AuditPayload(entry), AuditPayload(genuine))
    else RootCollision(h, Leaves(now), Leaves(then_))
  }

  lemma {:induction false} LeavesInjective(a: seq<PresenceEvent>, b: seq<PresenceEvent>)
    requires (forall e :: e in a ==> PresenceFits(e)) && (forall e :: e in b ==> PresenceFits(e))
    requires Leaves(a) == Leaves(b)
    ensures a == b
  {
    hide LeafBytes;
    forall i | 0 <= i < |a|
      ensures a[i] == b[i]
    {
      assert Leaves(a)[i] == Leaves(b)[i];
      LeafInjective(a[i], b[i]);
    }
  }

  /** Whatever the presence, checkpoint and audit tables now hold: if verification succeeds, and the
      hash on the audit row it used is that of an entry written for a checkpoint over `then_`, then
      the rows now in range are exactly `then_` (same count, same fields, to the second) and the event
      is one of them, or the hash collides on a pair computed from what is on the table. The signed
      range and count are never looked at. */
  lemma {:induction false} SuccessBindsRows(
      h: HashFn, s: Scheme, keys: KeySet, t: Tables, seqNo: int,
      genuine: AuditEntry, meta: Meta, then_: seq<PresenceEvent>)
    requires genuine.targetId == EncodeTarget(meta) && meta.merkleRoot == Root(h, Leaves(then_))
    requires AuditFits(genuine) && forall e :: e in then_ ==> PresenceFits(e)
    requires forall e :: e in t.rows ==> PresenceFits(e)
    ensures VerifyOutcome(h, s, Some(keys), t, seqNo) == Verified ==>
              var cp := Covering(t.cps, seqNo).value;
              var entry := EntryBySeq(t.log, cp.auditSeq).value;
              var now := EventsInRange(t.rows, cp.fromSeq, cp.toSeq);
              entry.entryHash == EntryHash(h, genuine) && AuditFits(entry) ==>
                || (now == then_ && exists e :: e in then_ && e.seqNo == seqNo)
                || Collides(h, TrailCollision(h, entry, genuine, now, then_))
  {
    hide AuditPayload, LeafBytes, Root, RootCollision, EncodeTarget, ParseTarget, AuditFits, PresenceFits;
    if VerifyOutcome(h, s, Some(keys), t, seqNo) == Verified {
      var cp := Covering(t.cps, seqNo).value;
      var entry := EntryBySeq(t.log, cp.auditSeq).value;
      if AuditFits(entry) && AuditPayload(entry) == AuditPayload(genuine) {
        AnchorBinds(h, s, keys, t.log, cp, genuine, meta);
        RangeIsSubset(t.rows, cp.fromSeq, cp.toSeq);
        RowsBind(h, EventsInRange(t.rows, cp.fromSeq, cp.toSeq), then_, seqNo);
      }
    }
  }

  lemma {:induction false} AnchorBinds(h: HashFn, s: Scheme, keys: KeySet, log: seq<AuditEntry>, cp: Checkpoint,
                                       genuine: AuditEntry, meta: Meta)
    requires CheckAnchor(h, s, keys, log, cp) == Verified
    requires genuine.targetId == EncodeTarget(meta) && AuditFits(genuine)
    ensures var entry := EntryBySeq(log, cp.auditSeq).value;
            && VerifyEntry(h, s, keys, entry).None?
            && (AuditFits(entry) && AuditPayload(entry) == AuditPayload(genuine) ==> cp.merkleRoot == meta.merkleRoot)
  {
    hide AuditPayload, EncodeTarget, ParseTarget, AuditFits;
    var entry := EntryBySeq(log, cp.auditSeq).value;
    if AuditFits(entry) && AuditPayload(entry) == AuditPayload(genuine) {
      AuditPayloadInjective(entry, genuine);
      assert entry.targetId == AuditContent(entry).targetId == AuditContent(genuine).targetId == genuine.targetId;
      TargetRoundTrip(meta);
    }
  }

  lemma {:induction false} RowsBind(h: HashFn, now: seq<PresenceEvent>, then_: seq<PresenceEvent>, seqNo: int)
    requires (forall e :: e in now ==> PresenceFits(e)) && (forall e :: e in then_ ==> PresenceFits(e))
    requires Root(h, Leaves(now)) == Root(h, Leaves(then_)) && IndexOfSeq(now, seqNo) >= 0
    ensures || (now == then_ && exists e :: e in then_ && e.seqNo == seqNo)
            || Collides(h, RootCollision(h, Leaves(now), Leaves(then_)))
  {
    hide LeafBytes, Root, RootCollision, PresenceFits;
    RootBinding(h, Leaves(now), Leaves(then_));
    if Leaves(now) == Leaves(then_) {
      LeavesInjective(now, then_);
      assert now[IndexOfSeq(now, seqNo)] in then_;
    }
  }

  lemma {:induction false} RangeIsSubset(rows: seq<PresenceEvent>, lo: int, hi: int)
    ensures forall e :: e in EventsInRange(rows, lo, hi) ==> e in rows
    decreases |rows|
  {
    if rows == [] {
    } else {
      RangeIsSubset(rows[..|rows| - 1], lo, hi);
    }
  }
}
