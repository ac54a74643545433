/** What a verification can rest on once presence and checkpoint rows are rewritten: which signed entries
    anchor rows, and exactly when that lets rows through that no checkpoint was taken over. */
module PresenceAnchors {
  import opened ByteStrings
  import opened Contracts
  import opened HashChain
  import opened Audit
  import opened Merkle
  import opened CheckpointTarget
  import Accounts
  import AuditStore
  import opened Presence
  import opened PresenceRuns

  // ---------------------------------------------------------------- rewriting history after a run

  /** Take the state any run leaves, and let presence and checkpoint rows then be rewritten at will. If
      an event still verifies through the audit entry of checkpoint `i`, the rows now in range are the
      very rows that checkpoint was taken over, or the two row lists make the tree hash collide. */
  lemma {:induction false} RewritingIsDetected(
      p: Platform, keys: KeySet, ops: seq<Op>, i: nat, forged: Tables, seqNo: int)
    requires Assumptions(p) && LegalRun(p, keys, ops) && i < |Run(p, ops).cps|
    requires forged.log == Run(p, ops).db.log
    requires forall e :: e in Run(p, ops).rows ==> PresenceFits(e)
    requires forall e :: e in forged.rows ==> PresenceFits(e)
    ensures VerifyOutcome(p.h, p.scheme, Some(keys), forged, seqNo) == Verified ==>
              var t, cp := Run(p, ops), Covering(forged.cps, seqNo).value;
              var now := EventsInRange(forged.rows, cp.fromSeq, cp.toSeq);
              var taken := EventsInRange(t.rows, t.cps[i].fromSeq, t.cps[i].toSeq);
              cp.auditSeq == t.cps[i].auditSeq ==>
                || (now == taken && exists e :: e in taken && e.seqNo == seqNo)
                || Collides(p.h, RootCollision(p.h, Leaves(now), Leaves(taken)))
  {
    hide Run, Root, RootCollision, Leaves, Covering, EventsInRange, Start, PresenceFits, Inv;
    if VerifyOutcome(p.h, p.scheme, Some(keys), forged, seqNo) == Verified {
      var t, cp := Run(p, ops), Covering(forged.cps, seqNo).value;
      if cp.auditSeq == t.cps[i].auditSeq {
        RunKeepsInv(p, keys, ops);
        RowsOfTile(p, keys, t, i);
        RangeIsSubset(t.rows, t.cps[i].fromSeq, t.cps[i].toSeq);
        RangeIsSubset(forged.rows, cp.fromSeq, cp.toSeq);
        assert cp.merkleRoot == t.cps[i].merkleRoot by { SameAnchorSameRoot(p, keys, t, i, cp); }
        RowsBind(p.h, EventsInRange(forged.rows, cp.fromSeq, cp.toSeq),
                 EventsInRange(t.rows, t.cps[i].fromSeq, t.cps[i].toSeq), seqNo);
      }
    }
  }

  /** A checkpoint row that passes against a genuine checkpoint's entry carries its root. */
  lemma {:induction false} SameAnchorSameRoot(p: Platform, keys: KeySet, t: Trail, i: nat, cp: Checkpoint)
    requires Inv(p, keys, t) && i < |t.cps| && cp.auditSeq == t.cps[i].auditSeq
    requires CheckAnchor(p.h, p.scheme, keys, t.db.log, cp) == Verified
    ensures cp.merkleRoot == t.cps[i].merkleRoot
  {
    hide EncodeTarget, ParseTarget, Root, Leaves, Start, AuditPayload, AuditStore.Inv;
    assert TileAt(p.h, t, i);
    TargetRoundTrip(Meta(t.cps[i].merkleRoot, t.cps[i].fromSeq, t.cps[i].toSeq, t.cps[i].leafCount));
  }

  // ---------------------------------------------------------------- what one entry anchors

  /** The target reads as a commitment to these rows: to their root, that is, as its range and count are
      never looked at. */
  predicate CommitsTo(h: HashFn, target: Bytes, rows: seq<PresenceEvent>) {
    var m := ParseTarget(target);
    m.Parsed? && m.meta.merkleRoot == Root(h, Leaves(rows))
  }

  /** Rows a presence table can hold: in key order, with fields whose lengths do not wrap. */
  ghost predicate Plausible(rows: seq<PresenceEvent>) {
    InSeqOrder(rows) && forall e :: e in rows ==> PresenceFits(e)
  }

  /** Tables holding just these rows, and one checkpoint row over them that points at entry `k`. */
  function Forged(h: HashFn, rows: seq<PresenceEvent>, log: seq<AuditEntry>, k: nat): Tables
    requires rows != [] && k < |log|
  {
    Tables(rows, [ForgedCheckpoint(h, rows, log[k].seqNo)], log)
  }

  function ForgedCheckpoint(h: HashFn, rows: seq<PresenceEvent>, auditSeq: int): Checkpoint
    requires rows != []
  {
    Checkpoint([], rows[0].seqNo, rows[|rows| - 1].seqNo, 0, Root(h, Leaves(rows)), auditSeq)
  }

  lemma {:induction false} AcceptedEntry(h: HashFn, s: Scheme, keys: KeySet, log: seq<AuditEntry>, k: nat)
    requires Verdict(AuditRules(h, s, keys), log).None? && k < |log|
    ensures VerifyEntry(h, s, keys, log[k]).None?
  {
    hide VerifyEntry;
    AcceptanceMeans(AuditRules(h, s, keys), log);
    assert AuditRules(h, s, keys).check(log[k]).None?;
  }

  /** Over an accepted log, the entry check passes exactly when the entry's target carries the root. */
  lemma {:induction false} AnchorExactly(
      h: HashFn, s: Scheme, keys: KeySet, log: seq<AuditEntry>, nextSeq: int, k: nat, cp: Checkpoint)
    requires Verdict(AuditRules(h, s, keys), log).None? && AuditStore.SeqsIncrease(log, nextSeq)
    requires k < |log| && cp.auditSeq == log[k].seqNo
    ensures CheckAnchor(h, s, keys, log, cp) == Verified <==>
              var m := ParseTarget(log[k].targetId); m.Parsed? && m.meta.merkleRoot == cp.merkleRoot
  {
    AcceptedEntry(h, s, keys, log, k);
    hide ParseTarget, VerifyEntry, Verdict;
    AuditStore.EntryFound(log, nextSeq, k);
  }

  lemma {:induction false} ForgedTables(h: HashFn, rows: seq<PresenceEvent>, log: seq<AuditEntry>, k: nat, i: nat)
    requires InSeqOrder(rows) && i < |rows| && k < |log|
    ensures var t := Forged(h, rows, log, k);
            && Covering(t.cps, rows[i].seqNo) == Some(t.cps[0])
            && EventsInRange(t.rows, t.cps[0].fromSeq, t.cps[0].toSeq) == rows
  {
    hide Root, Leaves, Covering, EventsInRange;
    var t := Forged(h, rows, log, k);
    forall j | 0 <= j < |rows|
      ensures rows[0].seqNo <= rows[j].seqNo <= rows[|rows| - 1].seqNo
    {
    }
    CoveringUnique(t.cps, rows[i].seqNo, 0);
    RangeAll(rows, rows[0].seqNo, rows[|rows| - 1].seqNo);
  }

  /** Over an accepted log, a checkpoint row that points at entry `k` makes made-up rows verify, each one
      of them, if and only if the entry's target commits to those rows. */
  lemma {:induction false} EntryAnchorsExactly(
      h: HashFn, s: Scheme, keys: KeySet, log: seq<AuditEntry>, nextSeq: int, k: nat, rows: seq<PresenceEvent>, i: nat)
    requires Verdict(AuditRules(h, s, keys), log).None? && AuditStore.SeqsIncrease(log, nextSeq)
    requires k < |log| && InSeqOrder(rows) && i < |rows|
    ensures VerifyOutcome(h, s, Some(keys), Forged(h, rows, log, k), rows[i].seqNo) == Verified <==>
              CommitsTo(h, log[k].targetId, rows)
  {
    hide Root, Leaves, Covering, EventsInRange, ParseTarget, CheckAnchor, Verdict;
    ForgedTables(h, rows, log, k, i);
    AnchorExactly(h, s, keys, log, nextSeq, k, ForgedCheckpoint(h, rows, log[k].seqNo));
  }

  // ---------------------------------------------------------------- exactly when rewriting is detected

  /** The rows that checkpoint `i` was taken over. */
  function TakenBy(t: Trail, i: nat): seq<PresenceEvent>
    requires i < |t.cps|
  {
    EventsInRange(t.rows, t.cps[i].fromSeq, t.cps[i].toSeq)
  }

  /** Some checkpoint was taken over these rows, or over rows with which they make the tree hash collide. */
  ghost predicate TakenOver(h: HashFn, t: Trail, rows: seq<PresenceEvent>) {
    exists i :: 0 <= i < |t.cps| &&
      (rows == TakenBy(t, i) || Collides(h, RootCollision(h, Leaves(rows), Leaves(TakenBy(t, i)))))
  }

  /** The rows a verification of `seqNo` looks at. */
  function RowsNow(forged: Tables, seqNo: int): seq<PresenceEvent>
    requires Covering(forged.cps, seqNo).Some?
  {
    EventsInRange(forged.rows, Covering(forged.cps, seqNo).value.fromSeq, Covering(forged.cps, seqNo).value.toSeq)
  }

  /** However presence and checkpoint rows are rewritten beside this log, what verifies verifies over rows
      that some checkpoint was taken over. */
  ghost predicate Detects(p: Platform, keys: KeySet, t: Trail) {
    forall forged: Tables, seqNo: int ::
      && forged.log == t.db.log && Plausible(forged.rows)
      && VerifyOutcome(p.h, p.scheme, Some(keys), forged, seqNo) == Verified ==>
        Covering(forged.cps, seqNo).Some? && TakenOver(p.h, t, RowsNow(forged, seqNo))
  }

  /** Entry `k` was written by no checkpoint. */
  ghost predicate Foreign(t: Trail, k: int) {
    0 <= k < |t.db.log| && forall i :: 0 <= i < |t.cps| ==> t.cps[i].auditSeq != t.db.log[k].seqNo
  }

  /** No other action's entry commits to rows of its own. */
  ghost predicate NoForeignCommitment(h: HashFn, t: Trail) {
    forall k: int, rows: seq<PresenceEvent> ::
      Foreign(t, k) && rows != [] && Plausible(rows) && CommitsTo(h, t.db.log[k].targetId, rows) ==>
        TakenOver(h, t, rows)
  }

  /** A checkpoint's own entry commits to nothing but the rows it was taken over. */
  lemma {:induction false} OwnEntryCommits(
      p: Platform, keys: KeySet, t: Trail, i: nat, k: nat, rows: seq<PresenceEvent>)
    requires Inv(p, keys, t) && Plausible(t.rows) && Plausible(rows)
    requires i < |t.cps| && k < |t.db.log| && t.cps[i].auditSeq == t.db.log[k].seqNo
    requires CommitsTo(p.h, t.db.log[k].targetId, rows)
    ensures TakenOver(p.h, t, rows)
  {
    hide Root, RootCollision, Leaves, EventsInRange, Start, ParseTarget, EncodeTarget, PresenceFits;
    hide Collides, InSeqOrder;
    var taken, cp := TakenBy(t, i), t.cps[i];
    assert Root(p.h, Leaves(taken)) == cp.merkleRoot by { RowsOfTile(p, keys, t, i); }
    RangeIsSubset(t.rows, cp.fromSeq, cp.toSeq);
    var m := ParseTarget(t.db.log[k].targetId);
    assert m.Parsed? && m.meta.merkleRoot == cp.merkleRoot by { OwnTarget(p, keys, t, i, k); }
    RootBinding(p.h, Leaves(rows), Leaves(taken));
    if Leaves(rows) == Leaves(taken) {
      LeavesInjective(rows, taken);
    }
  }

  lemma {:induction false} OwnTarget(p: Platform, keys: KeySet, t: Trail, i: nat, k: nat)
    requires Inv(p, keys, t) && i < |t.cps| && k < |t.db.log| && t.cps[i].auditSeq == t.db.log[k].seqNo
    ensures var m := ParseTarget(t.db.log[k].targetId); m.Parsed? && m.meta.merkleRoot == t.cps[i].merkleRoot
  {
    hide Root, Leaves, Start, ParseTarget, EncodeTarget, AuditPayload, Verdict;
    assert TileAt(p.h, t, i);
    var cp := t.cps[i];
    AuditStore.EntryFound(t.db.log, t.db.nextSeq, k);
    TargetRoundTrip(Meta(cp.merkleRoot, cp.fromSeq, cp.toSeq, cp.leafCount));
  }

  lemma {:induction false} RangeKeepsOrder(rows: seq<PresenceEvent>, lo: int, hi: int)
    requires InSeqOrder(rows)
    ensures InSeqOrder(EventsInRange(rows, lo, hi))
    decreases |rows|
  {
    if rows == [] {
    } else {
      hide EventsInRange;
      var init, e := rows[..|rows| - 1], rows[|rows| - 1];
      assert rows == init + [e];
      RangeKeepsOrder(init, lo, hi);
      RangeAppend(init, e, lo, hi);
      RangeIsSubset(init, lo, hi);
      var r := EventsInRange(init, lo, hi);
      forall j | 0 <= j < |r|
        ensures r[j].seqNo < e.seqNo
      {
        assert r[j] in init;
      }
    }
  }

  /** What verifies rests on an entry of the log that commits to the rows looked at. */
  lemma {:induction false} VerifiedRestsOn(h: HashFn, s: Scheme, keys: KeySet, forged: Tables, seqNo: int)
    requires Plausible(forged.rows)
    ensures VerifyOutcome(h, s, Some(keys), forged, seqNo) == Verified ==>
              && Covering(forged.cps, seqNo).Some? && RowsNow(forged, seqNo) != [] && Plausible(RowsNow(forged, seqNo))
              && exists k :: 0 <= k < |forged.log| && CommitsTo(h, forged.log[k].targetId, RowsNow(forged, seqNo))
  {
    hide ParseTarget, Root, Leaves, Covering, EventsInRange, AuditPayload, PresenceFits, InSeqOrder;
    if VerifyOutcome(h, s, Some(keys), forged, seqNo) == Verified {
      var cp := Covering(forged.cps, seqNo).value;
      RangeKeepsOrder(forged.rows, cp.fromSeq, cp.toSeq);
      RangeIsSubset(forged.rows, cp.fromSeq, cp.toSeq);
      var e := AuditStore.EntryBySeq(forged.log, cp.auditSeq).value;
      var k :| 0 <= k < |forged.log| && forged.log[k] == e;
      assert CommitsTo(h, forged.log[k].targetId, RowsNow(forged, seqNo));
    }
  }

  /** In every state a run can leave: rewriting is detected if and only if no entry of another action
      commits to rows of its own. */
  lemma {:induction false} DetectsExactly(p: Platform, keys: KeySet, t: Trail)
    requires Inv(p, keys, t) && Plausible(t.rows)
    ensures Detects(p, keys, t) <==> NoForeignCommitment(p.h, t)
  {
    hide VerifyOutcome, Covering, RowsNow, CommitsTo, TakenOver, Plausible, Tiled;
    if NoForeignCommitment(p.h, t) {
      forall forged: Tables, seqNo: int |
          && forged.log == t.db.log && Plausible(forged.rows)
          && VerifyOutcome(p.h, p.scheme, Some(keys), forged, seqNo) == Verified
        ensures Covering(forged.cps, seqNo).Some? && TakenOver(p.h, t, RowsNow(forged, seqNo))
      {
        VerifiedRestsOn(p.h, p.scheme, keys, forged, seqNo);
        var k :| 0 <= k < |forged.log| && CommitsTo(p.h, forged.log[k].targetId, RowsNow(forged, seqNo));
        if !Foreign(t, k) {
          var i :| 0 <= i < |t.cps| && t.cps[i].auditSeq == t.db.log[k].seqNo;
          OwnEntryCommits(p, keys, t, i, k, RowsNow(forged, seqNo));
        }
      }
    }
    if Detects(p, keys, t) {
      forall k: int, rows: seq<PresenceEvent> |
          Foreign(t, k) && rows != [] && Plausible(rows) && CommitsTo(p.h, t.db.log[k].targetId, rows)
        ensures TakenOver(p.h, t, rows)
      {
        ForgedVerifies(p, keys, t, k, rows, 0);
      }
    }
  }

  /** An entry that commits to rows lets each of them through. */
  lemma {:induction false} ForgedVerifies(
      p: Platform, keys: KeySet, t: Trail, k: nat, rows: seq<PresenceEvent>, i: nat)
    requires Inv(p, keys, t) && k < |t.db.log| && Plausible(rows) && i < |rows|
    requires CommitsTo(p.h, t.db.log[k].targetId, rows)
    ensures var forged := Forged(p.h, rows, t.db.log, k);
            && forged.log == t.db.log && forged.rows == rows
            && VerifyOutcome(p.h, p.scheme, Some(keys), forged, rows[i].seqNo) == Verified
            && Covering(forged.cps, rows[i].seqNo).Some? && RowsNow(forged, rows[i].seqNo) == rows
  {
    hide VerifyOutcome, Covering, EventsInRange, CommitsTo, Verdict, Root, Leaves, Tiled, PresenceFits;
    EntryAnchorsExactly(p.h, p.scheme, keys, t.db.log, t.db.nextSeq, k, rows, i);
    ForgedTables(p.h, rows, t.db.log, k, i);
  }

  // ---------------------------------------------------------------- a condition callers can check

  /** `Verify` looks at an entry's target, not at its action. This is what that asks of other actions: a
      target that does not read as a checkpoint's commitment. */
  predicate Discreet(op: Op) {
    op.OtherAudited? && op.op.Audited? ==> ParseTarget(op.op.input.targetId).Rejected?
  }

  ghost predicate OnlyCheckpointsParse(t: Trail) {
    forall e :: e in t.db.log && ParseTarget(e.targetId).Parsed? ==>
      exists i :: 0 <= i < |t.cps| && t.cps[i].auditSeq == e.seqNo
  }

  /** What an audited action adds to the log, if anything. */
  lemma {:induction false} EntryAdded(p: Platform, st: AuditStore.State, op: AuditStore.Op)
    ensures var (st', ok) := AuditStore.Apply(p, st, op);
            if ok && op.Audited? then
              exists row :: st'.log == st.log + [row] && row.targetId == op.input.targetId && row.seqNo == st.nextSeq
            else st'.log == st.log
  {
    hide AuditPayload, Accounts.Mutate, Audit.EntryHash;
    var (st', ok) := AuditStore.Apply(p, st, op);
    if ok && op.Audited? {
      var row := st'.log[|st.log|];
      assert st'.log == st.log + [row] && row.targetId == op.input.targetId && row.seqNo == st.nextSeq;
    }
  }

  lemma {:induction false} StepKeepsParse(p: Platform, t: Trail, op: Op)
    requires OnlyCheckpointsParse(t) && Discreet(op)
    ensures OnlyCheckpointsParse(Apply(p, t, op))
  {
    hide ParseTarget, EncodeTarget, Root, Leaves, EventsAfter, LatestSeq;
    match op
    case AppendEvent(_) =>
    case OtherAudited(o) =>
      EntryAdded(p, t.db, o);
      hide AuditStore.Apply;
    case WorkerTick(batch, id, now, fault) =>
      var evs := EventsAfter(t.rows, LatestSeq(t.cps), batch);
      if evs != [] {
        WriteKeepsParse(p, t, id, MetaOf(p.h, evs), now, fault);
      }
  }

  lemma {:induction false} WriteKeepsParse(
      p: Platform, t: Trail, id: Bytes, m: Meta, now: int64, fault: AuditStore.Fault)
    requires OnlyCheckpointsParse(t)
    ensures OnlyCheckpointsParse(WriteCheckpoint(p, t, id, m, now, fault).0)
  {
    hide ParseTarget, EncodeTarget, AuditStore.Apply;
    EntryAdded(p, t.db, AuditStore.Audited(CheckpointInput(m), Accounts.NoMutation, now, fault));
    var (t', ok) := WriteCheckpoint(p, t, id, m, now, fault);
    if ok {
      assert t'.cps[|t.cps|].auditSeq == t.db.nextSeq;
      assert forall i :: 0 <= i < |t.cps| ==> t'.cps[i] == t.cps[i];
    }
  }

  lemma {:induction false} RunKeepsParse(p: Platform, ops: seq<Op>)
    requires forall op :: op in ops ==> Discreet(op)
    ensures OnlyCheckpointsParse(Run(p, ops))
    decreases |ops|
  {
    hide Apply, Discreet;
    if ops == [] {
    } else {
      RunKeepsParse(p, ops[..|ops| - 1]);
      assert ops[|ops| - 1] in ops;
      StepKeepsParse(p, Run(p, ops[..|ops| - 1]), ops[|ops| - 1]);
    }
  }

  /** A row that passes over such a log passes through a genuine checkpoint's entry. */
  lemma {:induction false} AnchorIsCheckpoint(
      h: HashFn, s: Scheme, keys: KeySet, t: Trail, forged: Tables, seqNo: int) returns (i: nat)
    requires OnlyCheckpointsParse(t) && forged.log == t.db.log
    requires VerifyOutcome(h, s, Some(keys), forged, seqNo) == Verified
    ensures i < |t.cps| && Covering(forged.cps, seqNo).value.auditSeq == t.cps[i].auditSeq
  {
    hide ParseTarget, Root, Leaves, Covering, EventsInRange, AuditPayload;
    var cp := Covering(forged.cps, seqNo).value;
    var e := AuditStore.EntryBySeq(forged.log, cp.auditSeq).value;
    assert e in t.db.log && ParseTarget(e.targetId).Parsed?;
    i :| 0 <= i < |t.cps| && t.cps[i].auditSeq == e.seqNo;
  }

  /** The rows in range of a row's checkpoint, and those that genuine checkpoint `i` was taken over. */
  ghost predicate RowsAsTaken(h: HashFn, t: Trail, i: nat, forged: Tables, seqNo: int)
    requires i < |t.cps| && Covering(forged.cps, seqNo).Some?
  {
    var cp := Covering(forged.cps, seqNo).value;
    var now := EventsInRange(forged.rows, cp.fromSeq, cp.toSeq);
    var taken := EventsInRange(t.rows, t.cps[i].fromSeq, t.cps[i].toSeq);
    || (now == taken && exists e :: e in taken && e.seqNo == seqNo)
    || Collides(h, RootCollision(h, Leaves(now), Leaves(taken)))
  }

  /** Nothing need be known about the entry then: after any run whose other actions are discreet, whatever
      still verifies verifies over rows some checkpoint was taken over, or the tree hash collides. */
  lemma {:induction false} RewritingAlwaysDetected(p: Platform, keys: KeySet, ops: seq<Op>, forged: Tables, seqNo: int)
    requires Assumptions(p) && LegalRun(p, keys, ops) && forall op :: op in ops ==> Discreet(op)
    requires forged.log == Run(p, ops).db.log
    requires forall e :: e in Run(p, ops).rows ==> PresenceFits(e)
    requires forall e :: e in forged.rows ==> PresenceFits(e)
    ensures VerifyOutcome(p.h, p.scheme, Some(keys), forged, seqNo) == Verified ==>
              Covering(forged.cps, seqNo).Some? &&
              exists i :: 0 <= i < |Run(p, ops).cps| && RowsAsTaken(p.h, Run(p, ops), i, forged, seqNo)
  {
    hide Run, LegalRun, Assumptions, Discreet, PresenceFits, OnlyCheckpointsParse;
    if VerifyOutcome(p.h, p.scheme, Some(keys), forged, seqNo) == Verified {
      assert Covering(forged.cps, seqNo).Some?;
      hide VerifyOutcome;
      RunKeepsParse(p, ops);
      var i := AnchorIsCheckpoint(p.h, p.scheme, keys, Run(p, ops), forged, seqNo);
      RewritingIsDetected(p, keys, ops, i, forged, seqNo);
      assert RowsAsTaken(p.h, Run(p, ops), i, forged, seqNo);
    }
  }

  lemma {:induction false} DiscreetRunsDetect(p: Platform, keys: KeySet, ops: seq<Op>)
    requires Assumptions(p) && LegalRun(p, keys, ops) && forall op :: op in ops ==> Discreet(op)
    requires forall e :: e in Run(p, ops).rows ==> PresenceFits(e)
    ensures Detects(p, keys, Run(p, ops))
  {
    hide Run, LegalRun, Assumptions, Discreet, PresenceFits, ParseTarget, Root, Leaves, Detects, TakenOver;
    RunKeepsInv(p, keys, ops);
    RunKeepsParse(p, ops);
    hide AuditStore.Inv, Tiled;
    DetectsExactly(p, keys, Run(p, ops));
  }

  // ---------------------------------------------------------------- the input where it fails

  /** A moderator grants or withdraws the instructor capability. The id is taken from the request path, and
      an id that names no user is no failure. */
  function ModeratorAction(moderator: Bytes, grant: bool, id: Bytes, now: int64): Op {
    var action := if grant then Ascii("instructor.granted") else Ascii("instructor.revoked");
    OtherAudited(AuditStore.Audited(
      AuditStore.AuditInput(moderator, Ascii("platform_moderator"), action, Ascii("user"), id, []),
      Accounts.SetInstructor(grant), now, AuditStore.NoFault))
  }

  /** Whatever id is named, the action is allowed and commits, and leaves that id in a signed entry. */
  lemma {:induction false} ModeratorSignsAnyId(
      p: Platform, keys: KeySet, t: Trail, moderator: Bytes, grant: bool, id: Bytes, now: int64)
    requires Assumptions(p) && Inv(p, keys, t) && t.db.signer.Some?
    ensures var op := ModeratorAction(moderator, grant, id, now);
            var t' := Apply(p, t, op);
            && Allowed(p, keys, t, op) && Inv(p, keys, t') && t'.cps == t.cps && t'.rows == t.rows
            && |t'.db.log| == |t.db.log| + 1 && t'.db.log[|t.db.log|].targetId == id
            && t'.db.log[|t.db.log|].seqNo == t.db.nextSeq
            && (id !in t.db.accounts.users ==> t'.db.accounts == t.db.accounts)
  {
    var op := ModeratorAction(moderator, grant, id, now);
    ModeratorCommits(p, t.db, op.op, id);
    assert Allowed(p, keys, t, op);
    hide ModeratorAction, AuditStore.Apply, Inv, SignaturesVerify;
    StepKeepsInv(p, keys, t, op);
  }

  lemma {:induction false} ModeratorCommits(p: Platform, st: AuditStore.State, op: AuditStore.Op, id: Bytes)
    requires AuditStore.Normalise(p.jsonb, AuditStore.EMPTY_OBJECT).Some? && st.signer.Some?
    requires op.Audited? && op.mutation.SetInstructor? && op.fault == AuditStore.NoFault
    requires op.input.targetId == id && op.input.metadata == []
    ensures var st' := AuditStore.Apply(p, st, op).0;
            && |st'.log| == |st.log| + 1 && st'.log[|st.log|].targetId == id && st'.log[|st.log|].seqNo == st.nextSeq
            && (id !in st.accounts.users ==> st'.accounts == st.accounts)
  {
    hide AuditPayload, Audit.EntryHash;
  }

  /** The entry a moderator leaves belongs to no checkpoint. */
  lemma {:induction false} ModeratorEntryForeign(p: Platform, keys: KeySet, t: Trail, t': Trail)
    requires Inv(p, keys, t) && t'.cps == t.cps
    requires |t'.db.log| == |t.db.log| + 1 && t'.db.log[|t.db.log|].seqNo == t.db.nextSeq
    ensures Foreign(t', |t.db.log|)
  {
    hide Root, Leaves, Start, EncodeTarget, AuditPayload, Verdict;
    forall i | 0 <= i < |t.cps|
      ensures t.cps[i].auditSeq < t.db.nextSeq
    {
      assert TileAt(p.h, t, i);
      assert AuditStore.EntryBySeq(t.db.log, t.cps[i].auditSeq).value in t.db.log;
    }
  }

  /** In every state a run can leave, one instructor grant or withdrawal whose id is the text of a
      commitment is enough: rows that were never stored verify, all of them, through the entry it
      leaves; and rewriting is no longer detected, unless some checkpoint was taken over such rows. */
  lemma {:induction false} ModeratorTargetAnchors(
      p: Platform, keys: KeySet, t: Trail, moderator: Bytes, grant: bool, rows: seq<PresenceEvent>, now: int64)
    requires Assumptions(p) && Inv(p, keys, t) && t.db.signer.Some?
    requires 0 < |rows| < 0x8000_0000_0000_0000 && Plausible(rows) && Plausible(t.rows)
    ensures var op := ModeratorAction(moderator, grant, EncodeTarget(MetaOf(p.h, rows)), now);
            var t', k := Apply(p, t, op), |t.db.log|;
            && Allowed(p, keys, t, op) && t'.cps == t.cps && t'.rows == t.rows && Foreign(t', k)
            && (forall i :: 0 <= i < |rows| ==>
                  VerifyOutcome(p.h, p.scheme, Some(keys), Forged(p.h, rows, t'.db.log, k), rows[i].seqNo) == Verified)
            && (Detects(p, keys, t') ==> TakenOver(p.h, t', rows))
  {
    var id := EncodeTarget(MetaOf(p.h, rows));
    var t', k := Apply(p, t, ModeratorAction(moderator, grant, id, now)), |t.db.log|;
    ModeratorSignsAnyId(p, keys, t, moderator, grant, id, now);
    ModeratorEntryForeign(p, keys, t, t');
    assert CommitsTo(p.h, id, rows) by { TargetRoundTrip(MetaOf(p.h, rows)); }
    hide Apply, ModeratorAction, Inv, Allowed, CommitsTo, Detects, TakenOver, Plausible, Foreign;
    hide VerifyOutcome, EncodeTarget;
    forall i | 0 <= i < |rows|
      ensures VerifyOutcome(p.h, p.scheme, Some(keys), Forged(p.h, rows, t'.db.log, k), rows[i].seqNo) == Verified
    {
      ForgedVerifies(p, keys, t', k, rows, i);
    }
    DetectsExactly(p, keys, t');
  }

  /** From the empty store: a signer is set, a moderator names the text as a user, and rewriting goes
      undetected although the run is legal and no checkpoint and no presence row was ever written. */
  lemma {:induction false} ModeratorRunUndetected(
      p: Platform, keys: KeySet, signer: Signer, moderator: Bytes, grant: bool, rows: seq<PresenceEvent>, now: int64)
    requires Assumptions(p) && Knows(p.scheme, keys, signer)
    requires 0 < |rows| < 0x8000_0000_0000_0000 && Plausible(rows)
    ensures var ops := [OtherAudited(AuditStore.UseSigner(Some(signer)))] +
                       [ModeratorAction(moderator, grant, EncodeTarget(MetaOf(p.h, rows)), now)];
            LegalRun(p, keys, ops) && Run(p, ops).cps == [] && Run(p, ops).rows == [] && !Detects(p, keys, Run(p, ops))
  {
    var use := OtherAudited(AuditStore.UseSigner(Some(signer)));
    var op := ModeratorAction(moderator, grant, EncodeTarget(MetaOf(p.h, rows)), now);
    SignerSet(p, keys, signer);
    RunKeepsInv(p, keys, [use]);
    LegalAppend(p, keys, [use], op);
    assert Plausible([]);
    hide Root, Leaves, EncodeTarget, Apply, Run, LegalRun, Allowed, ModeratorAction, Inv, Detects, Plausible;
    hide VerifyOutcome, MetaOf, Forged, Assumptions, Foreign;
    ModeratorTargetAnchors(p, keys, Run(p, [use]), moderator, grant, rows, now);
  }

  lemma {:induction false} SignerSet(p: Platform, keys: KeySet, signer: Signer)
    requires Knows(p.scheme, keys, signer)
    ensures var ops := [OtherAudited(AuditStore.UseSigner(Some(signer)))];
            LegalRun(p, keys, ops) && Run(p, ops) == EMPTY.(db := AuditStore.EMPTY.(signer := Some(signer)))
  {
    var use := OtherAudited(AuditStore.UseSigner(Some(signer)));
    LegalAppend(p, keys, [], use);
    assert [] + [use] == [use];
  }

  lemma {:induction false} LegalAppend(p: Platform, keys: KeySet, ops: seq<Op>, op: Op)
    ensures LegalRun(p, keys, ops + [op]) <==> LegalRun(p, keys, ops) && Allowed(p, keys, Run(p, ops), op)
    ensures Run(p, ops + [op]) == Apply(p, Run(p, ops), op)
  {
    hide Apply, Allowed;
    assert (ops + [op])[..|ops|] == ops;
  }
}
