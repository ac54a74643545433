/** The checkpoint worker gets on: when a tick writes, how far it reaches, and when every row is covered. */
module PresenceProgress {
  import opened ByteStrings
  import opened Contracts
  import opened HashChain
  import opened Merkle
  import opened CheckpointTarget
  import opened Presence
  import opened PresenceRuns
  import Accounts
  import AuditStore
  import AuditEffects

  function Smaller(a: int, b: int): int { if a < b then a else b }

  // ---------------------------------------------------------------- one tick

  /** The batch a tick takes up: as many rows as are left, up to its cap. */
  lemma {:induction false} BatchSize(p: Platform, keys: KeySet, t: Trail, batch: batchsize)
    requires Inv(p, keys, t)
    ensures 0 <= Covered(t) <= |t.rows|
    ensures |EventsAfter(t.rows, LatestSeq(t.cps), batch)| == Smaller(batch, |t.rows| - Covered(t))
  {
    hide AuditStore.Inv, Tiled, EventsAfter, LatestSeq, Start;
    ResumePoint(p, keys, t);
    EventsAfterSlice(t.rows, LatestSeq(t.cps), batch, Covered(t));
  }

  lemma {:induction false} WriteCommits(p: Platform, t: Trail, id: Bytes, m: Meta, now: int64, fault: AuditStore.Fault)
    requires Assumptions(p)
    ensures var (t', ok) := WriteCheckpoint(p, t, id, m, now, fault);
            && (ok <==> t.db.signer.Some? && fault == AuditStore.NoFault)
            && t'.rows == t.rows && (!ok ==> t'.cps == t.cps)
            && (ok ==> |t'.cps| == |t.cps| + 1 && t'.cps[..|t.cps|] == t.cps && t'.cps[|t.cps|].leafCount == m.count)
  {
    hide EncodeTarget, AuditStore.Apply, SignaturesVerify;
    AuditEffects.AuditedExactly(
      p, t.db, AuditStore.Audited(CheckpointInput(m), Accounts.NoMutation, now, fault));
  }

  /** What a committed write leaves: an entry by the system that commits to the root, the range and the count,
      and an index row with the same that points at it. */
  lemma {:induction false} WriteSays(p: Platform, t: Trail, id: Bytes, m: Meta, now: int64, fault: AuditStore.Fault)
    requires Assumptions(p) && WriteCheckpoint(p, t, id, m, now, fault).1
    ensures t.db.signer.Some?
    ensures var t' := WriteCheckpoint(p, t, id, m, now, fault).0;
            && |t'.db.log| == |t.db.log| + 1 && |t'.cps| == |t.cps| + 1
            && var e := t'.db.log[|t.db.log|];
               && e.actorId == [] && e.actorRole == Ascii("system") && e.action == Ascii("presence.checkpoint")
               && e.targetType == Ascii("presence") && e.targetId == EncodeTarget(m)
               && e.occurredAt == now && e.signingKeyId == t.db.signer.value.kid
               && t'.cps[|t.cps|] == Checkpoint(id, m.fromSeq, m.toSeq, m.count, m.merkleRoot, e.seqNo)
  {
    hide EncodeTarget, AuditStore.EntryFor, SignaturesVerify;
    var op := AuditStore.Audited(CheckpointInput(m), Accounts.NoMutation, now, fault);
    AuditEffects.AuditedExactly(p, t.db, op);
  }

  lemma {:induction false} CoveredAppend(t: Trail, t': Trail)
    requires |t'.cps| == |t.cps| + 1 && t'.cps[..|t.cps|] == t.cps
    ensures Covered(t') == Covered(t) + t'.cps[|t.cps|].leafCount
  {
    assert t'.cps == t.cps + t'.cps[|t.cps|..];
    StartOfPrefix(t.cps, t'.cps[|t.cps|..], |t.cps|);
  }

  /** A tick writes a checkpoint if and only if some row is uncovered, there is a signer and the database does
      not fail; then it covers its batch of rows more, or all there are. Otherwise no checkpoint changes. */
  lemma {:induction false} TickExactly(p: Platform, keys: KeySet, t: Trail, op: Op)
    requires Assumptions(p) && Inv(p, keys, t) && op.WorkerTick?
    ensures var (t', wrote) := Tick(p, t, op.batch, op.id, op.now, op.fault);
            && t' == Apply(p, t, op) && t'.rows == t.rows
            && (wrote <==> Covered(t) < |t.rows| && t.db.signer.Some? && op.fault == AuditStore.NoFault)
            && (!wrote ==> t'.cps == t.cps)
            && (wrote ==> Covered(t') == Smaller(Covered(t) + op.batch, |t.rows|))
  {
    var evs := EventsAfter(t.rows, LatestSeq(t.cps), op.batch);
    BatchSize(p, keys, t, op.batch);
    hide Covered, EventsAfter, LatestSeq, WriteCheckpoint, Inv, Root, Leaves;
    if evs != [] {
      WriteCommits(p, t, op.id, MetaOf(p.h, evs), op.now, op.fault);
      var (t', ok) := WriteCheckpoint(p, t, op.id, MetaOf(p.h, evs), op.now, op.fault);
      if ok {
        CoveredAppend(t, t');
      }
    }
  }

  // ---------------------------------------------------------------- catching up

  /** How many rows the ticks of `tail` that can write offer to cover, after `ops`. */
  function Offered(p: Platform, ops: seq<Op>, tail: seq<Op>): nat
    decreases |tail|
  {
    if tail == [] then 0 else
    var init, op := tail[..|tail| - 1], tail[|tail| - 1];
    Offered(p, ops, init) +
    (if op.WorkerTick? && op.fault == AuditStore.NoFault && Run(p, ops + init).db.signer.Some? then op.batch else 0)
  }

  lemma {:induction false} RunAppend(p: Platform, keys: KeySet, ops: seq<Op>, op: Op)
    ensures Run(p, ops + [op]) == Apply(p, Run(p, ops), op)
    ensures LegalRun(p, keys, ops + [op]) ==> LegalRun(p, keys, ops) && Allowed(p, keys, Run(p, ops), op)
  {
    hide Apply, Allowed;
    assert (ops + [op])[..|ops|] == ops;
  }

  lemma {:induction false} OtherCovers(p: Platform, t: Trail, op: Op)
    requires op.OtherAudited?
    ensures Apply(p, t, op).cps == t.cps && Apply(p, t, op).rows == t.rows && Covered(Apply(p, t, op)) == Covered(t)
  {
    hide AuditStore.Apply;
  }

  /** With no row arriving meanwhile, ticks cover exactly the rows they offer to, up to all there are, whatever
      other actions, failures and key changes come between them. */
  lemma {:induction false} CaughtUp(p: Platform, keys: KeySet, ops: seq<Op>, tail: seq<Op>)
    requires Assumptions(p) && LegalRun(p, keys, ops + tail) && forall op :: op in tail ==> !op.AppendEvent?
    ensures LegalRun(p, keys, ops) && Run(p, ops + tail).rows == Run(p, ops).rows
    ensures Covered(Run(p, ops + tail)) ==
            Smaller(Covered(Run(p, ops)) + Offered(p, ops, tail), |Run(p, ops).rows|)
    decreases |tail|
  {
    hide Apply, Covered, LegalRun, Run, Allowed, Inv;
    if tail == [] {
      assert ops + tail == ops;
      RunKeepsInv(p, keys, ops);
      BatchSize(p, keys, Run(p, ops), 1);
    } else {
      var init, op := tail[..|tail| - 1], tail[|tail| - 1];
      assert ops + tail == (ops + init) + [op] && op in tail;
      RunAppend(p, keys, ops + init, op);
      CaughtUp(p, keys, ops, init);
      RunKeepsInv(p, keys, ops + init);
      CoverStep(p, keys, Run(p, ops + init), op);
    }
  }

  lemma {:induction false} CoverStep(p: Platform, keys: KeySet, t: Trail, op: Op)
    requires Assumptions(p) && Inv(p, keys, t) && !op.AppendEvent?
    ensures var t' := Apply(p, t, op);
            && t'.rows == t.rows && Covered(t) <= |t.rows|
            && Covered(t') == if op.WorkerTick? && op.fault == AuditStore.NoFault && t.db.signer.Some?
                              then Smaller(Covered(t) + op.batch, |t.rows|) else Covered(t)
  {
    BatchSize(p, keys, t, 1);
    if op.OtherAudited? {
      OtherCovers(p, t, op);
    } else {
      TickExactly(p, keys, t, op);
      SameCovered(t, Apply(p, t, op));
    }
    hide Apply, Inv, Covered, Tick;
  }

  lemma {:induction false} SameCovered(t: Trail, t': Trail)
    ensures t'.cps == t.cps ==> Covered(t') == Covered(t)
  {
  }

  /** So once ticks that can write have offered to cover the rows left over after the last append, every
      stored row verifies. */
  lemma {:induction false} AllVerified(p: Platform, keys: KeySet, ops: seq<Op>, tail: seq<Op>, r: nat)
    requires Assumptions(p) && LegalRun(p, keys, ops + tail) && forall op :: op in tail ==> !op.AppendEvent?
    requires Covered(Run(p, ops)) + Offered(p, ops, tail) >= |Run(p, ops).rows| && r < |Run(p, ops).rows|
    ensures var t := Run(p, ops + tail);
            r < |t.rows| && VerifyOutcome(p.h, p.scheme, Some(keys), TablesOf(t), t.rows[r].seqNo) == Verified
  {
    hide Covered, LegalRun, Run, Offered, VerifyOutcome, TileAt;
    CaughtUp(p, keys, ops, tail);
    RunKeepsInv(p, keys, ops + tail);
    CoveredVerifies(p, keys, Run(p, ops + tail), r);
  }
}
