/** The checkpoint worker, and what it keeps in every run beside appends and other audited actions.

    Two hypotheses of the design are built into the runs: presence rows become visible in seq order,
    and there is one worker, whose resume point is the largest seq checkpointed so far. */
module PresenceRuns {
  import opened ByteStrings
  import opened Contracts
  import opened HashChain
  import opened Audit
  import opened Merkle
  import opened CheckpointTarget
  import Accounts
  import AuditStore
  import opened Presence

  type Platform = AuditStore.Platform

  // ---------------------------------------------------------------- the worker

  /** The resume point: COALESCE(MAX(to_seq), 0). */
  function LatestSeq(cps: seq<Checkpoint>): int
    decreases |cps|
  {
    if cps == [] then 0
    else if |cps| == 1 then cps[0].toSeq
    else
      var older, last := LatestSeq(cps[..|cps| - 1]), cps[|cps| - 1].toSeq;
      if older > last then older else last
  }

  /** The first `limit` rows with a seq above `after`. */
  function EventsAfter(rows: seq<PresenceEvent>, after: int, limit: nat): (evs: seq<PresenceEvent>)
    ensures |evs| <= limit
    decreases |rows|
  {
    if rows == [] || limit == 0 then []
    else if rows[0].seqNo > after then [rows[0]] + EventsAfter(rows[1..], after, limit - 1)
    else EventsAfter(rows[1..], after, limit)
  }

  datatype Trail = Trail(db: AuditStore.State, rows: seq<PresenceEvent>, cps: seq<Checkpoint>)

  function CheckpointInput(m: Meta): AuditStore.AuditInput {
    AuditStore.AuditInput([], Ascii("system"), Ascii("presence.checkpoint"), Ascii("presence"), EncodeTarget(m), [])
  }

  /** The signed entry and the index row, in one transaction. */
  function WriteCheckpoint(p: Platform, t: Trail, id: Bytes, m: Meta, now: int64, fault: AuditStore.Fault)
    : (Trail, bool)
  {
    var (db, ok) := AuditStore.Apply(p, t.db, AuditStore.Audited(CheckpointInput(m), Accounts.NoMutation, now, fault));
    if !ok then (t.(db := db), false)
    else (t.(db := db, cps := t.cps + [Checkpoint(id, m.fromSeq, m.toSeq, m.count, m.merkleRoot, t.db.nextSeq)]), true)
  }

  function MetaOf(h: HashFn, evs: seq<PresenceEvent>): Meta
    requires 0 < |evs| < 0x8000_0000_0000_0000
  {
    Meta(Root(h, Leaves(evs)), evs[0].seqNo, evs[|evs| - 1].seqNo, |evs|)
  }

  /** The worker's batch cap. */
  type batchsize = n: int64 | n > 0 witness 1

  /** One tick of the worker: the new state, and whether a checkpoint was written. */
  function Tick(p: Platform, t: Trail, batch: batchsize, id: Bytes, now: int64, fault: AuditStore.Fault)
    : (Trail, bool)
  {
    var evs := EventsAfter(t.rows, LatestSeq(t.cps), batch);
    if evs == [] then (t, false) else WriteCheckpoint(p, t, id, MetaOf(p.h, evs), now, fault)
  }

  /** The worker as an object over the store's tables. */
  class Worker {
    const p: Platform
    const batch: batchsize
    var trail: Trail

    constructor (p: Platform, batch: batchsize, trail: Trail)
      ensures this.p == p && this.batch == batch && this.trail == trail
    {
      this.p, this.batch, this.trail := p, batch, trail;
    }

    method Checkpoint(id: Bytes, now: int64, fault: AuditStore.Fault) returns (wrote: bool)
      modifies this`trail
      ensures (trail, wrote) == Tick(p, old(trail), batch, id, now, fault)
    {
      hide LeafBytes, Root, EncodeTarget, AuditStore.Apply;
      var last := LatestSeq(trail.cps);
      var evs := EventsAfter(trail.rows, last, batch);
      if |evs| == 0 {
        return false;
      }
      var leaves, _ := LeavesAndIndex(evs, 0);
      var root := Root(p.h, leaves);
      var from_, to_ := evs[0].seqNo, evs[|evs| - 1].seqNo;
      var r := WriteCheckpoint(p, trail, id, Meta(root, from_, to_, |evs|), now, fault);
      trail := r.0;
      return r.1;
    }
  }

  // ---------------------------------------------------------------- runs

  datatype Op =
    | AppendEvent(event: PresenceEvent)
    | OtherAudited(op: AuditStore.Op)
    | WorkerTick(batch: batchsize, id: Bytes, now: int64, fault: AuditStore.Fault)

  function Apply(p: Platform, t: Trail, op: Op): Trail {
    match op
    case AppendEvent(e) => t.(rows := t.rows + [e])
    case OtherAudited(o) => t.(db := AuditStore.Apply(p, t.db, o).0)
    case WorkerTick(batch, id, now, fault) => Tick(p, t, batch, id, now, fault).0
  }

  const EMPTY: Trail := Trail(AuditStore.EMPTY, [], [])

  /** What may happen next: seqs are positive and arrive in order, keys are known before use, other
      actions' metadata survives storage, and so does the empty object. */
  ghost predicate Allowed(p: Platform, keys: KeySet, t: Trail, op: Op) {
    match op
    case AppendEvent(e) => e.seqNo >= 1 && (t.rows != [] ==> t.rows[|t.rows| - 1].seqNo < e.seqNo)
    case OtherAudited(o) => AuditStore.Proper(p, keys, o)
    case WorkerTick(_, _, _, _) => true
  }

  function Run(p: Platform, ops: seq<Op>): Trail
    decreases |ops|
  {
    if ops == [] then EMPTY else Apply(p, Run(p, ops[..|ops| - 1]), ops[|ops| - 1])
  }

  ghost predicate LegalRun(p: Platform, keys: KeySet, ops: seq<Op>)
    decreases |ops|
  {
    ops == [] ||
    (LegalRun(p, keys, ops[..|ops| - 1]) && Allowed(p, keys, Run(p, ops[..|ops| - 1]), ops[|ops| - 1]))
  }

  ghost predicate Assumptions(p: Platform) {
    && SignaturesVerify(p.scheme)
    && AuditStore.Normalise(p.jsonb, AuditStore.EMPTY_OBJECT) == Some(AuditStore.EMPTY_OBJECT)
  }

  // ---------------------------------------------------------------- the invariant

  /** How many rows the first `i` checkpoints cover. */
  function Start(cps: seq<Checkpoint>, i: nat): int
    requires i <= |cps|
  {
    if i == 0 then 0 else Start(cps, i - 1) + cps[i - 1].leafCount
  }

  function Covered(t: Trail): int { Start(t.cps, |t.cps|) }

  predicate Anchored(log: seq<AuditEntry>, cp: Checkpoint) {
    var e := AuditStore.EntryBySeq(log, cp.auditSeq);
    e.Some? && e.value.targetId == EncodeTarget(Meta(cp.merkleRoot, cp.fromSeq, cp.toSeq, cp.leafCount))
  }

  /** A checkpoint covers exactly the `leafCount` rows from position `j` on, and is signed for. */
  ghost predicate Tile(h: HashFn, rows: seq<PresenceEvent>, log: seq<AuditEntry>, j: int, cp: Checkpoint) {
    && 0 <= j && 1 <= cp.leafCount && j + cp.leafCount <= |rows|
    && cp.fromSeq == rows[j].seqNo && cp.toSeq == rows[j + cp.leafCount - 1].seqNo
    && cp.merkleRoot == Root(h, Leaves(rows[j..j + cp.leafCount]))
    && Anchored(log, cp)
  }

  ghost predicate TileAt(h: HashFn, t: Trail, i: nat)
    requires i < |t.cps|
  {
    Tile(h, t.rows, t.db.log, Start(t.cps, i), t.cps[i])
  }

  ghost predicate Tiled(h: HashFn, t: Trail) {
    forall i :: 0 <= i < |t.cps| ==> TileAt(h, t, i)
  }

  ghost predicate Inv(p: Platform, keys: KeySet, t: Trail) {
    && AuditStore.Inv(p, keys, t.db)
    && InSeqOrder(t.rows) && (forall i :: 0 <= i < |t.rows| ==> t.rows[i].seqNo >= 1)
    && Tiled(p.h, t)
  }

  lemma {:induction false} StartOfPrefix(cps: seq<Checkpoint>, more: seq<Checkpoint>, i: nat)
    requires i <= |cps|
    ensures Start(cps + more, i) == Start(cps, i)
    decreases i
  {
    if i == 0 {
    } else {
      StartOfPrefix(cps, more, i - 1);
    }
  }

  /** Later tiles start where earlier ones end. */
  lemma {:induction false} StartsGrow(h: HashFn, t: Trail, i: nat, j: nat)
    requires Tiled(h, t) && i < j <= |t.cps|
    ensures Start(t.cps, i) + t.cps[i].leafCount <= Start(t.cps, j)
    ensures 0 <= Start(t.cps, j) <= |t.rows|
    decreases j
  {
    hide Root, Anchored, Leaves;
    assert TileAt(h, t, j - 1);
    if i < j - 1 {
      StartsGrow(h, t, i, j - 1);
    }
  }

  lemma {:induction false} CoveredInRange(h: HashFn, t: Trail)
    requires Tiled(h, t)
    ensures 0 <= Covered(t) <= |t.rows|
  {
    if t.cps != [] {
      StartsGrow(h, t, 0, |t.cps|);
    }
  }

  /** Checkpoint ranges are increasing and disjoint. */
  lemma {:induction false} RangesIncrease(p: Platform, keys: KeySet, t: Trail, i: nat, j: nat)
    requires Inv(p, keys, t) && i < j < |t.cps|
    ensures t.cps[i].fromSeq <= t.cps[i].toSeq < t.cps[j].fromSeq <= t.cps[j].toSeq
  {
    hide Root, Anchored, Leaves, Start, AuditStore.Inv;
    StartsGrow(p.h, t, i, j);
    assert TileAt(p.h, t, i);
    assert TileAt(p.h, t, j);
  }

  lemma {:induction false} LatestIsLast(cps: seq<Checkpoint>)
    requires cps != [] && forall i, j :: 0 <= i < j < |cps| ==> cps[i].toSeq < cps[j].toSeq
    ensures LatestSeq(cps) == cps[|cps| - 1].toSeq
    decreases |cps|
  {
    if |cps| == 1 {
    } else {
      LatestIsLast(cps[..|cps| - 1]);
    }
  }

  /** The largest seq checkpointed is that of the last checkpoint. */
  lemma {:induction false} LatestOfTiles(p: Platform, keys: KeySet, t: Trail)
    requires Inv(p, keys, t) && t.cps != []
    ensures LatestSeq(t.cps) == t.cps[|t.cps| - 1].toSeq
  {
    hide Inv, LatestSeq;
    forall i, j | 0 <= i < j < |t.cps|
      ensures t.cps[i].toSeq < t.cps[j].toSeq
    {
      RangesIncrease(p, keys, t, i, j);
    }
    LatestIsLast(t.cps);
  }

  /** It is the seq of the last covered row. */
  lemma {:induction false} LastCovered(p: Platform, keys: KeySet, t: Trail)
    requires Inv(p, keys, t)
    ensures 0 <= Covered(t) <= |t.rows|
    ensures t.cps != [] ==> Covered(t) > 0 && t.cps[|t.cps| - 1].toSeq == t.rows[Covered(t) - 1].seqNo
    ensures t.cps == [] ==> Covered(t) == 0
  {
    hide Root, Anchored, Leaves, AuditStore.Inv, InSeqOrder;
    CoveredInRange(p.h, t);
    if t.cps != [] {
      assert TileAt(p.h, t, |t.cps| - 1);
    }
  }

  /** The resume point is the seq of the last covered row (0 when none is covered). */
  lemma {:induction false} ResumePoint(p: Platform, keys: KeySet, t: Trail)
    requires Inv(p, keys, t)
    ensures 0 <= Covered(t) <= |t.rows|
    ensures LatestSeq(t.cps) == if Covered(t) == 0 then 0 else t.rows[Covered(t) - 1].seqNo
    ensures forall i :: 0 <= i < |t.rows| ==> (i < Covered(t) <==> t.rows[i].seqNo <= LatestSeq(t.cps))
  {
    LastCovered(p, keys, t);
    if t.cps == [] {
    } else {
      LatestOfTiles(p, keys, t);
    }
    hide Tiled, AuditStore.Inv, Start, Covered;
  }

  // ---------------------------------------------------------------- every step keeps it

  /** Where a slice of at most `limit` rows from `k` on ends. */
  function SliceEnd(k: nat, limit: nat, n: nat): (e: nat)
    requires k <= n
    ensures k <= e <= n
  {
    if k + limit < n then k + limit else n
  }

  lemma {:induction false} SkipOld(rows: seq<PresenceEvent>, after: int, limit: nat, k: nat)
    requires k <= |rows| && forall i :: 0 <= i < k ==> rows[i].seqNo <= after
    ensures EventsAfter(rows, after, limit) == EventsAfter(rows[k..], after, limit)
    decreases k
  {
    if k == 0 {
      assert rows[0..] == rows;
    } else {
      SkipOld(rows[1..], after, limit, k - 1);
      assert rows[1..][k - 1..] == rows[k..];
    }
  }

  lemma {:induction false} TakeNew(rows: seq<PresenceEvent>, after: int, limit: nat)
    requires forall i :: 0 <= i < |rows| ==> rows[i].seqNo > after
    ensures EventsAfter(rows, after, limit) == rows[..SliceEnd(0, limit, |rows|)]
    decreases |rows|
  {
    if rows == [] || limit == 0 {
    } else {
      TakeNew(rows[1..], after, limit - 1);
      var e := SliceEnd(0, limit, |rows|);
      assert [rows[0]] + rows[1..][..e - 1] == rows[..e];
    }
  }

  lemma {:induction false} EventsAfterSlice(rows: seq<PresenceEvent>, after: int, limit: nat, k: nat)
    requires k <= |rows|
    requires forall i :: 0 <= i < |rows| ==> (i < k <==> rows[i].seqNo <= after)
    ensures EventsAfter(rows, after, limit) == rows[k..SliceEnd(k, limit, |rows|)]
  {
    hide EventsAfter;
    SkipOld(rows, after, limit, k);
    TakeNew(rows[k..], after, limit);
    var e := SliceEnd(k, limit, |rows|);
    assert rows[k..][..e - k] == rows[k..e];
  }

  lemma {:induction false} AnchorSurvives(log: seq<AuditEntry>, row: AuditEntry, nextSeq: int, cp: Checkpoint)
    requires AuditStore.SeqsIncrease(log, nextSeq) && row.seqNo >= nextSeq && Anchored(log, cp)
    ensures Anchored(log + [row], cp)
  {
    hide EncodeTarget;
    var e := AuditStore.EntryBySeq(log, cp.auditSeq).value;
    var i :| 0 <= i < |log| && log[i] == e;
    assert (log + [row])[..|log|] == log;
  }

  /** Tiles do not mind rows or entries added after them. */
  lemma {:induction false} TilesSurvive(h: HashFn, t: Trail, t': Trail, nextSeq: int)
    requires Tiled(h, t) && t'.cps == t.cps && t.rows <= t'.rows
    requires AuditStore.SeqsIncrease(t.db.log, nextSeq)
    requires t'.db.log == t.db.log ||
             (exists row :: t'.db.log == t.db.log + [row] && row.seqNo >= nextSeq)
    ensures Tiled(h, t')
  {
    hide Root, Anchored, Leaves, Start;
    forall i | 0 <= i < |t'.cps|
      ensures TileAt(h, t', i)
    {
      var j, cp := Start(t.cps, i), t.cps[i];
      assert TileAt(h, t, i);
      assert t'.rows[j..j + cp.leafCount] == t.rows[j..j + cp.leafCount];
      if t'.db.log != t.db.log {
        var row :| t'.db.log == t.db.log + [row] && row.seqNo >= nextSeq;
        AnchorSurvives(t.db.log, row, nextSeq, cp);
      }
    }
  }

  /** An audited action adds at most one entry, with a seq not used before. */
  lemma {:induction false} LogGrows(p: Platform, st: AuditStore.State, op: AuditStore.Op)
    ensures var st' := AuditStore.Apply(p, st, op).0;
            st'.log == st.log || (exists row :: st'.log == st.log + [row] && row.seqNo >= st.nextSeq)
  {
    hide AuditStore.EntryFor;
    var st' := AuditStore.Apply(p, st, op).0;
    if st'.log != st.log {
      var row := st'.log[|st.log|];
      assert st'.log == st.log + [row];
    }
  }

  /** The rows a tick takes up are those right after the covered ones. */
  lemma {:induction false} TickEvents(p: Platform, keys: KeySet, t: Trail, batch: batchsize)
    requires Inv(p, keys, t)
    ensures var evs := EventsAfter(t.rows, LatestSeq(t.cps), batch);
            0 <= Covered(t) && Covered(t) + |evs| <= |t.rows| && evs == t.rows[Covered(t)..Covered(t) + |evs|]
  {
    hide AuditStore.Inv, Tiled, EventsAfter, LatestSeq, Start;
    ResumePoint(p, keys, t);
    EventsAfterSlice(t.rows, LatestSeq(t.cps), batch, Covered(t));
  }

  /** The entry a committed checkpoint write leaves behind is found again by its seq. */
  lemma {:induction false} WriteAnchors(p: Platform, t: Trail, id: Bytes, m: Meta, now: int64, fault: AuditStore.Fault)
    requires WriteCheckpoint(p, t, id, m, now, fault).1
    ensures var t' := WriteCheckpoint(p, t, id, m, now, fault).0;
            && |t'.cps| == |t.cps| + 1 && t'.cps[..|t.cps|] == t.cps && t'.rows == t.rows
            && var cp := t'.cps[|t.cps|];
               Meta(cp.merkleRoot, cp.fromSeq, cp.toSeq, cp.leafCount) == m && Anchored(t'.db.log, cp)
  {
    hide EncodeTarget, AuditPayload;
    var t' := WriteCheckpoint(p, t, id, m, now, fault).0;
    var row := t'.db.log[|t.db.log|];
    assert t'.db.log == t.db.log + [row] && row.seqNo == t.db.nextSeq && row.targetId == EncodeTarget(m);
  }

  lemma {:induction false} TileOfSlice(
      h: HashFn, rows: seq<PresenceEvent>, log: seq<AuditEntry>, j: nat, evs: seq<PresenceEvent>, cp: Checkpoint)
    requires 0 < |evs| < 0x8000_0000_0000_0000 && j + |evs| <= |rows| && evs == rows[j..j + |evs|]
    ensures Meta(cp.merkleRoot, cp.fromSeq, cp.toSeq, cp.leafCount) == MetaOf(h, evs) && Anchored(log, cp) ==>
              Tile(h, rows, log, j, cp)
  {
    hide Root, Leaves, Anchored;
    assert evs[0] == rows[j] && evs[|evs| - 1] == rows[j + |evs| - 1];
  }

  /** The tile a tick adds. */
  lemma {:induction false} TickTile(p: Platform, keys: KeySet, t: Trail, op: Op)
    requires Inv(p, keys, t) && op.WorkerTick? && Tick(p, t, op.batch, op.id, op.now, op.fault).1
    ensures var t' := Apply(p, t, op);
            && |t'.cps| == |t.cps| + 1 && t'.cps[..|t.cps|] == t.cps && t'.rows == t.rows
            && Tile(p.h, t'.rows, t'.db.log, Covered(t), t'.cps[|t.cps|])
  {
    hide Tile, MetaOf, Anchored, Inv, EventsAfter, LatestSeq, Covered, WriteCheckpoint;
    var evs, t' := EventsAfter(t.rows, LatestSeq(t.cps), op.batch), Apply(p, t, op);
    TickEvents(p, keys, t, op.batch);
    WriteAnchors(p, t, op.id, MetaOf(p.h, evs), op.now, op.fault);
    TileOfSlice(p.h, t.rows, t'.db.log, Covered(t), evs, t'.cps[|t.cps|]);
  }

  lemma {:induction false} StepKeepsInv(p: Platform, keys: KeySet, t: Trail, op: Op)
    requires Assumptions(p) && Inv(p, keys, t) && Allowed(p, keys, t, op)
    ensures Inv(p, keys, Apply(p, t, op))
  {
    hide Root, AuditStore.Apply, AuditStore.Inv, EncodeTarget, Anchored;
    var t' := Apply(p, t, op);
    assert AuditStore.SeqsIncrease(t.db.log, t.db.nextSeq) by { SeqsOf(p, keys, t.db); }
    match op
    case AppendEvent(e) =>
      TilesSurvive(p.h, t, t', t.db.nextSeq);
    case OtherAudited(o) =>
      AuditStore.StepKeepsInv(p, keys, t.db, o);
      LogGrows(p, t.db, o);
      TilesSurvive(p.h, t, t', t.db.nextSeq);
    case WorkerTick(batch, id, now, fault) =>
      TickKeepsInv(p, keys, t, op);
  }

  lemma {:induction false} SeqsOf(p: Platform, keys: KeySet, st: AuditStore.State)
    requires AuditStore.Inv(p, keys, st)
    ensures AuditStore.SeqsIncrease(st.log, st.nextSeq)
  {
  }

  /** One more tile, starting where the covered rows end. */
  lemma {:induction false} TilesExtend(h: HashFn, t: Trail, t': Trail)
    requires Tiled(h, t'.(cps := t.cps)) && |t'.cps| == |t.cps| + 1 && t'.cps[..|t.cps|] == t.cps
    requires Tile(h, t'.rows, t'.db.log, Covered(t), t'.cps[|t.cps|])
    ensures Tiled(h, t')
  {
    hide Tile, Start;
    assert t'.cps == t.cps + t'.cps[|t.cps|..];
    forall i | 0 <= i < |t'.cps|
      ensures TileAt(h, t', i)
    {
      StartOfPrefix(t.cps, t'.cps[|t.cps|..], i);
      assert i < |t.cps| ==> TileAt(h, t'.(cps := t.cps), i);
    }
  }

  lemma {:induction false} TickKeepsInv(p: Platform, keys: KeySet, t: Trail, op: Op)
    requires Assumptions(p) && Inv(p, keys, t) && op.WorkerTick?
    ensures Inv(p, keys, Apply(p, t, op))
  {
    hide MetaOf, AuditStore.Apply, AuditStore.Inv, AuditStore.SeqsIncrease, EventsAfter, LatestSeq;
    hide Tile, TileAt, Covered;
    var t' := Apply(p, t, op);
    var evs := EventsAfter(t.rows, LatestSeq(t.cps), op.batch);
    if evs != [] {
      var o := AuditStore.Audited(CheckpointInput(MetaOf(p.h, evs)), Accounts.NoMutation, op.now, op.fault);
      AuditStore.StepKeepsInv(p, keys, t.db, o);
      LogGrows(p, t.db, o);
      SeqsOf(p, keys, t.db);
      hide Tiled;
      TilesSurvive(p.h, t, t'.(cps := t.cps), t.db.nextSeq);
      if Tick(p, t, op.batch, op.id, op.now, op.fault).1 {
        TickTile(p, keys, t, op);
        TilesExtend(p.h, t, t');
      } else {
        assert t'.(cps := t.cps) == t';
      }
    }
  }

  lemma {:induction false} RunKeepsInv(p: Platform, keys: KeySet, ops: seq<Op>)
    requires Assumptions(p) && LegalRun(p, keys, ops)
    ensures Inv(p, keys, Run(p, ops))
    decreases |ops|
  {
    hide Apply;
    if ops == [] {
    } else {
      var init := ops[..|ops| - 1];
      RunKeepsInv(p, keys, init);
      StepKeepsInv(p, keys, Run(p, init), ops[|ops| - 1]);
    }
  }

  // ---------------------------------------------------------------- what every run gives

  lemma {:induction false} RangeAppend(rows: seq<PresenceEvent>, e: PresenceEvent, lo: int, hi: int)
    ensures EventsInRange(rows + [e], lo, hi) ==
            if lo <= e.seqNo <= hi then EventsInRange(rows, lo, hi) + [e] else EventsInRange(rows, lo, hi)
  {
    assert (rows + [e])[..|rows|] == rows;
    assert EventsInRange(rows, lo, hi) + [] == EventsInRange(rows, lo, hi);
  }

  lemma {:induction false} RangeConcat(a: seq<PresenceEvent>, b: seq<PresenceEvent>, lo: int, hi: int)
    ensures EventsInRange(a + b, lo, hi) == EventsInRange(a, lo, hi) + EventsInRange(b, lo, hi)
    decreases |b|
  {
    if b == [] {
      assert a + b == a;
    } else {
      hide EventsInRange;
      var init, e := b[..|b| - 1], b[|b| - 1];
      assert b == init + [e] && a + b == (a + init) + [e];
      RangeConcat(a, init, lo, hi);
      RangeAppend(init, e, lo, hi);
      RangeAppend(a + init, e, lo, hi);
    }
  }

  lemma {:induction false} RangeNone(rows: seq<PresenceEvent>, lo: int, hi: int)
    requires forall i :: 0 <= i < |rows| ==> !(lo <= rows[i].seqNo <= hi)
    ensures EventsInRange(rows, lo, hi) == []
    decreases |rows|
  {
    if rows == [] {
    } else {
      hide EventsInRange;
      var init, e := rows[..|rows| - 1], rows[|rows| - 1];
      assert rows == init + [e];
      RangeNone(init, lo, hi);
      RangeAppend(init, e, lo, hi);
    }
  }

  lemma {:induction false} RangeAll(rows: seq<PresenceEvent>, lo: int, hi: int)
    requires forall i :: 0 <= i < |rows| ==> lo <= rows[i].seqNo <= hi
    ensures EventsInRange(rows, lo, hi) == rows
    decreases |rows|
  {
    if rows == [] {
    } else {
      hide EventsInRange;
      var init, e := rows[..|rows| - 1], rows[|rows| - 1];
      assert rows == init + [e];
      RangeAll(init, lo, hi);
      RangeAppend(init, e, lo, hi);
    }
  }

  /** A table cut at positions `j` and `k` by the seqs `lo` and `hi`. */
  lemma {:induction false} RangeSlice(rows: seq<PresenceEvent>, lo: int, hi: int, j: nat, k: nat)
    requires j <= k <= |rows|
    requires forall i :: 0 <= i < |rows| ==> (j <= i < k <==> lo <= rows[i].seqNo <= hi)
    ensures EventsInRange(rows, lo, hi) == rows[j..k]
  {
    hide EventsInRange;
    var before, within, after := rows[..j], rows[j..k], rows[k..];
    assert rows == before + (within + after);
    RangeConcat(before, within + after, lo, hi);
    RangeConcat(within, after, lo, hi);
    RangeNone(before, lo, hi);
    RangeAll(within, lo, hi);
    RangeNone(after, lo, hi);
  }

  lemma {:induction false} CoveringUnique(cps: seq<Checkpoint>, seqNo: int, i: nat)
    requires i < |cps|
    requires forall j :: 0 <= j < |cps| ==> (j == i <==> cps[j].fromSeq <= seqNo <= cps[j].toSeq)
    ensures Covering(cps, seqNo) == Some(cps[i])
    decreases |cps|
  {
    var init := cps[..|cps| - 1];
    if i < |cps| - 1 {
      CoveringUnique(init, seqNo, i);
    } else {
      CoveringNone(init, seqNo);
    }
  }

  lemma {:induction false} CoveringNone(cps: seq<Checkpoint>, seqNo: int)
    requires forall j :: 0 <= j < |cps| ==> !(cps[j].fromSeq <= seqNo <= cps[j].toSeq)
    ensures Covering(cps, seqNo).None?
    decreases |cps|
  {
    if cps == [] {
    } else {
      CoveringNone(cps[..|cps| - 1], seqNo);
    }
  }

  /** The tile a covered row lies in. */
  lemma {:induction false} FindTile(h: HashFn, t: Trail, r: nat, n: nat) returns (i: nat)
    requires Tiled(h, t) && n <= |t.cps| && r < Start(t.cps, n)
    ensures i < n && Start(t.cps, i) <= r < Start(t.cps, i) + t.cps[i].leafCount
    decreases n
  {
    hide Root, Anchored, Leaves;
    if r < Start(t.cps, n - 1) {
      i := FindTile(h, t, r, n - 1);
    } else {
      i := n - 1;
    }
  }

  /** Within a tile the seqs lie in its range; outside it they do not. */
  lemma {:induction false} TileRange(p: Platform, keys: KeySet, t: Trail, i: nat, r: nat)
    requires Inv(p, keys, t) && i < |t.cps| && r < |t.rows|
    ensures var cp, j := t.cps[i], Start(t.cps, i);
            j <= r < j + cp.leafCount <==> cp.fromSeq <= t.rows[r].seqNo <= cp.toSeq
  {
    hide Root, Anchored, Leaves, AuditStore.Inv, Start;
    assert TileAt(p.h, t, i);
  }

  /** No other tile contains a row of tile `i`. */
  lemma {:induction false} TileOnly(p: Platform, keys: KeySet, t: Trail, i: nat, r: nat)
    requires Inv(p, keys, t) && i < |t.cps| && r < |t.rows|
    requires Start(t.cps, i) <= r < Start(t.cps, i) + t.cps[i].leafCount
    ensures Covering(t.cps, t.rows[r].seqNo) == Some(t.cps[i])
  {
    hide Covering, Start, AuditStore.Inv, Tiled;
    forall j | 0 <= j < |t.cps|
      ensures j == i <==> t.cps[j].fromSeq <= t.rows[r].seqNo <= t.cps[j].toSeq
    {
      TileRange(p, keys, t, j, r);
      if j < i {
        StartsGrow(p.h, t, j, i);
      } else if i < j {
        StartsGrow(p.h, t, i, j);
      }
    }
    CoveringUnique(t.cps, t.rows[r].seqNo, i);
  }

  lemma {:induction false} AnchorVerifies(p: Platform, keys: KeySet, t: Trail, i: nat)
    requires Inv(p, keys, t) && i < |t.cps|
    ensures CheckAnchor(p.h, p.scheme, keys, t.db.log, t.cps[i]) == Verified
  {
    hide EncodeTarget, ParseTarget, Root, Leaves, Start, AuditPayload;
    assert TileAt(p.h, t, i);
    var cp := t.cps[i];
    var e := AuditStore.EntryBySeq(t.db.log, cp.auditSeq).value;
    var rules := AuditRules(p.h, p.scheme, keys);
    AcceptanceMeans(rules, t.db.log);
    var n :| 0 <= n < |t.db.log| && t.db.log[n] == e;
    assert rules.check(t.db.log[n]).None?;
    TargetRoundTrip(Meta(cp.merkleRoot, cp.fromSeq, cp.toSeq, cp.leafCount));
  }

  function TablesOf(t: Trail): Tables { Tables(t.rows, t.cps, t.db.log) }

  lemma {:induction false} VerifiedWhen(
      h: HashFn, s: Scheme, keys: KeySet, t: Tables, seqNo: int, cp: Checkpoint, rows: seq<PresenceEvent>, i: nat)
    requires i < |rows| && rows[i].seqNo == seqNo
    ensures && Covering(t.cps, seqNo) == Some(cp) && EventsInRange(t.rows, cp.fromSeq, cp.toSeq) == rows
            && Root(h, Leaves(rows)) == cp.merkleRoot && CheckAnchor(h, s, keys, t.log, cp) == Verified ==>
              VerifyOutcome(h, s, Some(keys), t, seqNo) == Verified
  {
    hide Root, Leaves, Covering, CheckAnchor, EventsInRange, IndexOfSeq;
  }

  lemma {:induction false} CoveredVerifies(p: Platform, keys: KeySet, t: Trail, r: nat)
    requires Inv(p, keys, t) && Tiled(p.h, t) && r < Covered(t)
    ensures r < |t.rows| && VerifyOutcome(p.h, p.scheme, Some(keys), TablesOf(t), t.rows[r].seqNo) == Verified
  {
    hide Root, Leaves, Covering, CheckAnchor, EventsInRange, Start, Inv, TileAt, VerifyOutcome, Tiled;
    CoveredInRange(p.h, t);
    var i := FindTile(p.h, t, r, |t.cps|);
    TileOnly(p, keys, t, i, r);
    RowsOfTile(p, keys, t, i);
    AnchorVerifies(p, keys, t, i);
    var cp, j := t.cps[i], Start(t.cps, i);
    VerifiedWhen(p.h, p.scheme, keys, TablesOf(t), t.rows[r].seqNo, cp, t.rows[j..j + cp.leafCount], r - j);
  }

  /** The rows in a checkpoint's range are its tile, and hash to its root. */
  lemma {:induction false} RowsOfTile(p: Platform, keys: KeySet, t: Trail, i: nat)
    requires Inv(p, keys, t) && i < |t.cps|
    ensures var cp, j := t.cps[i], Start(t.cps, i);
            && 0 <= j && j + cp.leafCount <= |t.rows| && cp.leafCount >= 0
            && EventsInRange(t.rows, cp.fromSeq, cp.toSeq) == t.rows[j..j + cp.leafCount]
            && Root(p.h, Leaves(t.rows[j..j + cp.leafCount])) == cp.merkleRoot
  {
    hide Root, Leaves, EventsInRange, Start, AuditStore.Inv, Anchored;
    assert TileAt(p.h, t, i);
    var cp, j := t.cps[i], Start(t.cps, i);
    var k := j + cp.leafCount;
    forall q | 0 <= q < |t.rows|
      ensures j <= q < k <==> cp.fromSeq <= t.rows[q].seqNo <= cp.toSeq
    {
      TileRange(p, keys, t, i, q);
    }
    RangeSlice(t.rows, cp.fromSeq, cp.toSeq, j, k);
  }

  lemma {:induction false} LaterNotCovered(p: Platform, keys: KeySet, t: Trail, r: nat)
    requires Inv(p, keys, t) && Covered(t) <= r < |t.rows|
    ensures VerifyOutcome(p.h, p.scheme, Some(keys), TablesOf(t), t.rows[r].seqNo) == NotCheckpointed
  {
    hide Covering, AuditStore.Inv, Start, Tiled;
    forall j | 0 <= j < |t.cps|
      ensures !(t.cps[j].fromSeq <= t.rows[r].seqNo <= t.cps[j].toSeq)
    {
      TileRange(p, keys, t, j, r);
      StartsGrow(p.h, t, j, |t.cps|);
    }
    CoveringNone(t.cps, t.rows[r].seqNo);
  }

  /** In the state any run leaves, with ticks of any batch size: checkpoint ranges are increasing and
      disjoint, they hold exactly the rows up to the resume point, each of those rows verifies, and
      each later row is reported as not yet checkpointed. */
  lemma {:induction false} EveryRunVerifies(p: Platform, keys: KeySet, ops: seq<Op>)
    requires Assumptions(p) && LegalRun(p, keys, ops)
    ensures var t := Run(p, ops);
            && (forall i, j :: 0 <= i < j < |t.cps| ==>
                  t.cps[i].fromSeq <= t.cps[i].toSeq < t.cps[j].fromSeq <= t.cps[j].toSeq)
            && (forall r :: 0 <= r < |t.rows| ==>
                  VerifyOutcome(p.h, p.scheme, Some(keys), TablesOf(t), t.rows[r].seqNo) ==
                  if t.rows[r].seqNo <= LatestSeq(t.cps) then Verified else NotCheckpointed)
  {
    hide VerifyOutcome, LatestSeq, Run, AuditStore.Inv, TileAt;
    var t := Run(p, ops);
    RunKeepsInv(p, keys, ops);
    forall i, j | 0 <= i < j < |t.cps|
      ensures t.cps[i].fromSeq <= t.cps[i].toSeq < t.cps[j].fromSeq <= t.cps[j].toSeq
    {
      RangesIncrease(p, keys, t, i, j);
    }
    ResumePoint(p, keys, t);
    forall r | 0 <= r < |t.rows|
      ensures VerifyOutcome(p.h, p.scheme, Some(keys), TablesOf(t), t.rows[r].seqNo) ==
              if t.rows[r].seqNo <= LatestSeq(t.cps) then Verified else NotCheckpointed
    {
      if r < Covered(t) {
        CoveredVerifies(p, keys, t, r);
      } else {
        LaterNotCovered(p, keys, t, r);
      }
    }
  }
}
