/** What the presence queries return, and which outcome the verifier reports when. */
module PresenceOutcomes {
  import opened ByteStrings
  import opened Contracts
  import opened HashChain
  import opened Audit
  import opened Merkle
  import opened CheckpointTarget
  import opened AuditStore
  import opened Presence
  import PresenceRuns

  // ---------------------------------------------------------------- queries

  predicate Contains(cp: Checkpoint, seqNo: int) { cp.fromSeq <= seqNo <= cp.toSeq }

  /** A checkpoint whose range contains the seq, with the largest end of any; none only if there is none. */
  lemma {:induction false} CoveringExactly(cps: seq<Checkpoint>, seqNo: int)
    ensures var found := Covering(cps, seqNo);
            if found.None? then forall cp :: cp in cps ==> !Contains(cp, seqNo)
            else && found.value in cps && Contains(found.value, seqNo)
                 && forall cp :: cp in cps && Contains(cp, seqNo) ==> cp.toSeq <= found.value.toSeq
    decreases |cps|
  {
    if cps == [] {
    } else {
      var init, last := cps[..|cps| - 1], cps[|cps| - 1];
      CoveringExactly(init, seqNo);
      assert forall cp :: cp in cps <==> cp in init || cp == last;
    }
  }

  /** Exactly the rows of the table in the range. */
  lemma {:induction false} RangeExactly(rows: seq<PresenceEvent>, lo: int, hi: int, e: PresenceEvent)
    ensures e in EventsInRange(rows, lo, hi) <==> e in rows && lo <= e.seqNo <= hi
    decreases |rows|
  {
    if rows == [] {
    } else {
      var init, last := rows[..|rows| - 1], rows[|rows| - 1];
      RangeExactly(init, lo, hi, e);
      assert rows == init + [last];
      PresenceRuns.RangeAppend(init, last, lo, hi);
    }
  }

  /** The largest end of any checkpoint, 0 when there is none. */
  lemma {:induction false} LatestExactly(cps: seq<Checkpoint>)
    ensures var last := PresenceRuns.LatestSeq(cps);
            if cps == [] then last == 0
            else (exists cp :: cp in cps && cp.toSeq == last) && forall cp :: cp in cps ==> cp.toSeq <= last
    decreases |cps|
  {
    if |cps| <= 1 {
      assert cps != [] ==> cps[0] in cps;
    } else {
      var init, last := cps[..|cps| - 1], cps[|cps| - 1];
      LatestExactly(init);
      assert forall cp :: cp in cps <==> cp in init || cp == last;
    }
  }

  ghost predicate HasEntry(log: seq<AuditEntry>, seqNo: int) {
    exists e :: e in log && e.seqNo == seqNo
  }

  lemma {:induction false} EntryExactly(log: seq<AuditEntry>, seqNo: int)
    ensures EntryBySeq(log, seqNo).Some? <==> HasEntry(log, seqNo)
    decreases |log|
  {
    if log == [] {
    } else {
      var init, last := log[..|log| - 1], log[|log| - 1];
      EntryExactly(init, seqNo);
      assert forall e :: e in log <==> e in init || e == last;
    }
  }

  ghost predicate HasRow(rows: seq<PresenceEvent>, seqNo: int) {
    exists e :: e in rows && e.seqNo == seqNo
  }

  /** A row with the seq is in a range that contains it exactly when the table has one. */
  lemma {:induction false} RowExactly(rows: seq<PresenceEvent>, lo: int, hi: int, seqNo: int)
    requires lo <= seqNo <= hi
    ensures IndexOfSeq(EventsInRange(rows, lo, hi), seqNo) >= 0 <==> HasRow(rows, seqNo)
  {
    var range := EventsInRange(rows, lo, hi);
    var i := IndexOfSeq(range, seqNo);
    hide EventsInRange, IndexOfSeq;
    if i >= 0 {
      RangeExactly(rows, lo, hi, range[i]);
    }
    if HasRow(rows, seqNo) {
      var e :| e in rows && e.seqNo == seqNo;
      RangeExactly(rows, lo, hi, e);
      var k :| 0 <= k < |range| && range[k] == e;
    }
  }

  // ---------------------------------------------------------------- the verifier

  /** Without keys nothing is looked at; without a checkpoint over the seq nothing else is. */
  lemma {:induction false} UncoveredExactly(h: HashFn, s: Scheme, keys: Option<KeySet>, t: Tables, seqNo: int)
    ensures var r := VerifyOutcome(h, s, keys, t, seqNo);
            && (r == NoVerifier <==> keys.None?)
            && (r == NotCheckpointed <==> keys.Some? && forall cp :: cp in t.cps ==> !Contains(cp, seqNo))
  {
    CoveringExactly(t.cps, seqNo);
    hide Covering, EventsInRange, IndexOfSeq, Root, Leaves, VerifyEntry, ParseTarget, EntryBySeq;
  }

  /** With a checkpoint: the event must be stored, the rows in range must hash to its root, its entry must
      exist and pass on its own, and the entry's target must carry that root; the first of these to fail is
      what is reported. */
  lemma {:induction false} CoveredExactly(h: HashFn, s: Scheme, keys: KeySet, t: Tables, seqNo: int)
    requires exists cp :: cp in t.cps && Contains(cp, seqNo)
    ensures Covering(t.cps, seqNo).Some?
    ensures var r, cp := VerifyOutcome(h, s, Some(keys), t, seqNo), Covering(t.cps, seqNo).value;
            var intact := Root(h, Leaves(EventsInRange(t.rows, cp.fromSeq, cp.toSeq))) == cp.merkleRoot;
            && (r == EventNotFound <==> !HasRow(t.rows, seqNo))
            && (r == RangeTampered <==> HasRow(t.rows, seqNo) && !intact)
            && (r == EntryMissing <==> HasRow(t.rows, seqNo) && intact && !HasEntry(t.log, cp.auditSeq))
            && (HasRow(t.rows, seqNo) && intact && HasEntry(t.log, cp.auditSeq) ==>
                  && EntryBySeq(t.log, cp.auditSeq).Some?
                  && var e := EntryBySeq(t.log, cp.auditSeq).value;
                     EntryOutcome(h, s, keys, e, cp.merkleRoot, r))
  {
    CoveringExactly(t.cps, seqNo);
    var cp := Covering(t.cps, seqNo).value;
    RowExactly(t.rows, cp.fromSeq, cp.toSeq, seqNo);
    AnchorOutcome(h, s, keys, t.log, cp);
    hide Covering, EventsInRange, IndexOfSeq, Root, Leaves, CheckAnchor, EntryBySeq, HasRow, HasEntry, EntryOutcome;
  }

  lemma {:induction false} AnchorOutcome(h: HashFn, s: Scheme, keys: KeySet, log: seq<AuditEntry>, cp: Checkpoint)
    ensures var r := CheckAnchor(h, s, keys, log, cp);
            && (r == EntryMissing <==> !HasEntry(log, cp.auditSeq)) && r != EventNotFound && r != RangeTampered
            && (HasEntry(log, cp.auditSeq) ==>
                  && EntryBySeq(log, cp.auditSeq).Some?
                  && EntryOutcome(h, s, keys, EntryBySeq(log, cp.auditSeq).value, cp.merkleRoot, r))
  {
    EntryExactly(log, cp.auditSeq);
    hide EntryBySeq, HasEntry, VerifyEntry, ParseTarget;
  }

  /** What is reported once the rows are in order, by what the entry is. */
  ghost predicate EntryOutcome(h: HashFn, s: Scheme, keys: KeySet, e: AuditEntry, root: Bytes, r: Outcome) {
    var err, target := VerifyEntry(h, s, keys, e), ParseTarget(e.targetId);
    && (r.BadEntry? <==> err.Some?) && (r.BadEntry? ==> Some(r.entryError) == err)
    && (r.BadTarget? <==> err.None? && target.Rejected?) && (r.BadTarget? ==> r.targetError == target.error)
    && (r == SignedRootDiffers <==> err.None? && target.Parsed? && target.meta.merkleRoot != root)
    && (r == Verified <==> err.None? && target.Parsed? && target.meta.merkleRoot == root)
  }
}
