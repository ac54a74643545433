/** What each operation on refresh tokens answers and changes, row by row, and how long a token lives. */
module RefreshOutcomes {
  import opened ByteStrings
  import opened RefreshTokens

  // ---------------------------------------------------------------- one operation

  lemma {:induction false} RowOfHash(rows: Table, i: nat)
    requires Unique(rows) && i < |rows|
    ensures IndexOfHash(rows, rows[i].hash) == i
  {
    var k := IndexOfHash(rows, rows[i].hash);
    assert rows[k].hash == rows[i].hash;
  }

  /** A replaced token is revoked, so `revoked` alone tells a spent one. */
  lemma {:induction false} ReplacedIsRevoked(rows: Table, i: nat)
    requires Inv(rows) && i < |rows| && rows[i].replacedBy.Some?
    ensures rows[i].revoked
  {
    hide Family;
    assert PathAt(rows, rows[i].familyId);
    FamilyMembers(rows, rows[i].familyId, rows[i]);
    var k :| 0 <= k < |Family(rows, rows[i].familyId)| && Family(rows, rows[i].familyId)[k] == rows[i];
  }

  /** Row `i` is the one presented: what decides between the answers. A token rotates if and only if it is
      live, `now` is before its expiry and its successor can be inserted. */
  lemma {:induction false} RotateExactly(rows: Table, i: nat, next: NewToken, now: int)
    requires Inv(rows) && i < |rows|
    ensures var t, outcome := rows[i], DoRotate(rows, rows[i].hash, next, now).1;
            && (outcome == Reuse(t.familyId) <==> t.revoked)
            && (outcome == Expired <==> !t.revoked && t.expiresAt <= now)
            && (outcome == NotInserted <==> !t.revoked && now < t.expiresAt && !Insertable(rows, next))
            && (outcome == Rotated(t.userId, t.familyId) <==> !t.revoked && now < t.expiresAt && Insertable(rows, next))
  {
    RowOfHash(rows, i);
    if rows[i].replacedBy.Some? {
      ReplacedIsRevoked(rows, i);
    }
    hide Inv, Insertable, Exec, IndexOfHash;
  }

  lemma {:induction false} UnknownNotFound(rows: Table, presented: Bytes, next: NewToken, now: int)
    ensures DoRotate(rows, presented, next, now).1 == NotFound <==>
              forall i :: 0 <= i < |rows| ==> rows[i].hash != presented
    ensures DoRevokeFamily(rows, presented).1 == NotFound <==>
              forall i :: 0 <= i < |rows| ==> rows[i].hash != presented
  {
    hide Exec, Insertable;
    var k := IndexOfHash(rows, presented);
    assert k >= 0 ==> rows[k].hash == presented;
  }

  /** What a rotation writes: the successor, live, with the expiry and the owner it should have, and the
      link from the one token presented. Reuse revokes that family and no other row; nothing else
      writes at all. */
  lemma {:induction false} RotateWrites(rows: Table, i: nat, next: NewToken, now: int)
    requires Inv(rows) && i < |rows|
    ensures var t, n, (rows', outcome) := rows[i], |rows|, DoRotate(rows, rows[i].hash, next, now);
            match outcome
            case Rotated(_, _) =>
              && |rows'| == n + 1
              && rows'[n] == Token(next.id, t.userId, t.familyId, next.hash, next.expiresAt, false, None)
              && forall k :: 0 <= k < n ==>
                   rows'[k] == if k == i then t.(revoked := true, replacedBy := Some(next.id)) else rows[k]
            case Reuse(_) =>
              && |rows'| == n
              && forall k :: 0 <= k < n ==>
                   rows'[k] == if rows[k].familyId == t.familyId then rows[k].(revoked := true) else rows[k]
            case _ => rows' == rows
  {
    RowOfHash(rows, i);
    hide IndexOfHash, Exec;
    var t := rows[i];
    if Insertable(rows, next) {
      assert forall k :: 0 <= k < |rows| && k != i ==> rows[k].id != t.id && t.id != next.id;
    }
  }

  lemma {:induction false} IssueWrites(rows: Table, userId: Bytes, tok: NewToken)
    ensures var (rows', outcome) := DoIssue(rows, userId, tok);
            && (outcome == Issued <==> forall i :: 0 <= i < |rows| ==> rows[i].id != tok.id && rows[i].hash != tok.hash)
            && rows' == if outcome == Issued
                        then rows + [Token(tok.id, userId, tok.id, tok.hash, tok.expiresAt, false, None)] else rows
  {
  }

  // ---------------------------------------------------------------- what revokes a token

  /** The operation ends this token: it is presented and rotated, or its family or its user is revoked. */
  ghost predicate Revokes(rows: Table, op: Op, t: Token) {
    match op
    case Issue(_, _) => false
    case Rotate(presented, _, _) =>
      var outcome := Apply(rows, op).1;
      (outcome.Rotated? && presented == t.hash) || outcome == Reuse(t.familyId)
    case RevokeFamilyOf(presented) =>
      exists i :: 0 <= i < |rows| && rows[i].hash == presented && rows[i].familyId == t.familyId
    case RevokeAllOf(userId) => userId == t.userId
  }

  /** A row is revoked after a step if and only if it was before or the step ends it. */
  lemma {:induction false} RevokedExactly(rows: Table, op: Op, k: nat)
    requires Inv(rows) && k < |rows|
    ensures var rows' := Apply(rows, op).0;
            && |rows'| >= |rows| && rows'[k].expiresAt == rows[k].expiresAt
            && (rows'[k].revoked <==> rows[k].revoked || Revokes(rows, op, rows[k]))
  {
    match op
    case Issue(_, _) =>
    case Rotate(presented, next, now) => RotateRevokes(rows, presented, next, now, k);
    case RevokeFamilyOf(presented) => FamilyRevokes(rows, presented, k);
    case RevokeAllOf(_) =>
  }

  lemma {:induction false} RotateRevokes(rows: Table, presented: Bytes, next: NewToken, now: int, k: nat)
    requires Inv(rows) && k < |rows|
    ensures var (rows', outcome) := DoRotate(rows, presented, next, now);
            && |rows'| >= |rows| && rows'[k].expiresAt == rows[k].expiresAt
            && (rows'[k].revoked <==>
                  || rows[k].revoked || (outcome.Rotated? && presented == rows[k].hash)
                  || outcome == Reuse(rows[k].familyId))
  {
    var i := IndexOfHash(rows, presented);
    if i >= 0 {
      RotateWrites(rows, i, next, now);
      RotateExactly(rows, i, next, now);
      hide DoRotate, PathAt, Insertable;
    }
  }

  lemma {:induction false} FamilyRevokes(rows: Table, presented: Bytes, k: nat)
    requires Inv(rows) && k < |rows|
    ensures var rows' := DoRevokeFamily(rows, presented).0;
            && |rows'| == |rows| && rows'[k].expiresAt == rows[k].expiresAt
            && (rows'[k].revoked <==>
                  || rows[k].revoked
                  || exists i :: 0 <= i < |rows| && rows[i].hash == presented && rows[i].familyId == rows[k].familyId)
  {
    hide PathAt;
    var i := IndexOfHash(rows, presented);
    if i >= 0 {
      forall j | 0 <= j < |rows| && rows[j].hash == presented
        ensures j == i
      {
      }
    }
  }

  ghost predicate RevokedIn(rows: Table, ops: seq<Op>, k: nat)
    requires k < |rows|
    decreases |ops|
  {
    ops != [] &&
    var init, op := ops[..|ops| - 1], ops[|ops| - 1];
    RevokedIn(rows, init, k) || Revokes(Run(rows, init), op, rows[k])
  }

  lemma {:induction false} RevokedInRun(rows: Table, ops: seq<Op>, k: nat)
    requires Inv(rows) && k < |rows|
    ensures var later := Run(rows, ops);
            && |later| >= |rows| && later[k].hash == rows[k].hash && later[k].expiresAt == rows[k].expiresAt
            && (later[k].revoked <==> rows[k].revoked || RevokedIn(rows, ops, k))
    decreases |ops|
  {
    hide Apply, Inv;
    if ops == [] {
    } else {
      var init, op := ops[..|ops| - 1], ops[|ops| - 1];
      RevokedInRun(rows, init, k);
      RunKeepsInv(rows, init);
      RunGrows(rows, init);
      RunGrows(rows, ops);
      RevokedExactly(Run(rows, init), op, k);
      SameOwner(rows, Run(rows, init), op, k);
    }
  }

  /** Only the hash, the family and the user of a token matter to what ends it, and those do not change. */
  lemma {:induction false} SameOwner(rows: Table, later: Table, op: Op, k: nat)
    requires Grows(rows, later) && k < |rows|
    ensures Revokes(later, op, rows[k]) == Revokes(later, op, later[k])
  {
    hide Apply;
  }

  // ---------------------------------------------------------------- how long a token lives

  /** Step `i` of the run hands out this token. */
  ghost predicate HandsOut(ops: seq<Op>, i: nat, tok: NewToken)
    requires i < |ops|
  {
    || (ops[i].Issue? && ops[i].tok == tok && OutcomeAt(ops, i) == Issued)
    || (ops[i].Rotate? && ops[i].next == tok && OutcomeAt(ops, i).Rotated?)
  }

  lemma {:induction false} HandedOutRow(rows: Table, op: Op, tok: NewToken)
    requires Inv(rows)
    requires || (op.Issue? && op.tok == tok && Apply(rows, op).1 == Issued)
             || (op.Rotate? && op.next == tok && Apply(rows, op).1.Rotated?)
    ensures var rows' := Apply(rows, op).0;
            && |rows'| == |rows| + 1 && rows'[|rows|].hash == tok.hash
            && rows'[|rows|].expiresAt == tok.expiresAt && !rows'[|rows|].revoked
  {
    if op.Rotate? {
      RotateWrites(rows, IndexOfHash(rows, op.presented), op.next, op.now);
      hide DoRotate, PathAt, Insertable;
    }
  }

  /** From the step that hands it out, a token rotates when presented if and only if it is before the
      expiry it was given, its successor can be inserted, and no step since has ended it. */
  lemma {:induction false} TokenLivesExactly(ops: seq<Op>, i: nat, j: nat, tok: NewToken)
    requires i < j < |ops| && HandsOut(ops, i, tok) && ops[j].Rotate? && ops[j].presented == tok.hash
    ensures |Before(ops, i + 1)| == |Before(ops, i)| + 1
    ensures OutcomeAt(ops, j).Rotated? <==>
              && ops[j].now < tok.expiresAt && Insertable(Before(ops, j), ops[j].next)
              && !RevokedIn(Before(ops, i + 1), ops[i + 1..j], |Before(ops, i)|)
  {
    StatesLinked(ops, i, j);
    var rows, start, later, k := Before(ops, i), Before(ops, i + 1), Before(ops, j), |Before(ops, i)|;
    HandedOutRow(rows, ops[i], tok);
    RevokedInRun(start, ops[i + 1..j], k);
    RunKeepsInv(start, ops[i + 1..j]);
    hide Inv, Before, Run, DoRotate, Insertable, RevokedIn;
    RotateExactly(later, k, ops[j].next, ops[j].now);
  }

  /** In particular no token rotates at or after its expiry. */
  lemma {:induction false} ExpiryHonoured(ops: seq<Op>, i: nat, j: nat, tok: NewToken)
    requires i < j < |ops| && HandsOut(ops, i, tok) && ops[j].Rotate? && ops[j].presented == tok.hash
    ensures ops[j].now >= tok.expiresAt ==> !OutcomeAt(ops, j).Rotated?
  {
    hide HandsOut, Before;
    TokenLivesExactly(ops, i, j, tok);
  }
}
