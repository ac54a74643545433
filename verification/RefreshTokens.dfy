/** Refresh tokens: single-use rotation, with the whole family revoked when a spent one comes back. */
module RefreshTokens {
  import opened ByteStrings

  /** One row of refresh_tokens, held in insertion order. */
  datatype Token = Token(
    id: Bytes, userId: Bytes, familyId: Bytes, hash: Bytes, expiresAt: int, revoked: bool, replacedBy: Option<Bytes>)

  type Table = seq<Token>

  datatype NewToken = NewToken(id: Bytes, hash: Bytes, expiresAt: int)

  // ---------------------------------------------------------------- statements

  function IndexOfHash(rows: Table, hash: Bytes): (i: int)
    ensures -1 <= i < |rows| && (i >= 0 ==> rows[i].hash == hash)
    ensures i < 0 ==> forall j :: 0 <= j < |rows| ==> rows[j].hash != hash
    decreases |rows|
  {
    if rows == [] then -1
    else if rows[|rows| - 1].hash == hash then |rows| - 1
    else IndexOfHash(rows[..|rows| - 1], hash)
  }

  /** The primary key and the unique index on token_hash. */
  predicate Insertable(rows: Table, tok: NewToken) {
    forall i :: 0 <= i < |rows| ==> rows[i].id != tok.id && rows[i].hash != tok.hash
  }

  function NewRow(userId: Bytes, familyId: Bytes, tok: NewToken): Token {
    Token(tok.id, userId, familyId, tok.hash, tok.expiresAt, false, None)
  }

  /** The UPDATE statements. A row already revoked keeps its first stamp, so only the flag is kept. */
  datatype Update = MarkReplaced(id: Bytes, nextId: Bytes) | RevokeFamily(familyId: Bytes) | RevokeUser(userId: Bytes)

  function Updated(u: Update, t: Token): (r: Token)
    ensures r.id == t.id && r.userId == t.userId && r.familyId == t.familyId && r.hash == t.hash
    ensures r.expiresAt == t.expiresAt
    ensures t.revoked ==> r.revoked
  {
    match u
    case MarkReplaced(id, nextId) => if t.id == id then t.(revoked := true, replacedBy := Some(nextId)) else t
    case RevokeFamily(f) => if t.familyId == f then t.(revoked := true) else t
    case RevokeUser(user) => if t.userId == user then t.(revoked := true) else t
  }

  function Exec(rows: Table, u: Update): (r: Table)
    ensures |r| == |rows| && forall i :: 0 <= i < |rows| ==> r[i] == Updated(u, rows[i])
    decreases |rows|
  {
    if rows == [] then [] else Exec(rows[..|rows| - 1], u) + [Updated(u, rows[|rows| - 1])]
  }

  // ---------------------------------------------------------------- operations

  datatype Outcome =
    | Issued
    | NotInserted
    | NotFound
    | Reuse(familyId: Bytes)
    | Expired
    | Rotated(userId: Bytes, familyId: Bytes)
    | Revoked

  datatype Op =
    | Issue(userId: Bytes, tok: NewToken)
    | Rotate(presented: Bytes, next: NewToken, now: int)
    | RevokeFamilyOf(presented: Bytes)
    | RevokeAllOf(userId: Bytes)

  function DoIssue(rows: Table, userId: Bytes, tok: NewToken): (Table, Outcome) {
    if !Insertable(rows, tok) then (rows, NotInserted) else (rows + [NewRow(userId, tok.id, tok)], Issued)
  }

  function DoRotate(rows: Table, presented: Bytes, next: NewToken, now: int): (Table, Outcome) {
    var i := IndexOfHash(rows, presented);
    if i < 0 then (rows, NotFound) else
    var cur := rows[i];
    if cur.revoked || cur.replacedBy.Some? then (Exec(rows, RevokeFamily(cur.familyId)), Reuse(cur.familyId))
    else if cur.expiresAt <= now then (rows, Expired)
    else if !Insertable(rows, next) then (rows, NotInserted)
    else (Exec(rows + [NewRow(cur.userId, cur.familyId, next)], MarkReplaced(cur.id, next.id)),
          Rotated(cur.userId, cur.familyId))
  }

  function DoRevokeFamily(rows: Table, presented: Bytes): (Table, Outcome) {
    var i := IndexOfHash(rows, presented);
    if i < 0 then (rows, NotFound) else (Exec(rows, RevokeFamily(rows[i].familyId)), Revoked)
  }

  function Apply(rows: Table, op: Op): (Table, Outcome) {
    match op
    case Issue(userId, tok) => DoIssue(rows, userId, tok)
    case Rotate(presented, next, now) => DoRotate(rows, presented, next, now)
    case RevokeFamilyOf(presented) => DoRevokeFamily(rows, presented)
    case RevokeAllOf(userId) => (Exec(rows, RevokeUser(userId)), Revoked)
  }

  function Run(rows: Table, ops: seq<Op>): Table
    decreases |ops|
  {
    if ops == [] then rows else Apply(Run(rows, ops[..|ops| - 1]), ops[|ops| - 1]).0
  }

  /** The table as an object. A rotation works on a copy that it assigns at commit. */
  class RefreshStore {
    var rows: Table

    constructor ()
      ensures rows == []
    {
      rows := [];
    }

    method IssueRefreshToken(userId: Bytes, tok: NewToken) returns (r: Outcome)
      modifies this
      ensures (rows, r) == Apply(old(rows), Issue(userId, tok))
    {
      if !Insertable(rows, tok) {
        return NotInserted;
      }
      rows := rows + [NewRow(userId, tok.id, tok)];
      return Issued;
    }

    method RotateRefreshToken(presented: Bytes, next: NewToken, now: int) returns (r: Outcome)
      modifies this
      ensures (rows, r) == Apply(old(rows), Rotate(presented, next, now))
    {
      hide Exec, Insertable, IndexOfHash;
      var tx := rows;
      var i := IndexOfHash(tx, presented);
      if i < 0 {
        return NotFound;
      }
      var cur := tx[i];
      if cur.revoked || cur.replacedBy.Some? {
        tx := Exec(tx, RevokeFamily(cur.familyId));
        rows := tx;
        return Reuse(cur.familyId);
      }
      if cur.expiresAt <= now {
        return Expired;
      }
      if !Insertable(tx, next) {
        return NotInserted;
      }
      tx := tx + [NewRow(cur.userId, cur.familyId, next)];
      tx := Exec(tx, MarkReplaced(cur.id, next.id));
      rows := tx;
      return Rotated(cur.userId, cur.familyId);
    }

    method RevokeRefreshFamilyByHash(presented: Bytes) returns (r: Outcome)
      modifies this
      ensures (rows, r) == Apply(old(rows), RevokeFamilyOf(presented))
    {
      var i := IndexOfHash(rows, presented);
      if i < 0 {
        return NotFound;
      }
      rows := Exec(rows, RevokeFamily(rows[i].familyId));
      return Revoked;
    }
  }

  // ---------------------------------------------------------------- families are simple paths

  function Family(rows: Table, f: Bytes): seq<Token>
    decreases |rows|
  {
    if rows == [] then [] else
    var t := rows[|rows| - 1];
    Family(rows[..|rows| - 1], f) + (if t.familyId == f then [t] else [])
  }

  /** A path: it starts at the token that names the family, each token but the last is revoked and
      linked to the next, and the last is not linked. (Ids are unique, so no token repeats.) */
  ghost predicate IsPath(f: Bytes, fam: seq<Token>) {
    && (fam != [] ==> fam[0].id == f && fam[|fam| - 1].replacedBy.None?)
    && (forall i :: 0 <= i < |fam| - 1 ==> fam[i].revoked)
    && (forall i, j :: 0 <= i < j < |fam| && j == i + 1 ==> fam[i].replacedBy == Some(fam[j].id))
  }

  ghost predicate Unique(rows: Table) {
    forall i, j :: 0 <= i < j < |rows| ==> rows[i].id != rows[j].id && rows[i].hash != rows[j].hash
  }

  ghost predicate PathAt(rows: Table, f: Bytes) {
    IsPath(f, Family(rows, f))
  }

  ghost predicate Inv(rows: Table) {
    Unique(rows) && forall f :: PathAt(rows, f)
  }

  lemma {:induction false} FamilyMembers(rows: Table, f: Bytes, t: Token)
    ensures t in Family(rows, f) <==> t in rows && t.familyId == f
    decreases |rows|
  {
    if rows == [] {
    } else {
      var init, last := rows[..|rows| - 1], rows[|rows| - 1];
      FamilyMembers(init, f, t);
      assert rows == init + [last];
    }
  }

  lemma {:induction false} FamilyAppend(rows: Table, t: Token, f: Bytes)
    ensures Family(rows + [t], f) == if t.familyId == f then Family(rows, f) + [t] else Family(rows, f)
  {
    assert (rows + [t])[..|rows|] == rows;
    assert Family(rows, f) + [] == Family(rows, f);
  }

  /** Updates never move a row between families. */
  lemma {:induction false} FamilyExec(rows: Table, u: Update, f: Bytes)
    ensures Family(Exec(rows, u), f) == Exec(Family(rows, f), u)
    decreases |rows|
  {
    hide Family, Exec;
    if rows == [] {
      FamilyOfNone(u, f);
    } else {
      var init, t := rows[..|rows| - 1], rows[|rows| - 1];
      assert rows == init + [t];
      FamilyExec(init, u, f);
      FamilyExecStep(init, t, u, f);
    }
  }

  lemma {:induction false} FamilyOfNone(u: Update, f: Bytes)
    ensures Family([], f) == [] && Exec([], u) == []
  {
  }

  lemma {:induction false} FamilyExecStep(rows: Table, t: Token, u: Update, f: Bytes)
    requires Family(Exec(rows, u), f) == Exec(Family(rows, f), u)
    ensures Family(Exec(rows + [t], u), f) == Exec(Family(rows + [t], f), u)
  {
    hide Family, Exec, Updated;
    FamilyAppend(rows, t, f);
    FamilyAppend(Exec(rows, u), Updated(u, t), f);
    ExecAppend(rows, t, u);
    ExecAppend(Family(rows, f), t, u);
  }

  lemma {:induction false} ExecAppend(rows: Table, t: Token, u: Update)
    ensures Exec(rows + [t], u) == Exec(rows, u) + [Updated(u, t)]
  {
    assert (rows + [t])[..|rows|] == rows;
  }

  lemma {:induction false} RevokedPath(f: Bytes, fam: seq<Token>, u: Update)
    requires IsPath(f, fam) && !u.MarkReplaced?
    ensures IsPath(f, Exec(fam, u))
  {
    var out := Exec(fam, u);
    assert forall i :: 0 <= i < |fam| ==> out[i].replacedBy == fam[i].replacedBy;
    hide Updated, Exec;
  }

  lemma {:induction false} ExecUnique(rows: Table, u: Update)
    requires Unique(rows)
    ensures Unique(Exec(rows, u))
  {
    hide Updated, Exec;
  }

  /** Revoking keeps every path a path. */
  lemma {:induction false} RevokeKeepsInv(rows: Table, u: Update)
    requires Inv(rows) && !u.MarkReplaced?
    ensures Inv(Exec(rows, u))
  {
    hide Family, Exec, Unique, IsPath;
    ExecUnique(rows, u);
    forall f
      ensures PathAt(Exec(rows, u), f)
    {
      FamilyExec(rows, u, f);
      assert PathAt(rows, f);
      RevokedPath(f, Family(rows, f), u);
    }
  }

  /** A fresh id names no family yet. */
  lemma {:induction false} FreshFamilyEmpty(rows: Table, tok: NewToken)
    requires Inv(rows) && Insertable(rows, tok)
    ensures Family(rows, tok.id) == []
  {
    hide Family;
    var fam := Family(rows, tok.id);
    if fam != [] {
      assert PathAt(rows, tok.id);
      FamilyMembers(rows, tok.id, fam[0]);
    }
  }

  lemma {:induction false} IssueKeepsInv(rows: Table, userId: Bytes, tok: NewToken)
    requires Inv(rows)
    ensures Inv(DoIssue(rows, userId, tok).0)
  {
    if Insertable(rows, tok) {
      FreshFamilyEmpty(rows, tok);
      hide Family;
      var t := NewRow(userId, tok.id, tok);
      forall f
        ensures PathAt(rows + [t], f)
      {
        FamilyAppend(rows, t, f);
        assert PathAt(rows, f);
      }
    }
  }

  /** A live token is the last of its family. */
  lemma {:induction false} LiveIsLast(rows: Table, i: nat)
    requires Inv(rows) && i < |rows| && !rows[i].revoked
    ensures var fam := Family(rows, rows[i].familyId); fam != [] && fam[|fam| - 1] == rows[i]
  {
    hide Family;
    var f := rows[i].familyId;
    assert PathAt(rows, f);
    FamilyMembers(rows, f, rows[i]);
  }

  /** At most one live token per family. */
  lemma {:induction false} OneLivePerFamily(rows: Table, i: nat, j: nat)
    requires Inv(rows) && i < |rows| && j < |rows| && rows[i].familyId == rows[j].familyId
    requires !rows[i].revoked && !rows[j].revoked
    ensures i == j
  {
    hide Family;
    LiveIsLast(rows, i);
    LiveIsLast(rows, j);
  }

  /** Ids are unique: a member of any family with the id of row `i` is row `i`. */
  lemma {:induction false} FamilyIds(rows: Table, i: nat, f: Bytes)
    requires Unique(rows) && i < |rows|
    ensures var fam := Family(rows, f);
            forall k :: 0 <= k < |fam| ==> (fam[k].id == rows[i].id ==> fam[k] == rows[i])
  {
    hide Family;
    var fam := Family(rows, f);
    forall k | 0 <= k < |fam|
      ensures fam[k].id == rows[i].id ==> fam[k] == rows[i]
    {
      FamilyMembers(rows, f, fam[k]);
      var m :| 0 <= m < |rows| && rows[m] == fam[k];
    }
  }

  /** Marking row `i` leaves every other family as it was. */
  lemma {:induction false} OtherFamilyKept(rows: Table, i: nat, nextId: Bytes, f: Bytes)
    requires Unique(rows) && i < |rows| && rows[i].familyId != f
    ensures Exec(Family(rows, f), MarkReplaced(rows[i].id, nextId)) == Family(rows, f)
  {
    hide Family;
    var fam := Family(rows, f);
    FamilyIds(rows, i, f);
    forall k | 0 <= k < |fam|
      ensures fam[k] != rows[i]
    {
      FamilyMembers(rows, f, fam[k]);
    }
    hide Exec;
  }

  /** Rotation hangs the new token on the end of the presented one's path. */
  lemma {:induction false} RotateExtendsPath(rows: Table, i: nat, next: NewToken, f: Bytes)
    requires Inv(rows) && i < |rows| && !rows[i].revoked && Insertable(rows, next)
    ensures var cur := rows[i];
            PathAt(Exec(rows + [NewRow(cur.userId, cur.familyId, next)], MarkReplaced(cur.id, next.id)), f)
  {
    hide Family, Exec, IsPath;
    var cur := rows[i];
    var t, u := NewRow(cur.userId, cur.familyId, next), MarkReplaced(cur.id, next.id);
    FamilyExec(rows + [t], u, f);
    FamilyAppend(rows, t, f);
    assert PathAt(rows, f);
    if f == cur.familyId {
      LiveIsLast(rows, i);
      FamilyIds(rows, i, f);
      PathGrows(f, Family(rows, f), cur, t, u);
    } else {
      OtherFamilyKept(rows, i, next.id, f);
    }
  }

  lemma {:induction false} PathGrows(f: Bytes, fam: seq<Token>, cur: Token, t: Token, u: Update)
    requires IsPath(f, fam) && fam != [] && fam[|fam| - 1] == cur
    requires u == MarkReplaced(cur.id, t.id) && t.replacedBy.None? && t.id != cur.id
    requires forall k :: 0 <= k < |fam| ==> (fam[k].id == cur.id ==> fam[k] == cur)
    requires !cur.revoked
    ensures IsPath(f, Exec(fam + [t], u))
  {
    var n := |fam| - 1;
    var out := Exec(fam + [t], u);
    assert forall k :: 0 <= k < n ==> out[k] == fam[k];
    assert out[n] == cur.(revoked := true, replacedBy := Some(t.id)) && out[n + 1] == t;
  }

  /** A rotation adds its successor as the last row. */
  lemma {:induction false} RotatedRow(rows: Table, presented: Bytes, next: NewToken, now: int)
    ensures var (rows', outcome) := DoRotate(rows, presented, next, now);
            outcome.Rotated? ==>
              |rows'| == |rows| + 1 && rows'[|rows|].hash == next.hash && rows'[|rows|].userId == outcome.userId
  {
    hide Exec, Updated, IndexOfHash;
  }

  lemma {:induction false} RotateKeepsInv(rows: Table, presented: Bytes, next: NewToken, now: int)
    requires Inv(rows)
    ensures Inv(DoRotate(rows, presented, next, now).0)
  {
    var (rows', outcome) := DoRotate(rows, presented, next, now);
    var i := IndexOfHash(rows, presented);
    if outcome.Reuse? {
      RevokeKeepsInv(rows, RevokeFamily(rows[i].familyId));
    } else if outcome.Rotated? {
      hide PathAt, Exec;
      forall f
        ensures PathAt(rows', f)
      {
        RotateExtendsPath(rows, i, next, f);
      }
    }
  }

  lemma {:induction false} StepKeepsInv(rows: Table, op: Op)
    requires Inv(rows)
    ensures Inv(Apply(rows, op).0)
  {
    hide Inv, DoIssue, DoRotate, Exec;
    match op
    case Issue(userId, tok) => IssueKeepsInv(rows, userId, tok);
    case Rotate(presented, next, now) => RotateKeepsInv(rows, presented, next, now);
    case RevokeFamilyOf(presented) =>
      if IndexOfHash(rows, presented) >= 0 {
        RevokeKeepsInv(rows, RevokeFamily(rows[IndexOfHash(rows, presented)].familyId));
      }
    case RevokeAllOf(userId) => RevokeKeepsInv(rows, RevokeUser(userId));
  }

  /** In every reachable table, every family is one simple path (with at most one live token, by
      `OneLivePerFamily`). */
  lemma {:induction false} RunKeepsInv(rows: Table, ops: seq<Op>)
    requires Inv(rows)
    ensures Inv(Run(rows, ops))
    decreases |ops|
  {
    hide Inv, Apply;
    if ops == [] {
    } else {
      RunKeepsInv(rows, ops[..|ops| - 1]);
      StepKeepsInv(Run(rows, ops[..|ops| - 1]), ops[|ops| - 1]);
    }
  }

  lemma {:induction false} EmptyInv()
    ensures Inv([])
  {
    forall f
      ensures PathAt([], f)
    {
      assert Family([], f) == [];
    }
  }

  // ---------------------------------------------------------------- nothing is ever un-revoked

  ghost predicate Grows(a: Table, b: Table) {
    && |a| <= |b|
    && forall i :: 0 <= i < |a| ==>
         && b[i].id == a[i].id && b[i].userId == a[i].userId && b[i].familyId == a[i].familyId
         && b[i].hash == a[i].hash && b[i].expiresAt == a[i].expiresAt && (a[i].revoked ==> b[i].revoked)
  }

  lemma {:induction false} ExecGrows(rows: Table, u: Update)
    ensures Grows(rows, Exec(rows, u))
  {
    hide Updated, Exec;
  }

  lemma {:induction false} AppendGrows(rows: Table, t: Token, b: Table)
    requires Grows(rows + [t], b)
    ensures Grows(rows, b)
  {
    assert forall i :: 0 <= i < |rows| ==> (rows + [t])[i] == rows[i];
  }

  lemma {:induction false} RotateGrows(rows: Table, presented: Bytes, next: NewToken, now: int)
    ensures Grows(rows, DoRotate(rows, presented, next, now).0)
  {
    var i := IndexOfHash(rows, presented);
    if i >= 0 {
      hide Exec, Grows, IndexOfHash;
      var cur := rows[i];
      var t, u := NewRow(cur.userId, cur.familyId, next), MarkReplaced(cur.id, next.id);
      ExecGrows(rows, RevokeFamily(cur.familyId));
      ExecGrows(rows + [t], u);
      AppendGrows(rows, t, Exec(rows + [t], u));
      SameGrows(rows);
    }
  }

  lemma {:induction false} SameGrows(rows: Table)
    ensures Grows(rows, rows)
  {
  }

  lemma {:induction false} StepGrows(rows: Table, op: Op)
    ensures Grows(rows, Apply(rows, op).0)
  {
    hide Exec, Grows, IndexOfHash, DoRotate;
    SameGrows(rows);
    match op
    case Issue(userId, tok) =>
      var t := NewRow(userId, tok.id, tok);
      SameGrows(rows + [t]);
      AppendGrows(rows, t, rows + [t]);
    case Rotate(presented, next, now) => RotateGrows(rows, presented, next, now);
    case RevokeFamilyOf(presented) =>
      if IndexOfHash(rows, presented) >= 0 {
        ExecGrows(rows, RevokeFamily(rows[IndexOfHash(rows, presented)].familyId));
      }
    case RevokeAllOf(userId) => ExecGrows(rows, RevokeUser(userId));
  }

  lemma {:induction false} RunGrows(rows: Table, ops: seq<Op>)
    ensures Grows(rows, Run(rows, ops))
    decreases |ops|
  {
    hide Apply;
    if ops == [] {
    } else {
      RunGrows(rows, ops[..|ops| - 1]);
      StepGrows(Run(rows, ops[..|ops| - 1]), ops[|ops| - 1]);
    }
  }

  lemma {:induction false} RunSplit(rows: Table, a: seq<Op>, b: seq<Op>)
    ensures Run(rows, a + b) == Run(Run(rows, a), b)
    decreases |b|
  {
    if b == [] {
      assert a + b == a;
    } else {
      var init := b[..|b| - 1];
      RunSplit(rows, a, init);
      assert (a + b)[..|a + b| - 1] == a + init;
    }
  }

  /** A revoked token presented later, after anything at all, is reported as reuse. */
  lemma {:induction false} SpentStaysSpent(rows: Table, ops: seq<Op>, i: nat, next: NewToken, now: int)
    requires Inv(rows) && i < |rows| && rows[i].revoked
    ensures Apply(Run(rows, ops), Rotate(rows[i].hash, next, now)).1 == Reuse(rows[i].familyId)
  {
    hide Run, PathAt;
    var later := Run(rows, ops);
    RunGrows(rows, ops);
    RunKeepsInv(rows, ops);
    var k := IndexOfHash(later, rows[i].hash);
    assert later[i].hash == later[k].hash;
    assert k == i;
  }

  // ---------------------------------------------------------------- whole runs, from an empty table

  function Before(ops: seq<Op>, i: nat): Table
    requires i <= |ops|
  {
    Run([], ops[..i])
  }

  function OutcomeAt(ops: seq<Op>, i: nat): Outcome
    requires i < |ops|
  {
    Apply(Before(ops, i), ops[i]).1
  }

  lemma {:induction false} StatesLinked(ops: seq<Op>, i: nat, j: nat)
    requires i < j <= |ops|
    ensures Before(ops, i + 1) == Apply(Before(ops, i), ops[i]).0
    ensures Before(ops, j) == Run(Before(ops, i + 1), ops[i + 1..j])
    ensures Inv(Before(ops, i)) && Inv(Before(ops, i + 1))
  {
    hide Inv, Apply;
    assert ops[..i + 1][..i] == ops[..i];
    assert ops[..j] == ops[..i + 1] + ops[i + 1..j];
    RunSplit([], ops[..i + 1], ops[i + 1..j]);
    EmptyInv();
    RunKeepsInv([], ops[..i]);
    RunKeepsInv([], ops[..i + 1]);
  }

  /** A token rotates at most once in a run: presented again, it trips reuse detection. */
  lemma {:induction false} RotatesOnce(ops: seq<Op>, i: nat, j: nat)
    requires i < j < |ops| && ops[i].Rotate? && ops[j].Rotate? && ops[i].presented == ops[j].presented
    requires OutcomeAt(ops, i).Rotated?
    ensures OutcomeAt(ops, j) == Reuse(OutcomeAt(ops, i).familyId)
  {
    hide Inv, Run;
    StatesLinked(ops, i, j);
    var rows, next := Before(ops, i), Before(ops, i + 1);
    var k := IndexOfHash(rows, ops[i].presented);
    assert next[k].revoked && next[k].hash == ops[i].presented && next[k].familyId == rows[k].familyId;
    SpentStaysSpent(next, ops[i + 1..j], k, ops[j].next, ops[j].now);
  }

  ghost predicate Dead(rows: Table, f: Bytes) {
    && (exists i :: 0 <= i < |rows| && rows[i].id == f)
    && forall i :: 0 <= i < |rows| && rows[i].familyId == f ==> rows[i].revoked
  }

  /** No operation brings a dead family back: only a live member could extend it. */
  lemma {:induction false} DeadStaysDead(rows: Table, ops: seq<Op>, f: Bytes)
    requires Dead(rows, f)
    ensures Dead(Run(rows, ops), f)
    decreases |ops|
  {
    if ops == [] {
    } else {
      var init, op := ops[..|ops| - 1], ops[|ops| - 1];
      DeadStaysDead(rows, init, f);
      DeadStep(Run(rows, init), op, f);
    }
  }

  lemma {:induction false} DeadStep(rows: Table, op: Op, f: Bytes)
    requires Dead(rows, f)
    ensures Dead(Apply(rows, op).0, f)
    ensures Apply(rows, op).1.Rotated? ==> Apply(rows, op).1.familyId != f
  {
    var rows' := Apply(rows, op).0;
    StepGrows(rows, op);
    var i :| 0 <= i < |rows| && rows[i].id == f;
    assert rows'[i].id == f;
    forall k | 0 <= k < |rows'| && rows'[k].familyId == f
      ensures rows'[k].revoked
    {
      if k < |rows| {
        assert rows[k].familyId == f;
      }
    }
  }

  /** After one detected reuse, no token of that family ever rotates again. */
  lemma {:induction false} ReuseEndsFamily(ops: seq<Op>, i: nat, j: nat)
    requires i < j < |ops| && OutcomeAt(ops, i).Reuse?
    ensures OutcomeAt(ops, j).Rotated? ==> OutcomeAt(ops, j).familyId != OutcomeAt(ops, i).familyId
  {
    hide Run;
    StatesLinked(ops, i, j);
    var f := OutcomeAt(ops, i).familyId;
    ReuseKills(Before(ops, i), ops[i]);
    DeadStaysDead(Before(ops, i + 1), ops[i + 1..j], f);
    DeadStep(Before(ops, j), ops[j], f);
  }

  lemma {:induction false} ReuseKills(rows: Table, op: Op)
    requires Inv(rows) && Apply(rows, op).1.Reuse?
    ensures Dead(Apply(rows, op).0, Apply(rows, op).1.familyId)
  {
    hide Family;
    var k := IndexOfHash(rows, op.presented);
    var f := rows[k].familyId;
    assert PathAt(rows, f);
    FamilyMembers(rows, f, rows[k]);
    var first := Family(rows, f)[0];
    FamilyMembers(rows, f, first);
    var i :| 0 <= i < |rows| && rows[i] == first;
    assert Apply(rows, op).0[i].id == f;
  }
}
