/** Sessions: access tokens carrying a revoke-all generation, paired with rotating refresh tokens. */
module Sessions {
  import opened ByteStrings
  import opened Accounts
  import RT = RefreshTokens

  // ---------------------------------------------------------------- state and validation

  /** The claims of an access token whose signature and expiry have been verified. */
  datatype Claims = Claims(subject: Bytes, tokenVersion: int, jti: Bytes)

  /** `minted` records every access token ever handed out; nothing reads it. */
  datatype Auth = Auth(users: map<Bytes, Account>, tokens: RT.Table, denied: set<Bytes>, minted: set<Claims>)

  datatype Validity = Valid | RevokedToken | UnknownUser | Superseded

  function Validate(a: Auth, c: Claims): Validity {
    if c.jti in a.denied then RevokedToken
    else if c.subject !in a.users then UnknownUser
    else if c.tokenVersion != a.users[c.subject].tokenVersion then Superseded
    else Valid
  }

  predicate CanHoldSession(s: Status) { s == Pending || s == Active }

  // ---------------------------------------------------------------- service calls and their statements

  datatype Reply = Session(claims: Claims) | Unauthenticated | AccountNotActive | Failed | Done

  /** Whole service calls, and below them the single statements that calls made at the same time can
      interleave: a run may hold both. `idOk` and `mintOk` tell whether the identity row is found and
      whether minting succeeds. */
  datatype Op =
    | CreateUser(id: Bytes)
    | IssueSession(userId: Bytes, tok: RT.NewToken, jti: Bytes, idOk: bool, mintOk: bool)
    | Refresh(presented: Bytes, next: RT.NewToken, now: int, jti: Bytes, idOk: bool, mintOk: bool)
    | Logout(presented: Bytes, jti: Bytes)
    | RevokeAllSessions(userId: Bytes)
    | SuspendUser(userId: Bytes, fault: bool)
    | CloseAccount(userId: Bytes)
    | ActivateUser(userId: Bytes, adult: bool)
    | IssueStatement(userId: Bytes, tok: RT.NewToken)
    | RotateStatement(presented: Bytes, next: RT.NewToken, now: int)
    | MintStatement(userId: Bytes, jti: Bytes)
    | RevokeStatement(userId: Bytes)
    | BumpStatement(userId: Bytes)

  function Bump(users: map<Bytes, Account>, id: Bytes): Option<map<Bytes, Account>> {
    if id !in users || users[id].tokenVersion >= MAX_VERSION then None
    else Some(users[id := users[id].(tokenVersion := users[id].tokenVersion + 1)])
  }

  /** Claims are derived from the user row as it stands at mint time. */
  function MintFor(a: Auth, userId: Bytes, jti: Bytes, mintOk: bool): (Auth, Reply)
    requires userId in a.users
  {
    if !mintOk then (a, Failed) else
    var c := Claims(userId, a.users[userId].tokenVersion, jti);
    (a.(minted := a.minted + {c}), Session(c))
  }

  function DoIssue(a: Auth, userId: Bytes, tok: RT.NewToken, jti: Bytes, idOk: bool, mintOk: bool): (Auth, Reply) {
    if userId !in a.users then (a, Unauthenticated)
    else if !CanHoldSession(a.users[userId].status) then (a, AccountNotActive)
    else if !idOk then (a, Unauthenticated)
    else
      var (tokens, outcome) := RT.DoIssue(a.tokens, userId, tok);
      if outcome != RT.Issued then (a, Failed) else MintFor(a.(tokens := tokens), userId, jti, mintOk)
  }

  /** The rotation commits before the account is looked at. */
  function DoRefresh(a: Auth, presented: Bytes, next: RT.NewToken, now: int, jti: Bytes, idOk: bool, mintOk: bool)
    : (Auth, Reply)
  {
    var (tokens, outcome) := RT.DoRotate(a.tokens, presented, next, now);
    var a' := a.(tokens := tokens);
    if !outcome.Rotated? then (a', Unauthenticated)
    else if outcome.userId !in a.users then (a', Unauthenticated)
    else if !CanHoldSession(a.users[outcome.userId].status) then (a', AccountNotActive)
    else if !idOk then (a', Unauthenticated)
    else MintFor(a', outcome.userId, jti, mintOk)
  }

  function Apply(a: Auth, op: Op): (Auth, Reply) {
    match op
    case CreateUser(id) =>
      if id in a.users then (a, Failed) else (a.(users := a.users[id := Account(Pending, false, 1)]), Done)
    case IssueSession(userId, tok, jti, idOk, mintOk) => DoIssue(a, userId, tok, jti, idOk, mintOk)
    case Refresh(presented, next, now, jti, idOk, mintOk) => DoRefresh(a, presented, next, now, jti, idOk, mintOk)
    case Logout(presented, jti) =>
      (a.(tokens := RT.DoRevokeFamily(a.tokens, presented).0,
          denied := if jti == [] then a.denied else a.denied + {jti}), Done)
    case RevokeAllSessions(userId) =>
      // Two statements outside a transaction: the revocation stays even when the bump fails.
      var revoked := a.(tokens := RT.Exec(a.tokens, RT.RevokeUser(userId)));
      var users := Bump(a.users, userId);
      if users.None? then (revoked, Failed) else (revoked.(users := users.value), Done)
    case SuspendUser(userId, fault) =>
      var db := Mutate(Db(a.users, a.tokens), userId, Suspend);
      if fault || db.None? then (a, Failed) else (a.(users := db.value.users, tokens := db.value.tokens), Done)
    case CloseAccount(userId) =>
      if userId !in a.users then (a, Done)
      else
        var users := Bump(a.users, userId);
        if users.None? then (a, Failed)
        else (a.(users := users.value[userId := users.value[userId].(status := Deleted)]), Done)
    case ActivateUser(userId, adult) =>
      var db := Mutate(Db(a.users, a.tokens), userId, Reinstate(adult));
      if db.None? then (a, Failed) else (a.(users := db.value.users), Done)
    case IssueStatement(userId, tok) => (a.(tokens := RT.DoIssue(a.tokens, userId, tok).0), Done)
    case RotateStatement(presented, next, now) => (a.(tokens := RT.DoRotate(a.tokens, presented, next, now).0), Done)
    case MintStatement(userId, jti) => if userId !in a.users then (a, Failed) else MintFor(a, userId, jti, true)
    case RevokeStatement(userId) => (a.(tokens := RT.Exec(a.tokens, RT.RevokeUser(userId))), Done)
    case BumpStatement(userId) =>
      var users := Bump(a.users, userId);
      if users.None? then (a, Failed) else (a.(users := users.value), Done)
  }

  function Run(a: Auth, ops: seq<Op>): Auth
    decreases |ops|
  {
    if ops == [] then a else Apply(Run(a, ops[..|ops| - 1]), ops[|ops| - 1]).0
  }

  const EMPTY: Auth := Auth(map[], [], {}, {})

  /** The service as an object over its repository. */
  class AuthService {
    var users: map<Bytes, Account>
    var tokens: RT.Table
    var denied: set<Bytes>
    ghost var minted: set<Claims>

    ghost function Contents(): Auth
      reads this
    {
      Auth(users, tokens, denied, minted)
    }

    constructor ()
      ensures Contents() == EMPTY
    {
      users, tokens, denied, minted := map[], [], {}, {};
    }

    method Mint(userId: Bytes, jti: Bytes, mintOk: bool) returns (r: Reply)
      requires userId in users
      modifies this`minted
      ensures (Contents(), r) == MintFor(old(Contents()), userId, jti, mintOk)
    {
      if !mintOk {
        return Failed;
      }
      var c := Claims(userId, users[userId].tokenVersion, jti);
      minted := minted + {c};
      return Session(c);
    }

    method IssueSession(userId: Bytes, tok: RT.NewToken, jti: Bytes, idOk: bool, mintOk: bool) returns (r: Reply)
      modifies this
      ensures (Contents(), r) == Apply(old(Contents()), Op.IssueSession(userId, tok, jti, idOk, mintOk))
    {
      if userId !in users {
        return Unauthenticated;
      }
      if !CanHoldSession(users[userId].status) {
        return AccountNotActive;
      }
      if !idOk {
        return Unauthenticated;
      }
      var issued := RT.DoIssue(tokens, userId, tok);
      if issued.1 != RT.Issued {
        return Failed;
      }
      tokens := issued.0;
      r := Mint(userId, jti, mintOk);
    }

    method Refresh(presented: Bytes, next: RT.NewToken, now: int, jti: Bytes, idOk: bool, mintOk: bool)
      returns (r: Reply)
      modifies this
      ensures (Contents(), r) == Apply(old(Contents()), Op.Refresh(presented, next, now, jti, idOk, mintOk))
    {
      hide RT.DoRotate;
      var rotated := RT.DoRotate(tokens, presented, next, now);
      tokens := rotated.0;
      if !rotated.1.Rotated? {
        return Unauthenticated;
      }
      var userId := rotated.1.userId;
      if userId !in users {
        return Unauthenticated;
      }
      if !CanHoldSession(users[userId].status) {
        return AccountNotActive;
      }
      if !idOk {
        return Unauthenticated;
      }
      r := Mint(userId, jti, mintOk);
    }

    method Logout(presented: Bytes, jti: Bytes) returns (r: Reply)
      modifies this`tokens, this`denied
      ensures (Contents(), r) == Apply(old(Contents()), Op.Logout(presented, jti))
    {
      hide RT.DoRevokeFamily;
      tokens := RT.DoRevokeFamily(tokens, presented).0;
      if jti != [] {
        denied := denied + {jti};
      }
      return Done;
    }

    method RevokeAll(userId: Bytes) returns (r: Reply)
      modifies this
      ensures (Contents(), r) == Apply(old(Contents()), RevokeAllSessions(userId))
    {
      hide RT.Exec;
      tokens := RT.Exec(tokens, RT.RevokeUser(userId));
      var bumped := Bump(users, userId);
      if bumped.None? {
        return Failed;
      }
      users := bumped.value;
      return Done;
    }
  }

  // ---------------------------------------------------------------- revocation is for good

  /** No minted token is from the future. */
  ghost predicate Inv(a: Auth) {
    && RT.Inv(a.tokens)
    && forall c :: c in a.minted ==> c.subject in a.users && c.tokenVersion <= a.users[c.subject].tokenVersion
  }

  ghost predicate VersionsGrow(a: Auth, b: Auth) {
    forall u :: u in a.users ==> u in b.users && a.users[u].tokenVersion <= b.users[u].tokenVersion
  }

  /** What each call does to the refresh table is one of the table's own operations, or nothing. */
  ghost function TokenOps(a: Auth, op: Op): seq<RT.Op> {
    match op
    case IssueSession(userId, tok, _, idOk, _) =>
      if userId in a.users && CanHoldSession(a.users[userId].status) && idOk then [RT.Issue(userId, tok)] else []
    case Refresh(presented, next, now, _, _, _) => [RT.Rotate(presented, next, now)]
    case Logout(presented, _) => [RT.RevokeFamilyOf(presented)]
    case RevokeAllSessions(userId) => [RT.RevokeAllOf(userId)]
    case SuspendUser(userId, fault) =>
      if fault || Mutate(Db(a.users, a.tokens), userId, Suspend).None? then [] else [RT.RevokeAllOf(userId)]
    case IssueStatement(userId, tok) => [RT.Issue(userId, tok)]
    case RotateStatement(presented, next, now) => [RT.Rotate(presented, next, now)]
    case RevokeStatement(userId) => [RT.RevokeAllOf(userId)]
    case _ => []
  }

  lemma {:induction false} TokenStep(a: Auth, op: Op)
    ensures Apply(a, op).0.tokens == RT.Run(a.tokens, TokenOps(a, op))
  {
    hide RT.DoRotate, RT.DoRevokeFamily, RT.Exec;
    var ops := TokenOps(a, op);
    if ops != [] {
      assert ops[..|ops| - 1] == [];
      assert RT.Run(a.tokens, ops) == RT.Apply(a.tokens, ops[0]).0;
    }
  }

  lemma {:induction false} StepKeepsInv(a: Auth, op: Op)
    requires Inv(a)
    ensures Inv(Apply(a, op).0) && VersionsGrow(a, Apply(a, op).0)
    ensures RT.Grows(a.tokens, Apply(a, op).0.tokens)
  {
    hide Apply, TokenOps, RT.Inv, RT.Grows, RT.Run;
    TokenStep(a, op);
    RT.RunKeepsInv(a.tokens, TokenOps(a, op));
    RT.RunGrows(a.tokens, TokenOps(a, op));
    VersionsStep(a, op);
    MintedStep(a, op);
  }

  lemma {:induction false} VersionsStep(a: Auth, op: Op)
    ensures VersionsGrow(a, Apply(a, op).0)
  {
    hide RT.DoRotate, RT.DoRevokeFamily, RT.Exec, RT.DoIssue;
  }

  /** A call mints nothing, or one token at its subject's version. */
  lemma {:induction false} MintedStep(a: Auth, op: Op)
    ensures var b := Apply(a, op).0;
            forall c :: c in b.minted ==>
              c in a.minted || (c.subject in a.users && c.tokenVersion == a.users[c.subject].tokenVersion)
  {
    hide RT.DoRotate, RT.DoRevokeFamily, RT.Exec, RT.DoIssue, Mutate, Bump;
  }

  lemma {:induction false} RunKeepsInv(a: Auth, ops: seq<Op>)
    requires Inv(a)
    ensures Inv(Run(a, ops)) && VersionsGrow(a, Run(a, ops)) && RT.Grows(a.tokens, Run(a, ops).tokens)
    decreases |ops|
  {
    hide Inv, Apply;
    if ops == [] {
    } else {
      RunKeepsInv(a, ops[..|ops| - 1]);
      StepKeepsInv(Run(a, ops[..|ops| - 1]), ops[|ops| - 1]);
    }
  }

  lemma {:induction false} EmptyInv()
    ensures Inv(EMPTY)
  {
    RT.EmptyInv();
  }

  /** The steps that revoke all refresh tokens of a user. (Revoking comes first in revoke-all, so it holds
      even when the version bump after it fails.) */
  predicate RevokesTokens(a: Auth, op: Op) {
    op.RevokeAllSessions? || op.RevokeStatement? || (op.SuspendUser? && Apply(a, op).1 == Done)
  }

  /** The steps that move a user on to a new token version. */
  predicate BumpsVersion(a: Auth, op: Op) {
    && (op.RevokeAllSessions? || op.BumpStatement? || op.SuspendUser? || op.CloseAccount?)
    && Apply(a, op).1 == Done && op.userId in a.users
  }

  ghost predicate RefreshRefused(later: Auth, t: RT.Token) {
    forall next, now :: RT.DoRotate(later.tokens, t.hash, next, now).1 == RT.Reuse(t.familyId)
  }

  /** Refresh tokens issued before such a step are refused as reuse in every later state, whatever calls
      and statements come between. */
  lemma {:induction false} TokensRevokedForGood(a: Auth, op: Op, ops: seq<Op>, i: nat)
    requires Inv(a) && RevokesTokens(a, op) && i < |a.tokens| && a.tokens[i].userId == op.userId
    ensures RefreshRefused(Run(Apply(a, op).0, ops), a.tokens[i])
  {
    var b := Apply(a, op).0;
    assert b.tokens == RT.Exec(a.tokens, RT.RevokeUser(op.userId));
    assert b.tokens[i].revoked && b.tokens[i].hash == a.tokens[i].hash && b.tokens[i].familyId == a.tokens[i].familyId;
    hide Apply, RT.DoRotate, RT.Inv, RT.Grows;
    StepKeepsInv(a, op);
    RunKeepsInv(b, ops);
    forall next, now
      ensures RT.DoRotate(Run(b, ops).tokens, a.tokens[i].hash, next, now).1 == RT.Reuse(a.tokens[i].familyId)
    {
      StillSpent(b.tokens, Run(b, ops).tokens, i, next, now);
    }
  }

  /** Access tokens minted before such a step never validate again. */
  lemma {:induction false} AccessRevokedForGood(a: Auth, op: Op, ops: seq<Op>, c: Claims)
    requires Inv(a) && BumpsVersion(a, op) && c in a.minted && c.subject == op.userId
    ensures Validate(Run(Apply(a, op).0, ops), c) != Valid
  {
    hide RT.DoRotate, RT.Inv, RT.Grows, RT.Exec;
    var b := Apply(a, op).0;
    assert c.tokenVersion < b.users[op.userId].tokenVersion;
    StepKeepsInv(a, op);
    RunKeepsInv(b, ops);
  }

  predicate LogsOutEverywhere(op: Op) { op.RevokeAllSessions? || op.SuspendUser? }

  /** After a successful "log out everywhere" or suspension, and after anything that follows, no access
      token minted before validates and every refresh token issued before is refused as reuse. */
  lemma {:induction false} RevokedForGood(a: Auth, op: Op, ops: seq<Op>)
    requires Inv(a) && LogsOutEverywhere(op) && Apply(a, op).1 == Done
    ensures var later := Run(Apply(a, op).0, ops);
            && (forall c :: c in a.minted && c.subject == op.userId ==> Validate(later, c) != Valid)
            && (forall i :: 0 <= i < |a.tokens| && a.tokens[i].userId == op.userId ==>
                  RefreshRefused(later, a.tokens[i]))
  {
    assert RevokesTokens(a, op) && BumpsVersion(a, op);
    hide Apply, Inv, RefreshRefused, Validate, RevokesTokens, BumpsVersion;
    var later := Run(Apply(a, op).0, ops);
    forall c | c in a.minted && c.subject == op.userId
      ensures Validate(later, c) != Valid
    {
      AccessRevokedForGood(a, op, ops, c);
    }
    forall i | 0 <= i < |a.tokens| && a.tokens[i].userId == op.userId
      ensures RefreshRefused(later, a.tokens[i])
    {
      TokensRevokedForGood(a, op, ops, i);
    }
  }

  /** Revoke-all statement by statement, with anything between its two statements and after them: refresh
      tokens issued before the first are refused, and access tokens minted before the second, which
      include those minted in between, never validate. */
  lemma {:induction false} RevokeAllInterleaved(a: Auth, user: Bytes, between: seq<Op>, ops: seq<Op>)
    requires Inv(a)
    requires Apply(Run(Apply(a, RevokeStatement(user)).0, between), BumpStatement(user)).1 == Done
    ensures var mid := Run(Apply(a, RevokeStatement(user)).0, between);
            var later := Run(Apply(mid, BumpStatement(user)).0, ops);
            && (forall c :: c in mid.minted && c.subject == user ==> Validate(later, c) != Valid)
            && (forall i :: 0 <= i < |a.tokens| && a.tokens[i].userId == user ==> RefreshRefused(later, a.tokens[i]))
  {
    var first := Apply(a, RevokeStatement(user)).0;
    var mid := Run(first, between);
    StepKeepsInv(a, RevokeStatement(user));
    RunKeepsInv(first, between);
    assert BumpsVersion(mid, BumpStatement(user));
    hide Apply, Inv, RefreshRefused, Validate, BumpsVersion;
    var later := Run(Apply(mid, BumpStatement(user)).0, ops);
    forall c | c in mid.minted && c.subject == user
      ensures Validate(later, c) != Valid
    {
      AccessRevokedForGood(mid, BumpStatement(user), ops, c);
    }
    var rest := between + [BumpStatement(user)] + ops;
    RunSplit(first, between, [BumpStatement(user)] + ops);
    RunSplit(mid, [BumpStatement(user)], ops);
    assert rest == between + ([BumpStatement(user)] + ops);
    RunOne(mid, BumpStatement(user));
    forall i | 0 <= i < |a.tokens| && a.tokens[i].userId == user
      ensures RefreshRefused(later, a.tokens[i])
    {
      TokensRevokedForGood(a, RevokeStatement(user), rest, i);
    }
  }

  lemma {:induction false} RunOne(a: Auth, op: Op)
    ensures Run(a, [op]) == Apply(a, op).0
  {
    hide Apply;
    assert [op][..0] == [];
    assert Run(a, []) == a;
  }

  lemma {:induction false} RunSplit(a: Auth, x: seq<Op>, y: seq<Op>)
    ensures Run(a, x + y) == Run(Run(a, x), y)
    decreases |y|
  {
    hide Apply;
    if y == [] {
      assert x + y == x;
    } else {
      var init := y[..|y| - 1];
      RunSplit(a, x, init);
      assert (x + y)[..|x + y| - 1] == x + init;
    }
  }

  /** What does not survive that interleaving: a refresh whose rotation commits before a revoke-all and
      whose mint comes after it hands out an access token that validates, beside a refresh token that is
      already refused. */
  lemma {:induction false} RefreshStraddlesRevokeAll(
      a: Auth, presented: Bytes, next: RT.NewToken, now: int, jti: Bytes)
    requires Inv(a) && RT.DoRotate(a.tokens, presented, next, now).1.Rotated? && jti !in a.denied
    requires RT.DoRotate(a.tokens, presented, next, now).1.userId in a.users
    requires a.users[RT.DoRotate(a.tokens, presented, next, now).1.userId].tokenVersion < MAX_VERSION
    ensures var user := RT.DoRotate(a.tokens, presented, next, now).1.userId;
            var rotated := Apply(a, RotateStatement(presented, next, now)).0;
            var revoked := Apply(rotated, RevokeAllSessions(user)).0;
            var (last, reply) := Apply(revoked, MintStatement(user, jti));
            && Apply(rotated, RevokeAllSessions(user)).1 == Done
            && reply.Session? && Validate(last, reply.claims) == Valid
            && |rotated.tokens| == |a.tokens| + 1 && rotated.tokens[|a.tokens|].hash == next.hash
            && RefreshRefused(last, rotated.tokens[|a.tokens|])
  {
    var user := RT.DoRotate(a.tokens, presented, next, now).1.userId;
    var rotated := Apply(a, RotateStatement(presented, next, now)).0;
    var revoked := Apply(rotated, RevokeAllSessions(user)).0;
    RT.RotatedRow(a.tokens, presented, next, now);
    StepKeepsInv(a, RotateStatement(presented, next, now));
    assert rotated == a.(tokens := RT.DoRotate(a.tokens, presented, next, now).0);
    RevokeAllDone(rotated, user);
    MintValidates(revoked, user, jti);
    hide Apply, RT.DoRotate, RT.Inv, RefreshRefused, Validate;
    TokensRevokedForGood(rotated, RevokeAllSessions(user), [MintStatement(user, jti)], |a.tokens|);
    RunOne(revoked, MintStatement(user, jti));
  }

  lemma {:induction false} RevokeAllDone(a: Auth, user: Bytes)
    requires user in a.users && a.users[user].tokenVersion < MAX_VERSION
    ensures var (b, reply) := Apply(a, RevokeAllSessions(user));
            reply == Done && user in b.users && b.denied == a.denied
  {
    hide RT.Exec;
  }

  /** Minting reads the version as it stands, so what it hands out validates. */
  lemma {:induction false} MintValidates(a: Auth, user: Bytes, jti: Bytes)
    requires user in a.users && jti !in a.denied
    ensures var (b, reply) := Apply(a, MintStatement(user, jti)); reply.Session? && Validate(b, reply.claims) == Valid
  {
  }

  lemma {:induction false} StillSpent(rows: RT.Table, later: RT.Table, i: nat, next: RT.NewToken, now: int)
    requires RT.Inv(later) && RT.Grows(rows, later) && i < |rows| && rows[i].revoked
    ensures RT.DoRotate(later, rows[i].hash, next, now).1 == RT.Reuse(rows[i].familyId)
  {
    hide RT.PathAt;
    var k := RT.IndexOfHash(later, rows[i].hash);
    assert later[i].hash == later[k].hash;
    assert k == i;
  }

  // ---------------------------------------------------------------- and lives exactly until then

  /** Some step of the run moves the user on to a new token version. */
  predicate BumpedIn(a: Auth, ops: seq<Op>, user: Bytes)
    decreases |ops|
  {
    ops != [] &&
    var init, op := ops[..|ops| - 1], ops[|ops| - 1];
    BumpedIn(a, init, user) || (BumpsVersion(Run(a, init), op) && op.userId == user)
  }

  lemma {:induction false} VersionMoves(a: Auth, op: Op, user: Bytes)
    requires user in a.users
    ensures var b := Apply(a, op).0;
            user in b.users && b.users[user].tokenVersion ==
              a.users[user].tokenVersion + (if BumpsVersion(a, op) && op.userId == user then 1 else 0)
  {
    hide RT.DoRotate, RT.DoRevokeFamily, RT.Exec, RT.DoIssue;
  }

  lemma {:induction false} VersionAfter(a: Auth, ops: seq<Op>, user: Bytes)
    requires user in a.users
    ensures var b := Run(a, ops);
            && user in b.users && a.users[user].tokenVersion <= b.users[user].tokenVersion
            && (a.users[user].tokenVersion == b.users[user].tokenVersion <==> !BumpedIn(a, ops, user))
    decreases |ops|
  {
    hide Apply, BumpsVersion;
    if ops == [] {
    } else {
      VersionAfter(a, ops[..|ops| - 1], user);
      VersionMoves(Run(a, ops[..|ops| - 1]), ops[|ops| - 1], user);
    }
  }

  /** An access token at its user's current version validates after a run if and only if its jti has not
      been denied and no step of the run bumped the version. */
  lemma {:induction false} ValidExactly(a: Auth, ops: seq<Op>, c: Claims)
    requires c.subject in a.users && c.tokenVersion == a.users[c.subject].tokenVersion
    ensures Validate(Run(a, ops), c) == Valid <==> c.jti !in Run(a, ops).denied && !BumpedIn(a, ops, c.subject)
  {
    hide Run, BumpedIn;
    VersionAfter(a, ops, c.subject);
  }

  /** What a call hands out carries the version that stands after it. */
  lemma {:induction false} FreshClaimsCurrent(a: Auth, op: Op)
    requires Apply(a, op).1.Session?
    ensures var (b, reply) := Apply(a, op);
            reply.claims.subject in b.users && reply.claims.tokenVersion == b.users[reply.claims.subject].tokenVersion
  {
    hide RT.DoRotate, RT.DoIssue;
  }

  /** So every session, from the call that hands it out, lasts exactly until its jti is denied or its
      user's version is bumped, whatever calls and statements follow; one handed out by a mint that
      comes after a revoke-all is no exception. */
  lemma {:induction false} SessionLivesExactly(a: Auth, op: Op, ops: seq<Op>)
    requires Apply(a, op).1.Session?
    ensures var (b, reply) := Apply(a, op);
            Validate(Run(b, ops), reply.claims) == Valid <==>
              reply.claims.jti !in Run(b, ops).denied && !BumpedIn(b, ops, reply.claims.subject)
  {
    FreshClaimsCurrent(a, op);
    hide Apply, Run, BumpedIn, Validate;
    ValidExactly(Apply(a, op).0, ops, Apply(a, op).1.claims);
  }
}
