/** Who is handed a session and who is not, what each call writes, and for how long a refusal lasts. */
module SessionOutcomes {
  import opened ByteStrings
  import opened Accounts
  import RT = RefreshTokens
  import RO = RefreshOutcomes
  import opened Sessions

  /** The account is there, and pending or active. */
  predicate InGoodStanding(a: Auth, userId: Bytes) {
    userId in a.users && (a.users[userId].status == Pending || a.users[userId].status == Active)
  }

  /** It is there, and suspended or deleted. */
  predicate ShutOut(a: Auth, userId: Bytes) {
    userId in a.users && (a.users[userId].status == Suspended || a.users[userId].status == Deleted)
  }

  // ---------------------------------------------------------------- handing out sessions

  /** A login is answered with a session if and only if the account is in good standing, its identity is
      found, the refresh token can be inserted and the access token minted. The claims name the user, at the
      version that stands, and the refresh token is live with the owner and the expiry it should have. */
  lemma {:induction false} IssueExactly(
      a: Auth, userId: Bytes, tok: RT.NewToken, jti: Bytes, idOk: bool, mintOk: bool)
    ensures var (b, reply) := Apply(a, IssueSession(userId, tok, jti, idOk, mintOk));
            && (reply.Session? <==> InGoodStanding(a, userId) && idOk && RT.Insertable(a.tokens, tok) && mintOk)
            && (reply == AccountNotActive <==> ShutOut(a, userId))
            && (reply == Unauthenticated <==> userId !in a.users || (InGoodStanding(a, userId) && !idOk))
            && (reply.Session? ==>
                  && reply.claims == Claims(userId, a.users[userId].tokenVersion, jti)
                  && b.minted == a.minted + {reply.claims})
            && (!reply.Session? ==> b.minted == a.minted)
            && b.users == a.users && b.denied == a.denied
            && b.tokens == if InGoodStanding(a, userId) && idOk && RT.Insertable(a.tokens, tok)
                           then a.tokens + [RT.Token(tok.id, userId, tok.id, tok.hash, tok.expiresAt, false, None)]
                           else a.tokens
  {
    hide RT.Insertable;
  }

  /** Row `i` is the token presented: a refresh is answered with a session if and only if that token is live
      and unexpired, its successor can be inserted, and the owner's account, identity and mint are as for a
      login. Whatever is answered, the table is left as the rotation leaves it. */
  lemma {:induction false} RefreshExactly(
      a: Auth, i: nat, next: RT.NewToken, now: int, jti: Bytes, idOk: bool, mintOk: bool)
    requires RT.Inv(a.tokens) && i < |a.tokens|
    ensures var t := a.tokens[i];
            var (b, reply) := Apply(a, Op.Refresh(t.hash, next, now, jti, idOk, mintOk));
            var rotates := !t.revoked && now < t.expiresAt && RT.Insertable(a.tokens, next);
            && (reply.Session? <==> rotates && InGoodStanding(a, t.userId) && idOk && mintOk)
            && (reply == AccountNotActive <==> rotates && ShutOut(a, t.userId))
            && (reply == Unauthenticated <==>
                  !rotates || t.userId !in a.users || (InGoodStanding(a, t.userId) && !idOk))
            && (reply.Session? ==>
                  && reply.claims == Claims(t.userId, a.users[t.userId].tokenVersion, jti)
                  && b.minted == a.minted + {reply.claims})
            && (!reply.Session? ==> b.minted == a.minted)
            && b.users == a.users && b.denied == a.denied
            && b.tokens == RT.DoRotate(a.tokens, t.hash, next, now).0
  {
    RO.RotateExactly(a.tokens, i, next, now);
    hide RT.DoRotate, RT.Inv, RT.Insertable;
  }

  /** A login's refresh token can be used at once: presented before its expiry, with the account still in good
      standing, it brings a new session. */
  lemma {:induction false} FreshTokenRefreshes(
      a: Auth, userId: Bytes, tok: RT.NewToken, jti: Bytes, next: RT.NewToken, now: int, jti': Bytes)
    requires RT.Inv(a.tokens) && Apply(a, IssueSession(userId, tok, jti, true, true)).1.Session?
    requires now < tok.expiresAt && RT.Insertable(Apply(a, IssueSession(userId, tok, jti, true, true)).0.tokens, next)
    ensures var b := Apply(a, IssueSession(userId, tok, jti, true, true)).0;
            Apply(b, Op.Refresh(tok.hash, next, now, jti', true, true)).1 ==
            Session(Claims(userId, a.users[userId].tokenVersion, jti'))
  {
    IssueExactly(a, userId, tok, jti, true, true);
    RT.IssueKeepsInv(a.tokens, userId, tok);
    var b := Apply(a, IssueSession(userId, tok, jti, true, true)).0;
    assert b.tokens == RT.DoIssue(a.tokens, userId, tok).0;
    hide RT.Inv, RT.DoIssue, RT.DoRotate, RT.Insertable;
    RefreshExactly(b, |a.tokens|, next, now, jti', true, true);
  }

  // ---------------------------------------------------------------- accounts

  /** What each call does to the accounts: at most its own user's changes, and only as stated. */
  lemma {:induction false} AccountsExactly(a: Auth, op: Op)
    ensures var (b, reply) := Apply(a, op);
            match op
            case CreateUser(id) =>
              b.users == if id in a.users then a.users else a.users[id := Account(Pending, false, 1)]
            case SuspendUser(id, fault) =>
              && (reply == Done <==> !fault && id in a.users && a.users[id].tokenVersion < MAX_VERSION)
              && (if reply == Done then Becomes(a, b, id, Suspended, 1) else b.users == a.users)
            case CloseAccount(id) =>
              && (reply == Done <==> id in a.users ==> a.users[id].tokenVersion < MAX_VERSION)
              && (if reply == Done && id in a.users then Becomes(a, b, id, Deleted, 1) else b.users == a.users)
            case ActivateUser(id, adult) =>
              && (reply == Done <==> id in a.users ==> adult)
              && (if reply == Done && id in a.users then Becomes(a, b, id, Active, 0) else b.users == a.users)
            case RevokeAllSessions(id) => BumpedOrNot(a, b, id, reply)
            case BumpStatement(id) => BumpedOrNot(a, b, id, reply)
            case _ => b.users == a.users
  {
    hide RT.DoRotate, RT.DoRevokeFamily, RT.Exec, RT.DoIssue;
  }

  /** This user has the status, and a version moved on by `bump`; all else is as it was. */
  ghost predicate Becomes(a: Auth, b: Auth, id: Bytes, status: Status, bump: int) {
    id in a.users && b.users == a.users[id := Account(status, a.users[id].canInstruct, a.users[id].tokenVersion + bump)]
  }

  ghost predicate BumpedOrNot(a: Auth, b: Auth, id: Bytes, reply: Reply) {
    && (reply == Done <==> id in a.users && a.users[id].tokenVersion < MAX_VERSION)
    && (if reply == Done then Becomes(a, b, id, a.users[id].status, 1) else b.users == a.users)
  }

  /** Without a reactivation, a user who is shut out stays so and is handed no session by any call. */
  lemma {:induction false} ShutOutStays(a: Auth, ops: seq<Op>, user: Bytes)
    requires ShutOut(a, user)
    requires forall op :: op in ops && op.ActivateUser? ==> op.userId != user
    ensures ShutOut(Run(a, ops), user)
    decreases |ops|
  {
    hide Apply;
    if ops == [] {
    } else {
      var init, op := ops[..|ops| - 1], ops[|ops| - 1];
      assert op in ops;
      ShutOutStays(a, init, user);
      ShutOutStep(Run(a, init), op, user);
    }
  }

  lemma {:induction false} ShutOutStep(a: Auth, op: Op, user: Bytes)
    requires ShutOut(a, user) && (op.ActivateUser? ==> op.userId != user)
    ensures ShutOut(Apply(a, op).0, user)
  {
    AccountsExactly(a, op);
    hide Apply;
  }

  lemma {:induction false} NoSessionWhileShutOut(a: Auth, op: Op, user: Bytes)
    requires RT.Inv(a.tokens) && ShutOut(a, user) && (op.IssueSession? || op.Refresh?)
    ensures Apply(a, op).1.Session? ==> Apply(a, op).1.claims.subject != user
  {
    if op.IssueSession? {
      IssueExactly(a, op.userId, op.tok, op.jti, op.idOk, op.mintOk);
    } else {
      var i := RT.IndexOfHash(a.tokens, op.presented);
      if i >= 0 {
        RefreshExactly(a, i, op.next, op.now, op.jti, op.idOk, op.mintOk);
      } else {
        RO.UnknownNotFound(a.tokens, op.presented, op.next, op.now);
      }
    }
    hide RT.DoRotate, RT.DoIssue, RT.Inv, RT.IndexOfHash, RT.Insertable;
  }

  // ---------------------------------------------------------------- logging out

  lemma {:induction false} DeniedGrows(a: Auth, ops: seq<Op>)
    ensures a.denied <= Run(a, ops).denied
    decreases |ops|
  {
    hide Apply;
    if ops == [] {
    } else {
      DeniedGrows(a, ops[..|ops| - 1]);
      DeniedStep(Run(a, ops[..|ops| - 1]), ops[|ops| - 1]);
    }
  }

  /** Only a logout denies a jti, and only its own. */
  lemma {:induction false} DeniedStep(a: Auth, op: Op)
    ensures Apply(a, op).0.denied == if op.Logout? && op.jti != [] then a.denied + {op.jti} else a.denied
  {
    hide RT.DoRotate, RT.DoRevokeFamily, RT.Exec, RT.DoIssue;
  }

  /** After a logout no access token with its jti ever validates, and if the refresh token presented is in the
      table, at row `i`, none of its family's tokens that are there is ever accepted again. Other families
      and all accounts are left alone. */
  lemma {:induction false} LoggedOutForGood(
      a: Auth, i: int, presented: Bytes, jti: Bytes, ops: seq<Op>, c: Claims, k: nat)
    requires Inv(a) && -1 <= i < |a.tokens| && k < |a.tokens|
    requires if i < 0 then forall j :: 0 <= j < |a.tokens| ==> a.tokens[j].hash != presented
             else a.tokens[i].hash == presented
    ensures var b := Apply(a, Op.Logout(presented, jti)).0;
            && (jti != [] && c.jti == jti ==> Validate(Run(b, ops), c) != Valid)
            && |b.tokens| == |a.tokens| && b.users == a.users
            && (i >= 0 && a.tokens[k].familyId == a.tokens[i].familyId ==> RefreshRefused(Run(b, ops), a.tokens[k]))
            && (i < 0 || a.tokens[k].familyId != a.tokens[i].familyId ==> b.tokens[k] == a.tokens[k])
  {
    var op := Op.Logout(presented, jti);
    var b := Apply(a, op).0;
    DeniedStep(a, op);
    DeniedGrows(b, ops);
    LogoutRows(a, i, presented, jti, k);
    StepKeepsInv(a, op);
    RunKeepsInv(b, ops);
    hide Apply, RT.DoRotate, RT.Inv, RT.Grows;
    if i >= 0 && a.tokens[k].familyId == a.tokens[i].familyId {
      forall next, now
        ensures RT.DoRotate(Run(b, ops).tokens, a.tokens[k].hash, next, now).1 == RT.Reuse(a.tokens[k].familyId)
      {
        StillSpent(b.tokens, Run(b, ops).tokens, k, next, now);
      }
    }
  }

  lemma {:induction false} LogoutRows(a: Auth, i: int, presented: Bytes, jti: Bytes, k: nat)
    requires RT.Inv(a.tokens) && -1 <= i < |a.tokens| && k < |a.tokens|
    requires if i < 0 then forall j :: 0 <= j < |a.tokens| ==> a.tokens[j].hash != presented
             else a.tokens[i].hash == presented
    ensures var b := Apply(a, Op.Logout(presented, jti)).0;
            && |b.tokens| == |a.tokens| && b.users == a.users
            && b.tokens[k] == if i >= 0 && a.tokens[k].familyId == a.tokens[i].familyId
                              then a.tokens[k].(revoked := true) else a.tokens[k]
  {
    if i >= 0 {
      RO.RowOfHash(a.tokens, i);
    }
    hide RT.PathAt;
  }
}
