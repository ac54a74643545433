/** What audited operations do to the accounts and what their entries say, user by user and over runs. */
module AuditEffects {
  import opened ByteStrings
  import opened Contracts
  import opened HashChain
  import opened Audit
  import opened Accounts
  import opened AuditStore
  import RT = RefreshTokens

  // ---------------------------------------------------------------- one operation

  /** What the action does: its target is suspended with a new token version and all its refresh tokens
      revoked, or reinstated, or made an instructor or not; nobody else is touched. */
  ghost predicate Effect(m: Mutation, id: Bytes, before: Db, after: Db) {
    && after.users.Keys == before.users.Keys
    && (forall u :: u in before.users && u != id ==> after.users[u] == before.users[u])
    && (id in before.users ==>
          var a, b := before.users[id], after.users[id];
          match m
          case NoMutation => b == a
          case Suspend => b == Account(Suspended, a.canInstruct, a.tokenVersion + 1)
          case Reinstate(_) => b == Account(Active, a.canInstruct, a.tokenVersion)
          case SetInstructor(grant) => b == Account(a.status, grant, a.tokenVersion))
    && |after.tokens| == |before.tokens|
    && (forall k :: 0 <= k < |before.tokens| ==>
          after.tokens[k] ==
          if m.Suspend? && before.tokens[k].userId == id then before.tokens[k].(revoked := true) else before.tokens[k])
  }

  /** The statements go through: a suspension needs its target and a version to move to, a reinstatement of a
      user the adult check. */
  predicate GoesThrough(m: Mutation, id: Bytes, before: Db) {
    match m
    case Suspend => id in before.users && before.users[id].tokenVersion < MAX_VERSION
    case Reinstate(adult) => id in before.users ==> adult
    case _ => true
  }

  lemma {:induction false} MutateExactly(db: Db, id: Bytes, m: Mutation)
    ensures Mutate(db, id, m).Some? <==> GoesThrough(m, id, db)
    ensures GoesThrough(m, id, db) ==> Effect(m, id, db, Mutate(db, id, m).value)
  {
    if GoesThrough(m, id, db) && id in db.users {
      assert Mutate(db, id, m).value.users.Keys == db.users.Keys;
    }
  }

  /** The entry says who did what to whom, when, and under which key it is signed. */
  ghost predicate Says(e: AuditEntry, input: AuditInput, now: int64, signer: Signer) {
    && e.actorId == input.actorId && e.actorRole == input.actorRole && e.action == input.action
    && e.targetType == input.targetType && e.targetId == input.targetId
    && e.occurredAt == now && e.signingKeyId == signer.kid && e.schemaVersion == 1
  }

  /** An audited operation commits if and only if there is a signer, its statements go through, its metadata
      is JSON and the database does not fail. If it commits, its action takes effect and one entry that
      says so, linked to the last, is added; if not, neither log nor accounts change. */
  lemma {:induction false} AuditedExactly(p: Platform, st: State, op: Op)
    requires op.Audited?
    ensures var (st', ok) := Apply(p, st, op);
            var id, meta := op.input.targetId, if op.input.metadata == [] then EMPTY_OBJECT else op.input.metadata;
            && (ok <==> && st.signer.Some? && GoesThrough(op.mutation, id, st.accounts)
                        && Normalise(p.jsonb, meta).Some? && op.fault == NoFault)
            && st'.signer == st.signer
            && if ok then
                 && Effect(op.mutation, id, st.accounts, st'.accounts)
                 && |st'.log| == |st.log| + 1 && st'.log[..|st.log|] == st.log
                 && Says(st'.log[|st.log|], op.input, op.now, st.signer.value)
                 && Normalise(p.jsonb, meta) == Some(st'.log[|st.log|].metadata)
                 && st'.log[|st.log|].prevHash == (if st.log == [] then GENESIS else st.log[|st.log| - 1].entryHash)
               else st'.log == st.log && st'.accounts == st.accounts
  {
    MutateExactly(st.accounts, op.input.targetId, op.mutation);
    hide Mutate, Effect, GoesThrough, EntryHash, SignaturesVerify;
  }

  // ---------------------------------------------------------------- runs

  /** The operations of a run that commit, in order. */
  function Committed(p: Platform, st: State, ops: seq<Op>): (cs: seq<Op>)
    ensures forall c :: c in cs ==> c.Audited?
    decreases |ops|
  {
    if ops == [] then [] else
    var init, op := ops[..|ops| - 1], ops[|ops| - 1];
    Committed(p, st, init) + (if op.Audited? && Apply(p, Run(p, st, init), op).1 then [op] else [])
  }

  /** One more step: either nothing is committed and log and accounts stay, or one operation is. */
  lemma {:induction false} CommittedStep(p: Platform, st: State, ops: seq<Op>)
    requires ops != []
    ensures var init, op := ops[..|ops| - 1], ops[|ops| - 1];
            var mid, end := Run(p, st, init), Run(p, st, ops);
            if op.Audited? && Apply(p, mid, op).1 then
              && Committed(p, st, ops) == Committed(p, st, init) + [op]
              && mid.signer.Some?
              && Effect(op.mutation, op.input.targetId, mid.accounts, end.accounts)
              && |end.log| == |mid.log| + 1 && end.log[..|mid.log|] == mid.log
              && Says(end.log[|mid.log|], op.input, op.now, mid.signer.value)
            else
              && Committed(p, st, ops) == Committed(p, st, init)
              && end.log == mid.log && end.accounts == mid.accounts
  {
    var init, op := ops[..|ops| - 1], ops[|ops| - 1];
    var mid := Run(p, st, init);
    assert Committed(p, st, init) + [] == Committed(p, st, init);
    assert Run(p, st, ops) == Apply(p, mid, op).0;
    if op.Audited? {
      AuditedExactly(p, mid, op);
      hide Apply, Effect, Says;
    }
  }

  /** The entry is that of the action. */
  ghost predicate Records(e: AuditEntry, op: Op)
    requires op.Audited?
  {
    exists signer :: Says(e, op.input, op.now, signer)
  }

  /** The log is what it was, and then one entry for each committed operation, in order. */
  lemma {:induction false} LogRecordsCommitted(p: Platform, st: State, ops: seq<Op>)
    ensures var cs, log := Committed(p, st, ops), Run(p, st, ops).log;
            && |log| == |st.log| + |cs| && log[..|st.log|] == st.log
            && forall k :: 0 <= k < |cs| ==> Records(log[|st.log| + k], cs[k])
    decreases |ops|
  {
    if ops == [] {
    } else {
      LogRecordsCommitted(p, st, ops[..|ops| - 1]);
      CommittedStep(p, st, ops);
      hide Apply, Run, Effect, Says, Committed;
      var init := ops[..|ops| - 1];
      var cs, log, mid := Committed(p, st, ops), Run(p, st, ops).log, Run(p, st, init).log;
      assert log[..|st.log|] == log[..|mid|][..|st.log|];
      if |cs| > |Committed(p, st, init)| {
        forall k | 0 <= k < |cs|
          ensures Records(log[|st.log| + k], cs[k])
        {
          if k < |cs| - 1 {
            assert log[..|mid|][|st.log| + k] == log[|st.log| + k];
          }
        }
      }
    }
  }

  predicate DecidesStatus(op: Op, user: Bytes) {
    op.Audited? && op.input.targetId == user && (op.mutation.Suspend? || op.mutation.Reinstate?)
  }

  predicate DecidesInstructor(op: Op, user: Bytes) {
    op.Audited? && op.input.targetId == user && op.mutation.SetInstructor?
  }

  predicate Suspends(op: Op, user: Bytes) {
    op.Audited? && op.input.targetId == user && op.mutation.Suspend?
  }

  function Suspensions(cs: seq<Op>, user: Bytes): nat
    decreases |cs|
  {
    if cs == [] then 0
    else Suspensions(cs[..|cs| - 1], user) + (if Suspends(cs[|cs| - 1], user) then 1 else 0)
  }

  /** `i` is the last operation to decide the user's status, or -1 when none does. */
  ghost predicate LastStatus(cs: seq<Op>, user: Bytes, i: int) {
    && -1 <= i < |cs| && (i >= 0 ==> DecidesStatus(cs[i], user))
    && forall k :: i < k < |cs| ==> !DecidesStatus(cs[k], user)
  }

  ghost predicate LastInstructor(cs: seq<Op>, user: Bytes, i: int) {
    && -1 <= i < |cs| && (i >= 0 ==> DecidesInstructor(cs[i], user))
    && forall k :: i < k < |cs| ==> !DecidesInstructor(cs[k], user)
  }

  /** What the committed operations make of a user: the last suspension or reinstatement decides the status,
      the last grant or withdrawal the capability, and each suspension moves the token version on. */
  ghost predicate MadeOf(cs: seq<Op>, user: Bytes, before: Account, after: Account) {
    && after.tokenVersion == before.tokenVersion + Suspensions(cs, user)
    && (forall i :: LastStatus(cs, user, i) ==>
          after.status == if i < 0 then before.status else if cs[i].mutation.Suspend? then Suspended else Active)
    && (forall i :: LastInstructor(cs, user, i) ==>
          after.canInstruct == if i < 0 then before.canInstruct else cs[i].mutation.grant)
  }

  lemma {:induction false} MadeOfStep(cs: seq<Op>, op: Op, user: Bytes, before: Account, mid: Account, after: Account)
    requires MadeOf(cs, user, before, mid) && op.Audited?
    requires op.input.targetId != user ==> after == mid
    requires op.input.targetId == user ==>
               match op.mutation
               case NoMutation => after == mid
               case Suspend => after == Account(Suspended, mid.canInstruct, mid.tokenVersion + 1)
               case Reinstate(_) => after == Account(Active, mid.canInstruct, mid.tokenVersion)
               case SetInstructor(grant) => after == Account(mid.status, grant, mid.tokenVersion)
    ensures MadeOf(cs + [op], user, before, after)
  {
    var cs' := cs + [op];
    assert cs'[..|cs'| - 1] == cs && cs'[|cs|] == op;
    forall i | LastStatus(cs', user, i)
      ensures after.status == if i < 0 then before.status else if cs'[i].mutation.Suspend? then Suspended else Active
    {
      LastBefore(cs, op, user, i);
    }
    forall i | LastInstructor(cs', user, i)
      ensures after.canInstruct == if i < 0 then before.canInstruct else cs'[i].mutation.grant
    {
      LastBefore(cs, op, user, i);
    }
  }

  /** What decides last either is the new operation or did so before it. */
  lemma {:induction false} LastBefore(cs: seq<Op>, op: Op, user: Bytes, i: int)
    ensures LastStatus(cs + [op], user, i) ==>
              if i == |cs| then DecidesStatus(op, user) else !DecidesStatus(op, user) && LastStatus(cs, user, i)
    ensures LastInstructor(cs + [op], user, i) ==>
              if i == |cs| then DecidesInstructor(op, user)
              else !DecidesInstructor(op, user) && LastInstructor(cs, user, i)
  {
    var cs' := cs + [op];
    assert cs'[|cs|] == op && forall k :: 0 <= k < |cs| ==> cs'[k] == cs[k];
  }

  /** After any run each account is what the committed operations, in log order, make of it; no account comes
      or goes. */
  lemma {:induction false} AccountsFollowLog(p: Platform, st: State, ops: seq<Op>, user: Bytes)
    ensures var end := Run(p, st, ops);
            && (user in end.accounts.users <==> user in st.accounts.users)
            && (user in st.accounts.users ==>
                  MadeOf(Committed(p, st, ops), user, st.accounts.users[user], end.accounts.users[user]))
    decreases |ops|
  {
    if ops == [] {
    } else {
      var init, op := ops[..|ops| - 1], ops[|ops| - 1];
      AccountsFollowLog(p, st, init, user);
      CommittedStep(p, st, ops);
      hide Apply, Run, Committed, Says, MadeOf;
      var mid, end := Run(p, st, init), Run(p, st, ops);
      if op.Audited? && Apply(p, mid, op).1 {
        assert user in mid.accounts.users <==> user in end.accounts.users;
        if user in st.accounts.users {
          MadeOfStep(Committed(p, st, init), op, user, st.accounts.users[user], mid.accounts.users[user],
                     end.accounts.users[user]);
        }
      }
    }
  }

  /** And a refresh token is revoked after a run if and only if it was before or a committed suspension of
      its user was in it. */
  lemma {:induction false} TokensFollowLog(p: Platform, st: State, ops: seq<Op>, k: nat)
    requires k < |st.accounts.tokens|
    ensures var end, t := Run(p, st, ops).accounts.tokens, st.accounts.tokens[k];
            && |end| == |st.accounts.tokens| && end[k] == t.(revoked := end[k].revoked)
            && (end[k].revoked <==> t.revoked || exists c :: c in Committed(p, st, ops) && Suspends(c, t.userId))
    decreases |ops|
  {
    if ops == [] {
    } else {
      var init, op := ops[..|ops| - 1], ops[|ops| - 1];
      TokensFollowLog(p, st, init, k);
      CommittedStep(p, st, ops);
      hide Apply, Run, Committed, Says;
      var mid := Run(p, st, init);
      if op.Audited? && Apply(p, mid, op).1 {
        assert op in Committed(p, st, ops);
        assert forall c :: c in Committed(p, st, ops) <==> c in Committed(p, st, init) || c == op;
      }
    }
  }
}
