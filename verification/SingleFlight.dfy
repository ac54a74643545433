/** The web tier's single-flight refresh, as a state machine over the points where its code can be
    interleaved: every `await`, every network delivery, and the clean-up when a promise settles.

    One state is one web request: its cookie jar, its concurrent `api` calls, the refresh promises it
    created, and the refresh-token table behind the network. A refresh token is named by the hash it
    is looked up by. */
module SingleFlight {
  import opened ByteStrings
  import RT = RefreshTokens

  // ---------------------------------------------------------------- states

  datatype Task =
    | Ready
    | Calling                                  // first call in flight
    | Awaiting(promise: nat)                   // after a 401, waiting for a refresh
    | Retrying(promise: nat, access: Bytes)    // second call in flight, with the refreshed token
    | Returned                                 // first call was not a 401
    | RetriedWith(promise: nat, access: Bytes)
    | Threw(promise: nat)                      // the refresh brought no token

  /** A refresh: request sent, answered by the server (a session, or a refusal), body being parsed,
      settled with the access token or null, or rejected because the answer never arrived. */
  datatype Phase =
    | Sent(presented: Bytes)
    | Answered(reply: Option<(Bytes, Bytes)>)
    | Parsing(access: Bytes, refresh: Bytes)
    | Settled(result: Option<Bytes>)
    | Rejected

  /** `cleaned` tells whether the promise's finally-handler has run. */
  datatype Promise = Promise(phase: Phase, cleaned: bool)

  datatype Request = Request(
    access: Option<Bytes>, refresh: Option<Bytes>,  // the cookies
    tasks: seq<Task>, promises: seq<Promise>, inflight: Option<nat>,
    tokens: RT.Table,
    presented: seq<Bytes>, outcomes: seq<RT.Outcome>,  // what was sent to the server, and how it ended
    foreign: set<Bytes>)                               // tokens that others revoked

  datatype Event =
    | Call(task: nat)
    | FirstReply(task: nat, unauthorized: bool)
    | Serve(promise: nat, next: RT.NewToken, now: int, access: Bytes, accountOk: bool)
    | Deliver(promise: nat)
    | ParseBody(promise: nat)
    | Lose(promise: nat)
    | CleanUp(promise: nat)
    | Resume(task: nat)
    | SecondReply(task: nat)
    | Elsewhere(tokens: RT.Table)  // other sessions at work on the same table

  // ---------------------------------------------------------------- steps

  ghost predicate Enabled(s: Request, ev: Event) {
    match ev
    case Call(i) => i < |s.tasks| && s.tasks[i] == Ready
    case FirstReply(i, _) => i < |s.tasks| && s.tasks[i] == Calling
    case Serve(p, _, _, _, _) => p < |s.promises| && s.promises[p].phase.Sent?
    case Deliver(p) => p < |s.promises| && s.promises[p].phase.Answered?
    case ParseBody(p) => p < |s.promises| && s.promises[p].phase.Parsing?
    case Lose(p) =>
      p < |s.promises| && (s.promises[p].phase.Sent? || s.promises[p].phase.Answered? || s.promises[p].phase.Parsing?)
    case CleanUp(p) =>
      p < |s.promises| && (s.promises[p].phase.Settled? || s.promises[p].phase.Rejected?) && !s.promises[p].cleaned
    case Resume(i) =>
      && i < |s.tasks| && s.tasks[i].Awaiting? && s.tasks[i].promise < |s.promises|
      && (s.promises[s.tasks[i].promise].phase.Settled? || s.promises[s.tasks[i].promise].phase.Rejected?)
    case SecondReply(i) => i < |s.tasks| && s.tasks[i].Retrying?
    case Elsewhere(_) => true
  }

  function SetPhase(s: Request, p: nat, phase: Phase): Request
    requires p < |s.promises|
  {
    s.(promises := s.promises[p := s.promises[p].(phase := phase)])
  }

  /** `refresh(cookies)`: join the refresh in flight, or start one and register it. */
  function StartRefresh(s: Request): (Request, nat) {
    if s.inflight.Some? then (s, s.inflight.value)
    else
      var p := |s.promises|;
      var phase := if s.refresh.None? then Settled(None) else Sent(s.refresh.value);
      (s.(promises := s.promises + [Promise(phase, false)], inflight := Some(p),
          presented := if s.refresh.None? then s.presented else s.presented + [s.refresh.value]), p)
  }

  /** The refresh endpoint: rotate, then look at the account. Any failure is a refusal. */
  function ServeRefresh(s: Request, p: nat, next: RT.NewToken, now: int, access: Bytes, accountOk: bool): Request
    requires p < |s.promises| && s.promises[p].phase.Sent?
  {
    var (tokens, outcome) := RT.DoRotate(s.tokens, s.promises[p].phase.presented, next, now);
    var reply := if outcome.Rotated? && accountOk then Some((access, next.hash)) else None;
    SetPhase(s.(tokens := tokens, outcomes := s.outcomes + [outcome]), p, Answered(reply))
  }

  function Step(s: Request, ev: Event): Request
    requires Enabled(s, ev)
  {
    match ev
    case Call(i) => s.(tasks := s.tasks[i := Calling])
    case FirstReply(i, unauthorized) =>
      if !unauthorized then s.(tasks := s.tasks[i := Returned])
      else
        var (s', p) := StartRefresh(s);
        s'.(tasks := s.tasks[i := Awaiting(p)])
    case Serve(p, next, now, access, accountOk) => ServeRefresh(s, p, next, now, access, accountOk)
    case Deliver(p) =>
      var reply := s.promises[p].phase.reply;
      if reply.None? then SetPhase(s.(access := None, refresh := None), p, Settled(None))
      else SetPhase(s, p, Parsing(reply.value.0, reply.value.1))
    case ParseBody(p) =>
      var Parsing(access, refresh) := s.promises[p].phase;
      SetPhase(s.(access := Some(access), refresh := Some(refresh)), p, Settled(Some(access)))
    case Lose(p) => SetPhase(s, p, Rejected)
    case CleanUp(p) => s.(promises := s.promises[p := s.promises[p].(cleaned := true)], inflight := None)
    case Resume(i) =>
      var p := s.tasks[i].promise;
      var phase := s.promises[p].phase;
      if phase.Settled? && phase.result.Some? && phase.result.value != []
      then s.(tasks := s.tasks[i := Retrying(p, phase.result.value)])
      else s.(tasks := s.tasks[i := Threw(p)])
    case SecondReply(i) => s.(tasks := s.tasks[i := RetriedWith(s.tasks[i].promise, s.tasks[i].access)])
    case Elsewhere(tokens) => s.(tokens := tokens, foreign := s.foreign + NewlyRevoked(s.tokens, tokens))
  }

  /** The tokens of `a` that are revoked in `b` and were not before. */
  function NewlyRevoked(a: RT.Table, b: RT.Table): set<Bytes> {
    set i | 0 <= i < |a| && i < |b| && !a[i].revoked && b[i].revoked :: a[i].hash
  }

  // ---------------------------------------------------------------- runs

  predicate Alive(tokens: RT.Table, hash: Bytes) {
    var i := RT.IndexOfHash(tokens, hash);
    i >= 0 && !tokens[i].revoked
  }

  predicate Spent(tokens: RT.Table, hash: Bytes) {
    var i := RT.IndexOfHash(tokens, hash);
    i >= 0 && tokens[i].revoked
  }

  predicate InFamily(tokens: RT.Table, hash: Bytes, f: Bytes) {
    var i := RT.IndexOfHash(tokens, hash);
    i >= 0 && tokens[i].familyId == f
  }

  /** A request begins with no calls made, and no refresh cookie or a live one. */
  ghost predicate Begins(s: Request) {
    && (forall i :: 0 <= i < |s.tasks| ==> s.tasks[i] == Ready)
    && s.promises == [] && s.inflight.None? && s.presented == [] && s.outcomes == [] && s.foreign == {}
    && RT.Inv(s.tokens) && (s.refresh.Some? ==> Alive(s.tokens, s.refresh.value))
  }

  /** Answers are delivered. Others may do to the table whatever its own operations can, this request's
      tokens included, unless a family `alone` is given: then they leave that family as it is. */
  ghost predicate Fair(s: Request, ev: Event, alone: Option<Bytes>) {
    && !ev.Lose?
    && (ev.Elsewhere? ==>
          && RT.Inv(ev.tokens) && RT.Grows(s.tokens, ev.tokens)
          && (alone.Some? ==> RT.Family(ev.tokens, alone.value) == RT.Family(s.tokens, alone.value)))
  }

  ghost predicate Reaches(s0: Request, evs: seq<Event>, s: Request, alone: Option<Bytes>)
    decreases |evs|
  {
    if evs == [] then s == s0
    else exists mid {:trigger FairStep(mid, evs[|evs| - 1], s, alone)} ::
           Reaches(s0, evs[..|evs| - 1], mid, alone) && FairStep(mid, evs[|evs| - 1], s, alone)
  }

  ghost predicate FairStep(s: Request, ev: Event, s': Request, alone: Option<Bytes>) {
    Enabled(s, ev) && Fair(s, ev, alone) && s' == Step(s, ev)
  }

  // ---------------------------------------------------------------- the invariant

  predicate Over(phase: Phase) { phase.Settled? || phase.Rejected? }

  /** The refresh is over and brought an access token. */
  predicate Brings(phase: Phase) { phase.Settled? && phase.result.Some? && phase.result.value != [] }

  /** Every promise but the registered one is over and cleaned up. */
  ghost predicate OneInFlight(s: Request) {
    && (s.inflight.Some? ==> s.inflight.value == |s.promises| - 1 && !s.promises[s.inflight.value].cleaned)
    && forall p :: 0 <= p < |s.promises| && s.inflight != Some(p) ==> s.promises[p].cleaned && Over(s.promises[p].phase)
  }

  function PhaseInFlight(s: Request): Phase {
    if s.inflight.Some? && s.inflight.value < |s.promises| then s.promises[s.inflight.value].phase else Settled(None)
  }

  /** The server's last answer was to a rotation that went through. */
  predicate LastRotated(s: Request) {
    s.outcomes != [] && s.outcomes[|s.outcomes| - 1].Rotated?
  }

  /** A token this request has not spent: it is revoked only if others did that. */
  predicate Unspent(s: Request, hash: Bytes) {
    var i := RT.IndexOfHash(s.tokens, hash);
    i >= 0 && (s.tokens[i].revoked <==> hash in s.foreign)
  }

  /** The cookie's token, which this request has rotated. */
  predicate CookieSpent(s: Request) {
    s.refresh.Some? && Spent(s.tokens, s.refresh.value) && s.refresh.value !in s.foreign
  }

  /** What the cookie and the newest refresh say about each other. A refusal leaves the cookie's token
      spent or not, depending on whether the rotation before it went through. */
  ghost predicate CookieMatches(s: Request) {
    match PhaseInFlight(s)
    case Sent(rt) =>
      && s.refresh == Some(rt) && Unspent(s, rt) && |s.presented| == |s.outcomes| + 1
      && s.presented[|s.outcomes|] == rt && rt !in s.presented[..|s.outcomes|]
    case Answered(None) =>
      && |s.presented| == |s.outcomes| && s.refresh.Some?
      && (if LastRotated(s) then CookieSpent(s) else Unspent(s, s.refresh.value))
    case Answered(Some((_, next))) => Replaced(s, next)
    case Parsing(_, next) => Replaced(s, next)
    case _ =>
      && |s.presented| == |s.outcomes|
      && (s.refresh.Some? ==> Unspent(s, s.refresh.value) && s.refresh.value !in s.presented)
  }

  /** The cookie's token has been rotated into `next`, which the jar does not hold yet. */
  ghost predicate Replaced(s: Request, next: Bytes) {
    && |s.presented| == |s.outcomes| && LastRotated(s) && CookieSpent(s)
    && Unspent(s, next) && next !in s.presented
  }

  ghost predicate Distinct(xs: seq<Bytes>) {
    forall i, j :: 0 <= i < j < |xs| ==> xs[i] != xs[j]
  }

  /** Reuse was reported only of tokens that others revoked. */
  ghost predicate History(s: Request) {
    && Distinct(s.presented) && |s.outcomes| <= |s.presented|
    && (forall i :: 0 <= i < |s.presented| ==> RT.IndexOfHash(s.tokens, s.presented[i]) >= 0)
    && (forall h :: h in s.foreign ==> RT.IndexOfHash(s.tokens, h) >= 0)
    && (forall i :: 0 <= i < |s.outcomes| && s.outcomes[i].Reuse? ==> s.presented[i] in s.foreign)
  }

  ghost predicate TaskOk(s: Request, t: Task) {
    && (t.Awaiting? ==> t.promise < |s.promises|)
    && (t.Retrying? || t.RetriedWith? ==>
          t.promise < |s.promises| && s.promises[t.promise].phase == Settled(Some(t.access)) && t.access != [])
    && (t.Threw? ==>
          t.promise < |s.promises| && Over(s.promises[t.promise].phase) && !Brings(s.promises[t.promise].phase))
  }

  ghost predicate Inv(s: Request) {
    && RT.Inv(s.tokens) && OneInFlight(s) && CookieMatches(s) && History(s)
    && forall i :: 0 <= i < |s.tasks| ==> TaskOk(s, s.tasks[i])
  }

  // ---------------------------------------------------------------- the table side

  lemma {:induction false} HashPersists(a: RT.Table, b: RT.Table, hash: Bytes)
    requires RT.Inv(b) && RT.Grows(a, b) && RT.IndexOfHash(a, hash) >= 0
    ensures RT.IndexOfHash(b, hash) == RT.IndexOfHash(a, hash)
  {
    hide RT.PathAt;
    var i, k := RT.IndexOfHash(a, hash), RT.IndexOfHash(b, hash);
    assert b[i].hash == b[k].hash;
  }

  lemma {:induction false} UniqueIndex(tokens: RT.Table, n: nat)
    requires RT.Unique(tokens) && n < |tokens|
    ensures RT.IndexOfHash(tokens, tokens[n].hash) == n
  {
    var k := RT.IndexOfHash(tokens, tokens[n].hash);
    assert tokens[k].hash == tokens[n].hash;
  }

  /** Presenting a live token is never reuse; if it rotates, its successor is live, of the same family and
      new to the table, and the presented one is spent. */
  lemma {:induction false} RotateAlive(tokens: RT.Table, rt: Bytes, next: RT.NewToken, now: int)
    requires RT.Inv(tokens) && Alive(tokens, rt)
    ensures var (tokens', outcome) := RT.DoRotate(tokens, rt, next, now);
            && !outcome.Reuse? && (!outcome.Rotated? ==> tokens' == tokens)
            && (outcome.Rotated? ==>
                  && Alive(tokens', next.hash) && Spent(tokens', rt) && RT.IndexOfHash(tokens, next.hash) < 0
                  && InFamily(tokens', next.hash, tokens[RT.IndexOfHash(tokens, rt)].familyId))
  {
    RotateInv(tokens, rt, next, now);
    var i := RT.IndexOfHash(tokens, rt);
    RT.LiveIsLast(tokens, i);
    hide RT.Family;
    assert RT.PathAt(tokens, tokens[i].familyId);
    var (tokens', outcome) := RT.DoRotate(tokens, rt, next, now);
    if outcome.Rotated? {
      var n := |tokens|;
      assert tokens'[n].hash == next.hash && !tokens'[n].revoked && tokens'[n].familyId == tokens[i].familyId;
      UniqueIndex(tokens', n);
      HashPersists(tokens, tokens', rt);
    }
  }

  lemma {:induction false} RotateInv(tokens: RT.Table, rt: Bytes, next: RT.NewToken, now: int)
    requires RT.Inv(tokens)
    ensures RT.Inv(RT.DoRotate(tokens, rt, next, now).0) && RT.Grows(tokens, RT.DoRotate(tokens, rt, next, now).0)
  {
    hide RT.DoRotate, RT.Inv, RT.Grows;
    RT.RotateKeepsInv(tokens, rt, next, now);
    RT.RotateGrows(tokens, rt, next, now);
  }

  lemma {:induction false} SpentIsReuse(tokens: RT.Table, rt: Bytes, next: RT.NewToken, now: int)
    requires Spent(tokens, rt)
    ensures RT.DoRotate(tokens, rt, next, now).1.Reuse?
  {
    hide RT.Exec, RT.IndexOfHash;
  }

  // ---------------------------------------------------------------- every step keeps the invariant

  /** A served refresh reports reuse if and only if others have revoked the token it presents. */
  lemma {:induction false} ServedExactly(s: Request, ev: Event)
    requires Inv(s) && ev.Serve? && Enabled(s, ev)
    ensures var rt, s' := s.promises[ev.promise].phase.presented, Step(s, ev);
            && |s'.outcomes| == |s.outcomes| + 1
            && (s'.outcomes[|s.outcomes|].Reuse? <==> rt in s.foreign)
  {
    hide RT.Inv, RT.DoRotate;
    var rt := s.promises[ev.promise].phase.presented;
    assert s.inflight == Some(ev.promise) && Unspent(s, rt);
    hide RT.IndexOfHash;
    if rt in s.foreign {
      SpentIsReuse(s.tokens, rt, ev.next, ev.now);
    } else {
      RotateAlive(s.tokens, rt, ev.next, ev.now);
    }
  }

  lemma {:induction false} ServeKeepsInv(s: Request, ev: Event)
    requires Inv(s) && ev.Serve? && Enabled(s, ev)
    ensures Inv(Step(s, ev))
  {
    hide RT.Inv, RT.Grows, RT.DoRotate, RT.IndexOfHash;
    var s', p := Step(s, ev), ev.promise;
    var rt := s.promises[p].phase.presented;
    assert s.inflight == Some(p) && Unspent(s, rt);
    RotateInv(s.tokens, rt, ev.next, ev.now);
    forall h | RT.IndexOfHash(s.tokens, h) >= 0
      ensures RT.IndexOfHash(s'.tokens, h) >= 0
    {
      HashPersists(s.tokens, s'.tokens, h);
    }
    ServedCookie(s, ev);
    ServedExactly(s, ev);
    hide Unspent, Spent, CookieMatches;
    assert History(s') by { ServedHistory(s, s', rt); }
    TasksFollow(s, s');
  }

  lemma {:induction false} ServedHistory(s: Request, s': Request, rt: Bytes)
    requires History(s) && s'.presented == s.presented && s'.foreign == s.foreign
    requires |s.presented| == |s.outcomes| + 1 && s.presented[|s.outcomes|] == rt
    requires |s'.outcomes| == |s.outcomes| + 1 && s'.outcomes[..|s.outcomes|] == s.outcomes
    requires s'.outcomes[|s.outcomes|].Reuse? <==> rt in s.foreign
    requires forall h :: RT.IndexOfHash(s.tokens, h) >= 0 ==> RT.IndexOfHash(s'.tokens, h) >= 0
    ensures History(s')
  {
    hide RT.IndexOfHash;
    forall i | 0 <= i < |s'.outcomes| && s'.outcomes[i].Reuse?
      ensures s'.presented[i] in s'.foreign
    {
      assert i < |s.outcomes| ==> s'.outcomes[..|s.outcomes|][i] == s.outcomes[i];
    }
  }

  lemma {:induction false} ServedCookie(s: Request, ev: Event)
    requires Inv(s) && ev.Serve? && Enabled(s, ev)
    ensures CookieMatches(Step(s, ev))
  {
    hide RT.Inv, RT.Grows, RT.DoRotate, RT.IndexOfHash;
    var s', p := Step(s, ev), ev.promise;
    var rt := s.promises[p].phase.presented;
    assert s.inflight == Some(p) && Unspent(s, rt);
    if rt in s.foreign {
      SpentIsReuse(s.tokens, rt, ev.next, ev.now);
      RotateInv(s.tokens, rt, ev.next, ev.now);
      HashPersists(s.tokens, s'.tokens, rt);
      assert Unspent(s', rt) by { RevokedStays(s.tokens, s'.tokens, rt); }
    } else {
      RotateAlive(s.tokens, rt, ev.next, ev.now);
      assert RT.IndexOfHash(s.tokens, ev.next.hash) < 0 ==> ev.next.hash !in s.foreign && ev.next.hash !in s.presented;
    }
  }

  lemma {:induction false} RevokedStays(a: RT.Table, b: RT.Table, hash: Bytes)
    requires RT.Inv(b) && RT.Grows(a, b) && Spent(a, hash)
    ensures Spent(b, hash)
  {
    hide RT.Inv, RT.IndexOfHash;
    HashPersists(a, b, hash);
  }

  /** Whatever others do, a token is revoked by them or by nobody but this request. */
  lemma {:induction false} HashesSurvive(s: Request, ev: Event, hash: Bytes)
    requires RT.Inv(s.tokens) && ev.Elsewhere? && RT.Inv(ev.tokens) && RT.Grows(s.tokens, ev.tokens)
    requires RT.IndexOfHash(s.tokens, hash) >= 0
    ensures var s' := Step(s, ev);
            && RT.IndexOfHash(s'.tokens, hash) >= 0 && (Unspent(s, hash) ==> Unspent(s', hash))
            && (Spent(s.tokens, hash) && hash !in s.foreign ==> Spent(s'.tokens, hash) && hash !in s'.foreign)
  {
    hide RT.PathAt, RT.IndexOfHash;
    HashPersists(s.tokens, ev.tokens, hash);
    var k := RT.IndexOfHash(s.tokens, hash);
    assert hash in NewlyRevoked(s.tokens, ev.tokens) <==> !s.tokens[k].revoked && ev.tokens[k].revoked;
  }

  lemma {:induction false} NewlyRevokedKnown(a: RT.Table, b: RT.Table, hash: Bytes)
    requires hash in NewlyRevoked(a, b)
    ensures RT.IndexOfHash(a, hash) >= 0
  {
  }

  lemma {:induction false} ElsewhereKeepsInv(s: Request, ev: Event)
    requires Inv(s) && ev.Elsewhere? && RT.Inv(ev.tokens) && RT.Grows(s.tokens, ev.tokens)
    ensures Inv(Step(s, ev))
  {
    hide RT.Inv, RT.IndexOfHash, RT.Grows, Unspent, Spent, NewlyRevoked, CookieMatches;
    var s' := Step(s, ev);
    forall h | h in NewlyRevoked(s.tokens, ev.tokens)
      ensures RT.IndexOfHash(s.tokens, h) >= 0
    {
      NewlyRevokedKnown(s.tokens, ev.tokens, h);
    }
    forall h | RT.IndexOfHash(s.tokens, h) >= 0
      ensures RT.IndexOfHash(ev.tokens, h) >= 0
    {
      HashesSurvive(s, ev, h);
    }
    ElsewhereCookie(s, ev);
    TasksFollow(s, s');
  }

  lemma {:induction false} ElsewhereCookie(s: Request, ev: Event)
    requires RT.Inv(s.tokens) && CookieMatches(s)
    requires ev.Elsewhere? && RT.Inv(ev.tokens) && RT.Grows(s.tokens, ev.tokens)
    ensures CookieMatches(Step(s, ev))
  {
    hide RT.Inv, RT.IndexOfHash, RT.Grows, Unspent, Spent, NewlyRevoked;
    var s' := Step(s, ev);
    forall h
      ensures Unspent(s, h) ==> Unspent(s', h)
      ensures Spent(s.tokens, h) && h !in s.foreign ==> Spent(s'.tokens, h) && h !in s'.foreign
    {
      Known(s, h);
      if RT.IndexOfHash(s.tokens, h) >= 0 {
        HashesSurvive(s, ev, h);
      }
    }
  }

  lemma {:induction false} Known(s: Request, hash: Bytes)
    ensures Unspent(s, hash) || Spent(s.tokens, hash) ==> RT.IndexOfHash(s.tokens, hash) >= 0
  {
  }

  /** Moving one task along keeps the rest, provided its new state is in order. */
  lemma {:induction false} TaskMoves(s: Request, s': Request, i: nat, t: Task)
    requires Inv(s) && i < |s.tasks| && s' == s.(tasks := s.tasks[i := t]) && TaskOk(s, t)
    ensures Inv(s')
  {
    hide RT.Inv, RT.IndexOfHash, Spent, Unspent;
    assert CookieMatches(s') by { SameCookie(s, s'); }
    forall k | 0 <= k < |s'.tasks|
      ensures TaskOk(s', s'.tasks[k])
    {
      assert k != i ==> TaskOk(s, s.tasks[k]);
    }
  }

  lemma {:induction false} SameCookie(s: Request, s': Request)
    requires CookieMatches(s) && s' == s.(tasks := s'.tasks)
    ensures CookieMatches(s')
  {
    assert forall h :: Unspent(s', h) == Unspent(s, h);
  }

  /** A refresh started with nothing in flight is the only one in flight. */
  lemma {:induction false} StartOneInFlight(s: Request)
    requires OneInFlight(s) && s.inflight.None?
    ensures OneInFlight(StartRefresh(s).0)
  {
    var s' := StartRefresh(s).0;
    assert s'.promises[..|s.promises|] == s.promises;
  }

  /** It presents the cookie's token, which was not presented before. */
  lemma {:induction false} StartCookie(s: Request)
    requires CookieMatches(s) && s.inflight.None?
    ensures CookieMatches(StartRefresh(s).0)
  {
    hide RT.IndexOfHash;
    var s' := StartRefresh(s).0;
    if s.refresh.Some? {
      assert s'.presented[..|s.presented|] == s.presented;
      assert Unspent(s', s.refresh.value) == Unspent(s, s.refresh.value);
    }
  }

  lemma {:induction false} StartHistory(s: Request)
    requires CookieMatches(s) && s.inflight.None? && History(s)
    ensures History(StartRefresh(s).0)
  {
    hide RT.IndexOfHash;
  }

  lemma {:induction false} StartRefreshKeepsInv(s: Request)
    requires Inv(s)
    ensures Inv(StartRefresh(s).0) && StartRefresh(s).1 < |StartRefresh(s).0.promises|
    ensures StartRefresh(s).0.tasks == s.tasks
  {
    hide RT.Inv, CookieMatches, History;
    if s.inflight.None? {
      StartOneInFlight(s);
      StartCookie(s);
      StartHistory(s);
      hide OneInFlight;
      TasksFollow(s, StartRefresh(s).0);
    }
  }

  /** Tasks only look at promises that are over, and those do not change. */
  lemma {:induction false} TasksFollow(s: Request, s': Request)
    requires s'.tasks == s.tasks && |s.promises| <= |s'.promises|
    requires forall p :: 0 <= p < |s.promises| && Over(s.promises[p].phase) ==>
               s'.promises[p].phase == s.promises[p].phase
    requires forall i :: 0 <= i < |s.tasks| ==> TaskOk(s, s.tasks[i])
    ensures forall i :: 0 <= i < |s'.tasks| ==> TaskOk(s', s'.tasks[i])
  {
    forall i | 0 <= i < |s'.tasks|
      ensures TaskOk(s', s'.tasks[i])
    {
      assert TaskOk(s, s.tasks[i]);
    }
  }

  /** Delivering an answer, parsing its body, cleaning up: the cookie keeps step. */
  lemma {:induction false} PromiseCookie(s: Request, ev: Event)
    requires ev.Deliver? || ev.ParseBody? || ev.CleanUp?
    requires CookieMatches(s) && OneInFlight(s) && s.inflight == Some(ev.promise) && Enabled(s, ev)
    ensures CookieMatches(Step(s, ev))
  {
    hide RT.IndexOfHash;
    var s' := Step(s, ev);
    assert forall h :: Unspent(s', h) == Unspent(s, h);
    hide Unspent, Spent;
  }

  lemma {:induction false} PromiseMoves(s: Request, ev: Event)
    requires Inv(s) && Enabled(s, ev) && (ev.Deliver? || ev.ParseBody? || ev.CleanUp?)
    ensures Inv(Step(s, ev))
  {
    hide RT.Inv, CookieMatches, RT.IndexOfHash;
    var s' := Step(s, ev);
    assert s.inflight == Some(ev.promise);
    PromiseCookie(s, ev);
    TasksFollow(s, s');
  }

  lemma {:induction false} TaskEventKeepsInv(s: Request, ev: Event)
    requires Inv(s) && Enabled(s, ev) && (ev.Call? || ev.FirstReply? || ev.Resume? || ev.SecondReply?)
    ensures Inv(Step(s, ev))
  {
    hide RT.Inv, CookieMatches, OneInFlight, History;
    var i, s' := ev.task, Step(s, ev);
    assert TaskOk(s, s.tasks[i]);
    if ev.FirstReply? && ev.unauthorized {
      StartRefreshKeepsInv(s);
      hide StartRefresh;
      TaskMoves(StartRefresh(s).0, s', i, Awaiting(StartRefresh(s).1));
    } else {
      TaskMoves(s, s', i, s'.tasks[i]);
    }
  }

  lemma {:induction false} StepKeepsInv(s: Request, ev: Event, alone: Option<Bytes>)
    requires Inv(s) && Enabled(s, ev) && Fair(s, ev, alone)
    ensures Inv(Step(s, ev))
  {
    hide Inv, Step, Enabled, RT.Inv, RT.Grows, RT.Family;
    if ev.Serve? {
      ServeKeepsInv(s, ev);
    } else if ev.Elsewhere? {
      ElsewhereKeepsInv(s, ev);
    } else if ev.Deliver? || ev.ParseBody? || ev.CleanUp? {
      PromiseMoves(s, ev);
    } else {
      TaskEventKeepsInv(s, ev);
    }
  }

  lemma {:induction false} BeginsInv(s: Request)
    requires Begins(s)
    ensures Inv(s)
  {
    hide RT.Inv;
  }

  lemma {:induction false} RunKeepsInv(s0: Request, evs: seq<Event>, s: Request, alone: Option<Bytes>)
    requires Begins(s0) && Reaches(s0, evs, s, alone)
    ensures Inv(s)
    decreases |evs|
  {
    hide Inv, Step, Enabled, Begins, Fair;
    if evs == [] {
      BeginsInv(s0);
    } else {
      var ev := evs[|evs| - 1];
      var mid :| Reaches(s0, evs[..|evs| - 1], mid, alone) && FairStep(mid, ev, s, alone);
      RunKeepsInv(s0, evs[..|evs| - 1], mid, alone);
      StepKeepsInv(mid, ev, alone);
    }
  }

  // ---------------------------------------------------------------- a family left alone

  /** The token an answer under way carries. */
  function NextInFlight(s: Request): Option<Bytes> {
    match PhaseInFlight(s)
    case Answered(Some((_, next))) => Some(next)
    case Parsing(_, next) => Some(next)
    case _ => None
  }

  /** All this request's tokens are of one family, and none that others revoked is. */
  ghost predicate Private(s: Request, f: Bytes) {
    && (forall i :: 0 <= i < |s.presented| ==> InFamily(s.tokens, s.presented[i], f))
    && (s.refresh.Some? ==> InFamily(s.tokens, s.refresh.value, f))
    && (NextInFlight(s).Some? ==> InFamily(s.tokens, NextInFlight(s).value, f))
    && (forall h :: h in s.foreign ==> !InFamily(s.tokens, h, f))
  }

  lemma {:induction false} FamilyPersists(a: RT.Table, b: RT.Table, hash: Bytes, f: Bytes)
    requires RT.Inv(b) && RT.Grows(a, b) && RT.IndexOfHash(a, hash) >= 0
    ensures InFamily(b, hash, f) == InFamily(a, hash, f)
  {
    hide RT.Inv, RT.IndexOfHash;
    HashPersists(a, b, hash);
  }

  /** A family that is as it was has its rows as they were. */
  lemma {:induction false} AloneUnchanged(a: RT.Table, b: RT.Table, i: nat, f: Bytes)
    requires RT.Inv(a) && RT.Grows(a, b) && RT.Family(b, f) == RT.Family(a, f)
    requires i < |a| && b[i].familyId == f
    ensures b[i] == a[i]
  {
    hide RT.PathAt, RT.Family;
    RT.FamilyMembers(b, f, b[i]);
    RT.FamilyMembers(a, f, b[i]);
    var k :| 0 <= k < |a| && a[k] == b[i];
    assert a[k].hash == a[i].hash;
  }

  lemma {:induction false} AloneNotRevoked(a: RT.Table, b: RT.Table, hash: Bytes, f: Bytes)
    requires RT.Inv(a) && RT.Inv(b) && RT.Grows(a, b) && RT.Family(b, f) == RT.Family(a, f)
    requires hash in NewlyRevoked(a, b)
    ensures !InFamily(b, hash, f)
  {
    hide RT.PathAt, RT.Family, RT.IndexOfHash;
    var i :| 0 <= i < |a| && i < |b| && !a[i].revoked && b[i].revoked && a[i].hash == hash;
    UniqueIndex(b, i);
    if b[i].familyId == f {
      AloneUnchanged(a, b, i, f);
    }
  }

  lemma {:induction false} PrivateElsewhere(s: Request, ev: Event, f: Bytes)
    requires Inv(s) && Private(s, f) && ev.Elsewhere? && Fair(s, ev, Some(f))
    ensures Private(Step(s, ev), f)
  {
    hide RT.Inv, RT.IndexOfHash, RT.Grows, RT.Family, NewlyRevoked, CookieMatches;
    var s' := Step(s, ev);
    forall h
      ensures InFamily(s.tokens, h, f) ==> InFamily(ev.tokens, h, f)
      ensures h in s.foreign ==> !InFamily(ev.tokens, h, f)
      ensures h in NewlyRevoked(s.tokens, ev.tokens) ==> !InFamily(ev.tokens, h, f)
    {
      if RT.IndexOfHash(s.tokens, h) >= 0 {
        FamilyPersists(s.tokens, ev.tokens, h, f);
      }
      if h in NewlyRevoked(s.tokens, ev.tokens) {
        AloneNotRevoked(s.tokens, ev.tokens, h, f);
      }
    }
    hide InFamily;
  }

  lemma {:induction false} PrivateServe(s: Request, ev: Event, f: Bytes)
    requires Inv(s) && Private(s, f) && ev.Serve? && Enabled(s, ev)
    ensures Private(Step(s, ev), f)
  {
    hide RT.Inv, RT.IndexOfHash, RT.Grows, RT.DoRotate;
    var s', rt := Step(s, ev), s.promises[ev.promise].phase.presented;
    assert s.inflight == Some(ev.promise) && s.refresh == Some(rt) && Unspent(s, rt);
    RotateInv(s.tokens, rt, ev.next, ev.now);
    forall h
      ensures RT.IndexOfHash(s.tokens, h) >= 0 ==> InFamily(s'.tokens, h, f) == InFamily(s.tokens, h, f)
    {
      if RT.IndexOfHash(s.tokens, h) >= 0 {
        FamilyPersists(s.tokens, s'.tokens, h, f);
      }
    }
    RotateAlive(s.tokens, rt, ev.next, ev.now);
    hide CookieMatches;
  }

  lemma {:induction false} PrivateStep(s: Request, ev: Event, f: Bytes)
    requires Inv(s) && Private(s, f) && Enabled(s, ev) && Fair(s, ev, Some(f))
    ensures Private(Step(s, ev), f)
  {
    hide RT.Inv, RT.Grows, RT.Family;
    if ev.Serve? {
      PrivateServe(s, ev, f);
    } else if ev.Elsewhere? {
      PrivateElsewhere(s, ev, f);
    } else {
      hide InFamily;
      PrivateLocal(s, ev, f);
    }
  }

  /** Steps of the request itself present the cookie's token or take over the one being delivered. */
  lemma {:induction false} PrivateLocal(s: Request, ev: Event, f: Bytes)
    requires OneInFlight(s) && Private(s, f) && Enabled(s, ev) && !ev.Serve? && !ev.Elsewhere? && !ev.Lose?
    ensures Private(Step(s, ev), f)
  {
    if ev.Deliver? || ev.ParseBody? || ev.CleanUp? {
      PromiseTokens(s, ev);
    } else {
      TaskTokens(s, ev);
    }
    hide InFamily, NextInFlight, Step;
  }

  lemma {:induction false} PromiseTokens(s: Request, ev: Event)
    requires OneInFlight(s) && Enabled(s, ev) && (ev.Deliver? || ev.ParseBody? || ev.CleanUp?)
    ensures var s' := Step(s, ev);
            && s'.tokens == s.tokens && s'.foreign == s.foreign && s'.presented == s.presented
            && (NextInFlight(s').None? || NextInFlight(s') == NextInFlight(s))
            && (s'.refresh.None? || s'.refresh == s.refresh || s'.refresh == NextInFlight(s))
  {
    assert s.inflight == Some(ev.promise);
  }

  lemma {:induction false} TaskTokens(s: Request, ev: Event)
    requires OneInFlight(s) && Enabled(s, ev) && (ev.Call? || ev.FirstReply? || ev.Resume? || ev.SecondReply?)
    ensures var s' := Step(s, ev);
            && s'.tokens == s.tokens && s'.foreign == s.foreign && s'.refresh == s.refresh
            && (NextInFlight(s').None? || NextInFlight(s') == NextInFlight(s))
            && (s'.presented == s.presented || (s.refresh.Some? && s'.presented == s.presented + [s.refresh.value]))
  {
  }

  lemma {:induction false} RunKeepsPrivate(s0: Request, evs: seq<Event>, s: Request, f: Bytes)
    requires Begins(s0) && (s0.refresh.Some? ==> InFamily(s0.tokens, s0.refresh.value, f))
    requires Reaches(s0, evs, s, Some(f))
    ensures Private(s, f)
    decreases |evs|
  {
    hide Inv, Step, Enabled, Fair, RT.Inv, InFamily;
    if evs == [] {
    } else {
      var ev := evs[|evs| - 1];
      var mid :| Reaches(s0, evs[..|evs| - 1], mid, Some(f)) && FairStep(mid, ev, s, Some(f));
      hide Begins, Private;
      RunKeepsPrivate(s0, evs[..|evs| - 1], mid, f);
      RunKeepsInv(s0, evs[..|evs| - 1], mid, Some(f));
      PrivateStep(mid, ev, f);
    }
  }

  // ---------------------------------------------------------------- theorems

  /** Two calls retried after awaiting one and the same refresh. */
  predicate ShareRefresh(t: Task, u: Task) {
    (t.Retrying? || t.RetriedWith?) && (u.Retrying? || u.RetriedWith?) && t.promise == u.promise
  }

  /** Under every interleaving in which answers are delivered, whatever others do to the table: no refresh
      token is presented twice, calls that shared a refresh retry with one access token, and the store
      takes its reuse branch only on a token that others revoked. */
  lemma {:induction false} NeverSpentTwice(s0: Request, evs: seq<Event>, s: Request, alone: Option<Bytes>)
    requires Begins(s0) && Reaches(s0, evs, s, alone)
    ensures Distinct(s.presented) && |s.outcomes| <= |s.presented|
    ensures forall i :: 0 <= i < |s.outcomes| && s.outcomes[i].Reuse? ==> s.presented[i] in s.foreign
    ensures forall i, j ::
              0 <= i < |s.tasks| && 0 <= j < |s.tasks| && ShareRefresh(s.tasks[i], s.tasks[j]) ==>
              s.tasks[i].access == s.tasks[j].access
  {
    RunKeepsInv(s0, evs, s, alone);
    hide RT.Inv, Reaches, CookieMatches, OneInFlight;
    forall i | 0 <= i < |s.tasks|
      ensures TaskOk(s, s.tasks[i])
    {
    }
  }

  /** So when others leave the request's family alone, it never takes that branch at all. */
  lemma {:induction false} AloneNeverReused(s0: Request, evs: seq<Event>, s: Request, f: Bytes)
    requires Begins(s0) && (s0.refresh.Some? ==> InFamily(s0.tokens, s0.refresh.value, f))
    requires Reaches(s0, evs, s, Some(f))
    ensures forall i :: 0 <= i < |s.outcomes| ==> !s.outcomes[i].Reuse?
  {
    hide Reaches, Begins, InFamily;
    NeverSpentTwice(s0, evs, s, Some(f));
    RunKeepsPrivate(s0, evs, s, f);
  }

  /** And in every state reached, the next refresh served is reported as reuse if and only if others have
      revoked the token it presents. */
  lemma {:induction false} ReuseExactly(s0: Request, evs: seq<Event>, s: Request, alone: Option<Bytes>, ev: Event)
    requires Begins(s0) && Reaches(s0, evs, s, alone) && ev.Serve? && Enabled(s, ev)
    ensures var s' := Step(s, ev);
            && |s'.outcomes| == |s.outcomes| + 1
            && (s'.outcomes[|s.outcomes|].Reuse? <==> s.promises[ev.promise].phase.presented in s.foreign)
  {
    RunKeepsInv(s0, evs, s, alone);
    hide Inv, Reaches, Begins, Step;
    ServedExactly(s, ev);
  }

  /** The request after its refresh `p` is lost and cleaned up, and call `i` meets a 401 of its own. */
  function AfterLoss(s: Request, p: nat, i: nat): Request
    requires p < |s.promises| && i < |s.tasks| && s.tasks[i] == Calling
    requires Enabled(s, Lose(p)) && !s.promises[p].cleaned
  {
    Step(Step(Step(s, Lose(p)), CleanUp(p)), FirstReply(i, true))
  }

  /** That answers are delivered is needed, and this is exactly when: the refresh after a loss presents the
      cookie's token again, and the store reports reuse if and only if the server had got as far as
      rotating it, whether it then granted or refused the session, or others have revoked it. A request
      lost on its way there does no harm. */
  lemma {:induction false} LostAnswerExactly(
      s: Request, p: nat, i: nat, next: RT.NewToken, now: int, access: Bytes, accountOk: bool)
    requires Inv(s) && s.inflight == Some(p) && Enabled(s, Lose(p)) && i < |s.tasks| && s.tasks[i] == Calling
    ensures var again := AfterLoss(s, p, i);
            && s.refresh.Some? && again.presented == s.presented + [s.refresh.value]
            && Enabled(again, Serve(p + 1, next, now, access, accountOk))
            && var served := Step(again, Serve(p + 1, next, now, access, accountOk));
               && |served.outcomes| == |s.outcomes| + 1
               && (served.outcomes[|s.outcomes|].Reuse? <==>
                     (!s.promises[p].phase.Sent? && LastRotated(s)) || s.refresh.value in s.foreign)
  {
    CookieInFlight(s, p);
    LossPresentsAgain(s, p, i);
    hide RT.Inv, Inv, AfterLoss, RT.DoRotate, Alive, Spent;
    var again := AfterLoss(s, p, i);
    var rt := s.refresh.value;
    if Alive(s.tokens, rt) {
      RotateAlive(s.tokens, rt, next, now);
    } else {
      SpentIsReuse(s.tokens, rt, next, now);
    }
  }

  /** While a refresh is under way, the cookie's token is revoked if and only if the server has rotated it
      for this request or others have revoked it. */
  lemma {:induction false} CookieInFlight(s: Request, p: nat)
    requires Inv(s) && s.inflight == Some(p) && Enabled(s, Lose(p))
    ensures RT.Inv(s.tokens) && !s.promises[p].cleaned && p == |s.promises| - 1
    ensures s.refresh.Some? && (Alive(s.tokens, s.refresh.value) || Spent(s.tokens, s.refresh.value))
    ensures !Alive(s.tokens, s.refresh.value) <==>
              (!s.promises[p].phase.Sent? && LastRotated(s)) || s.refresh.value in s.foreign
  {
    hide RT.Inv, RT.IndexOfHash;
  }

  lemma {:induction false} LossPresentsAgain(s: Request, p: nat, i: nat)
    requires p == |s.promises| - 1 && s.inflight == Some(p) && i < |s.tasks| && s.tasks[i] == Calling
    requires Enabled(s, Lose(p)) && !s.promises[p].cleaned && s.refresh.Some?
    ensures var again := AfterLoss(s, p, i);
            && |again.promises| == p + 2 && again.promises[p + 1].phase == Sent(s.refresh.value)
            && again.presented == s.presented + [s.refresh.value]
            && again.tokens == s.tokens && again.outcomes == s.outcomes
  {
  }

  // ---------------------------------------------------------------- others at work on the same tokens

  /** A revoke-all of the same user, arriving while the request is on its way, makes the store report
      reuse. */
  lemma {:induction false} ForeignRevocationTripsReuse(
      s: Request, p: nat, next: RT.NewToken, now: int, access: Bytes, accountOk: bool)
    requires Inv(s) && s.inflight == Some(p) && p < |s.promises| && s.promises[p].phase.Sent?
    ensures var rt := s.promises[p].phase.presented;
            var k := RT.IndexOfHash(s.tokens, rt);
            && k >= 0
            && var ev := Elsewhere(RT.Exec(s.tokens, RT.RevokeUser(s.tokens[k].userId)));
               var s' := Step(s, ev);
               && Fair(s, ev, None) && Enabled(s', Serve(p, next, now, access, accountOk))
               && var served := Step(s', Serve(p, next, now, access, accountOk));
                  |served.outcomes| == |s.outcomes| + 1 && served.outcomes[|s.outcomes|].Reuse?
  {
    hide RT.Inv, RT.DoRotate, RT.IndexOfHash, RT.Exec, RT.Grows;
    var rt := s.promises[p].phase.presented;
    var k := RT.IndexOfHash(s.tokens, rt);
    assert k >= 0;
    var u := RT.RevokeUser(s.tokens[k].userId);
    RT.RevokeKeepsInv(s.tokens, u);
    RT.ExecGrows(s.tokens, u);
    HashPersists(s.tokens, RT.Exec(s.tokens, u), rt);
    SpentIsReuse(RT.Exec(s.tokens, u), rt, next, now);
    ServedAfter(s, p, RT.Exec(s.tokens, u), next, now, access, accountOk);
  }

  /** Two requests holding one cookie, which the per-request map keeps apart: once the other has rotated it
      into `other`, this one's refresh is reported as reuse, and the other's new token dies with it. */
  lemma {:induction false} TwoRequestsOneCookie(
      s: Request, p: nat, other: RT.NewToken, now: int, next: RT.NewToken, later: int, access: Bytes, accountOk: bool)
    requires Inv(s) && s.inflight == Some(p) && p < |s.promises| && s.promises[p].phase.Sent?
    requires RT.DoRotate(s.tokens, s.promises[p].phase.presented, other, now).1.Rotated?
    ensures var ev := Elsewhere(RT.DoRotate(s.tokens, s.promises[p].phase.presented, other, now).0);
            var s' := Step(s, ev);
            && Fair(s, ev, None) && Enabled(s', Serve(p, next, later, access, accountOk))
            && var served := Step(s', Serve(p, next, later, access, accountOk));
               && |served.outcomes| == |s.outcomes| + 1 && served.outcomes[|s.outcomes|].Reuse?
               && forall again: RT.NewToken, t: int :: RT.DoRotate(served.tokens, other.hash, again, t).1.Reuse?
  {
    var rt := s.promises[p].phase.presented;
    assert Unspent(s, rt);
    AliveIfRotates(s.tokens, rt, other, now);
    ServedAfter(s, p, RT.DoRotate(s.tokens, rt, other, now).0, next, later, access, accountOk);
    hide Inv, RT.Inv, RT.DoRotate, RT.Grows, RT.IndexOfHash, Alive, Step, Enabled;
    RotateInv(s.tokens, rt, other, now);
    BothDie(s.tokens, rt, other, now, next, later);
  }

  /** A request served after others were at work meets the table they left. */
  lemma {:induction false} ServedAfter(
      s: Request, p: nat, tokens: RT.Table, next: RT.NewToken, now: int, access: Bytes, accountOk: bool)
    requires p < |s.promises| && s.promises[p].phase.Sent?
    ensures var s', ev := Step(s, Elsewhere(tokens)), Serve(p, next, now, access, accountOk);
            var (tokens', outcome) := RT.DoRotate(tokens, s.promises[p].phase.presented, next, now);
            && Enabled(s', ev) && Step(s', ev).tokens == tokens' && Step(s', ev).outcomes == s.outcomes + [outcome]
  {
    hide RT.DoRotate, NewlyRevoked;
  }

  lemma {:induction false} AliveIfRotates(tokens: RT.Table, rt: Bytes, next: RT.NewToken, now: int)
    requires RT.DoRotate(tokens, rt, next, now).1.Rotated?
    ensures Alive(tokens, rt)
  {
    hide RT.Exec, RT.IndexOfHash;
  }

  lemma {:induction false} BothDie(
      tokens: RT.Table, rt: Bytes, other: RT.NewToken, now: int, next: RT.NewToken, later: int)
    requires RT.Inv(tokens) && Alive(tokens, rt) && RT.DoRotate(tokens, rt, other, now).1.Rotated?
    ensures var (tokens', outcome) := RT.DoRotate(RT.DoRotate(tokens, rt, other, now).0, rt, next, later);
            && outcome.Reuse?
            && forall again: RT.NewToken, t: int :: RT.DoRotate(tokens', other.hash, again, t).1.Reuse?
  {
    hide RT.Inv, RT.DoRotate, RT.Grows, RT.IndexOfHash;
    var rotated := RT.DoRotate(tokens, rt, other, now).0;
    RotateInv(tokens, rt, other, now);
    RotateAlive(tokens, rt, other, now);
    SpentIsReuse(rotated, rt, next, later);
    FamilyDies(tokens, rotated, rt, other.hash, next, later);
    forall again: RT.NewToken, t: int
      ensures RT.DoRotate(RT.DoRotate(rotated, rt, next, later).0, other.hash, again, t).1.Reuse?
    {
      SpentIsReuse(RT.DoRotate(rotated, rt, next, later).0, other.hash, again, t);
    }
  }

  /** Presenting a spent token revokes its successor. */
  lemma {:induction false} FamilyDies(
      before: RT.Table, tokens: RT.Table, rt: Bytes, successor: Bytes, next: RT.NewToken, now: int)
    requires RT.Inv(tokens) && RT.Grows(before, tokens) && Spent(tokens, rt) && RT.IndexOfHash(before, rt) >= 0
    requires InFamily(tokens, successor, before[RT.IndexOfHash(before, rt)].familyId)
    ensures Spent(RT.DoRotate(tokens, rt, next, now).0, successor)
  {
    HashPersists(before, tokens, rt);
    RotateInv(tokens, rt, next, now);
    hide RT.Inv;
    HashPersists(tokens, RT.DoRotate(tokens, rt, next, now).0, successor);
  }
}
