/** How a web request's calls end: when the refresh endpoint grants, what that does to cookies and calls, and
    that no call is left waiting. */
module FlightOutcomes {
  import opened ByteStrings
  import RT = RefreshTokens
  import RO = RefreshOutcomes
  import opened SingleFlight

  // ---------------------------------------------------------------- grants and refusals

  /** The presented token is live and unexpired, its successor can be inserted and the account may hold a
      session. */
  predicate Grants(s: Request, rt: Bytes, next: RT.NewToken, now: int, accountOk: bool) {
    var i := RT.IndexOfHash(s.tokens, rt);
    && i >= 0 && !s.tokens[i].revoked && now < s.tokens[i].expiresAt
    && RT.Insertable(s.tokens, next) && accountOk
  }

  /** The endpoint answers with the new pair if and only if it grants. */
  lemma {:induction false} ServedAnswer(s: Request, ev: Event)
    requires RT.Inv(s.tokens) && ev.Serve? && Enabled(s, ev)
    ensures var s', p := Step(s, ev), ev.promise;
            && |s'.promises| == |s.promises| && s'.tasks == s.tasks && s'.inflight == s.inflight
            && s'.access == s.access && s'.refresh == s.refresh
            && s'.promises[p] ==
                 Promise(Answered(if Grants(s, s.promises[p].phase.presented, ev.next, ev.now, ev.accountOk)
                                  then Some((ev.access, ev.next.hash)) else None), s.promises[p].cleaned)
  {
    var rt := s.promises[ev.promise].phase.presented;
    var i := RT.IndexOfHash(s.tokens, rt);
    if i >= 0 {
      RO.RotateExactly(s.tokens, i, ev.next, ev.now);
    } else {
      RO.UnknownNotFound(s.tokens, rt, ev.next, ev.now);
    }
    hide RT.DoRotate, RT.Inv, RT.Insertable, RT.IndexOfHash;
  }

  /** A granted refresh, delivered: both cookies hold the new pair, and a call that waited for it tries again
      with the new access token. */
  lemma {:induction false} GrantedRefreshRetries(s: Request, ev: Event, i: nat)
    requires RT.Inv(s.tokens) && ev.Serve? && Enabled(s, ev) && ev.access != []
    requires i < |s.tasks| && s.tasks[i] == Awaiting(ev.promise)
    requires Grants(s, s.promises[ev.promise].phase.presented, ev.next, ev.now, ev.accountOk)
    ensures var s1, p := Step(s, ev), ev.promise;
            && Enabled(s1, Deliver(p))
            && var s2 := Step(s1, Deliver(p));
               && Enabled(s2, ParseBody(p))
               && var s3 := Step(s2, ParseBody(p));
                  && s3.access == Some(ev.access) && s3.refresh == Some(ev.next.hash)
                  && Enabled(s3, Resume(i)) && Step(s3, Resume(i)).tasks[i] == Retrying(p, ev.access)
  {
    ServedAnswer(s, ev);
    hide RT.DoRotate, RT.Inv, Grants;
    var s1 := Step(s, ev);
    DeliveredPair(s1, ev.promise, i, ev.access, ev.next.hash);
  }

  lemma {:induction false} DeliveredPair(s: Request, p: nat, i: nat, access: Bytes, refresh: Bytes)
    requires p < |s.promises| && s.promises[p].phase == Answered(Some((access, refresh))) && access != []
    requires i < |s.tasks| && s.tasks[i] == Awaiting(p)
    ensures Enabled(s, Deliver(p)) && Enabled(Step(s, Deliver(p)), ParseBody(p))
    ensures var s3 := Step(Step(s, Deliver(p)), ParseBody(p));
            && s3.access == Some(access) && s3.refresh == Some(refresh)
            && Enabled(s3, Resume(i)) && Step(s3, Resume(i)).tasks[i] == Retrying(p, access)
  {
  }

  /** A refused one: both cookies are gone and the call throws. */
  lemma {:induction false} RefusedRefreshThrows(s: Request, ev: Event, i: nat)
    requires RT.Inv(s.tokens) && ev.Serve? && Enabled(s, ev)
    requires i < |s.tasks| && s.tasks[i] == Awaiting(ev.promise)
    requires !Grants(s, s.promises[ev.promise].phase.presented, ev.next, ev.now, ev.accountOk)
    ensures var s1, p := Step(s, ev), ev.promise;
            && Enabled(s1, Deliver(p))
            && var s2 := Step(s1, Deliver(p));
               && s2.access.None? && s2.refresh.None?
               && Enabled(s2, Resume(i)) && Step(s2, Resume(i)).tasks[i] == Threw(p)
  {
    ServedAnswer(s, ev);
    hide RT.DoRotate, RT.Inv, Grants;
    DeliveredRefusal(Step(s, ev), ev.promise, i);
  }

  lemma {:induction false} DeliveredRefusal(s: Request, p: nat, i: nat)
    requires p < |s.promises| && s.promises[p].phase == Answered(None)
    requires i < |s.tasks| && s.tasks[i] == Awaiting(p)
    ensures Enabled(s, Deliver(p))
    ensures var s2 := Step(s, Deliver(p));
            && s2.access.None? && s2.refresh.None?
            && Enabled(s2, Resume(i)) && Step(s2, Resume(i)).tasks[i] == Threw(p)
  {
  }

  /** A call that gets a 401 joins the refresh under way; with none under way it starts one, which goes out
      with the refresh cookie, or is over at once when there is no cookie. */
  lemma {:induction false} UnauthorizedRefreshes(s: Request, i: nat)
    requires OneInFlight(s) && Enabled(s, FirstReply(i, true))
    ensures var s' := Step(s, FirstReply(i, true));
            && s'.tasks[i].Awaiting? && s'.inflight == Some(s'.tasks[i].promise)
            && (s.inflight.Some? ==> s'.promises == s.promises && s'.inflight == s.inflight)
            && (s.inflight.None? ==>
                  && |s'.promises| == |s.promises| + 1
                  && s'.promises[|s.promises|].phase ==
                       if s.refresh.Some? then Sent(s.refresh.value) else Settled(None))
  {
  }

  // ---------------------------------------------------------------- every call ends

  predicate Ended(t: Task) { t.Returned? || t.RetriedWith? || t.Threw? }

  /** The events that are up to this request and its server, all but a loss. */
  predicate Own(ev: Event) { !ev.Elsewhere? && !ev.Lose? }

  /** While some call has not ended, some event is possible that moves the request on: nothing waits for ever. */
  lemma {:induction false} NeverStuck(s: Request, i: nat) returns (ev: Event)
    requires Inv(s) && i < |s.tasks| && !Ended(s.tasks[i])
    ensures Own(ev) && Enabled(s, ev)
  {
    hide RT.Inv, CookieMatches, History;
    var t := s.tasks[i];
    assert TaskOk(s, t);
    if t.Ready? {
      ev := Call(i);
    } else if t.Calling? {
      ev := FirstReply(i, false);
    } else if t.Retrying? {
      ev := SecondReply(i);
    } else {
      var p := t.promise;
      match s.promises[p].phase
      case Sent(_) => ev := Serve(p, RT.NewToken([], [], 0), 0, [], false);
      case Answered(_) => ev := Deliver(p);
      case Parsing(_, _) => ev := ParseBody(p);
      case Settled(_) => ev := Resume(i);
      case Rejected => ev := Resume(i);
    }
  }

  function TaskWork(t: Task): nat {
    match t
    case Ready => 8
    case Calling => 7
    case Awaiting(_) => 2
    case Retrying(_, _) => 1
    case _ => 0
  }

  function PromiseWork(p: Promise): nat {
    (match p.phase
     case Sent(_) => 3
     case Answered(_) => 2
     case Parsing(_, _) => 1
     case _ => 0) + (if p.cleaned then 0 else 1)
  }

  function TasksWork(ts: seq<Task>): nat
    decreases |ts|
  {
    if ts == [] then 0 else TasksWork(ts[..|ts| - 1]) + TaskWork(ts[|ts| - 1])
  }

  function PromisesWork(ps: seq<Promise>): nat
    decreases |ps|
  {
    if ps == [] then 0 else PromisesWork(ps[..|ps| - 1]) + PromiseWork(ps[|ps| - 1])
  }

  function Work(s: Request): nat { TasksWork(s.tasks) + PromisesWork(s.promises) }

  lemma {:induction false} TaskReplaced(ts: seq<Task>, i: nat, t: Task)
    requires i < |ts|
    ensures TasksWork(ts[i := t]) == TasksWork(ts) - TaskWork(ts[i]) + TaskWork(t)
    decreases |ts|
  {
    var n := |ts| - 1;
    if i == n {
      assert ts[i := t][..n] == ts[..n];
    } else {
      assert ts[i := t][..n] == ts[..n][i := t];
      TaskReplaced(ts[..n], i, t);
    }
  }

  lemma {:induction false} PromiseReplaced(ps: seq<Promise>, i: nat, p: Promise)
    requires i < |ps|
    ensures PromisesWork(ps[i := p]) == PromisesWork(ps) - PromiseWork(ps[i]) + PromiseWork(p)
    decreases |ps|
  {
    var n := |ps| - 1;
    if i == n {
      assert ps[i := p][..n] == ps[..n];
    } else {
      assert ps[i := p][..n] == ps[..n][i := p];
      PromiseReplaced(ps[..n], i, p);
    }
  }

  lemma {:induction false} PromiseAdded(ps: seq<Promise>, p: Promise)
    ensures PromisesWork(ps + [p]) == PromisesWork(ps) + PromiseWork(p)
  {
    assert (ps + [p])[..|ps|] == ps;
  }

  lemma {:induction false} ReplyFinishes(s: Request, i: nat, unauthorized: bool)
    requires Enabled(s, FirstReply(i, unauthorized))
    ensures Work(Step(s, FirstReply(i, unauthorized))) < Work(s)
  {
    hide TasksWork, PromisesWork;
    var s' := Step(s, FirstReply(i, unauthorized));
    TaskReplaced(s.tasks, i, s'.tasks[i]);
    if unauthorized && s.inflight.None? {
      PromiseAdded(s.promises, s'.promises[|s.promises|]);
    }
  }

  lemma {:induction false} TaskFinishes(s: Request, ev: Event)
    requires Enabled(s, ev) && (ev.Call? || ev.Resume? || ev.SecondReply?)
    ensures Work(Step(s, ev)) < Work(s)
  {
    hide TasksWork, PromisesWork;
    TaskReplaced(s.tasks, ev.task, Step(s, ev).tasks[ev.task]);
  }

  lemma {:induction false} PromiseFinishes(s: Request, ev: Event)
    requires ev.Serve? || ev.Deliver? || ev.ParseBody? || ev.Lose? || ev.CleanUp?
    requires Enabled(s, ev)
    ensures Work(Step(s, ev)) < Work(s)
  {
    hide TasksWork, PromisesWork, RT.DoRotate;
    PromiseReplaced(s.promises, ev.promise, Step(s, ev).promises[ev.promise]);
  }

  /** Each event but others' leaves less to do, so a request takes at most `Work` steps of its own, and by
      then, never being stuck, every call has ended. */
  lemma {:induction false} EventsFinish(s: Request, ev: Event)
    requires Enabled(s, ev)
    ensures if ev.Elsewhere? then Work(Step(s, ev)) == Work(s) else Work(Step(s, ev)) < Work(s)
  {
    hide Work, Enabled;
    if ev.Call? || ev.Resume? || ev.SecondReply? {
      TaskFinishes(s, ev);
    } else if ev.FirstReply? {
      ReplyFinishes(s, ev.task, ev.unauthorized);
    } else if ev.Elsewhere? {
      OthersLeaveWork(s, ev.tokens);
    } else {
      PromiseFinishes(s, ev);
    }
  }

  lemma {:induction false} OthersLeaveWork(s: Request, tokens: RT.Table)
    ensures Work(Step(s, Elsewhere(tokens))) == Work(s)
  {
    hide TasksWork, PromisesWork, NewlyRevoked;
  }

  /** How a call ended tells what its refresh brought: it tried again with a token if and only if its refresh
      brought one. */
  lemma {:induction false} EndsAsRefreshed(s0: Request, evs: seq<Event>, s: Request, alone: Option<Bytes>, i: nat)
    requires Begins(s0) && Reaches(s0, evs, s, alone) && i < |s.tasks|
    requires s.tasks[i].RetriedWith? || s.tasks[i].Threw?
    ensures s.tasks[i].promise < |s.promises|
    ensures s.tasks[i].RetriedWith? <==> Brings(s.promises[s.tasks[i].promise].phase)
    ensures s.tasks[i].RetriedWith? ==> s.promises[s.tasks[i].promise].phase.result == Some(s.tasks[i].access)
  {
    RunKeepsInv(s0, evs, s, alone);
    hide RT.Inv, Reaches, CookieMatches, OneInFlight, History;
    assert TaskOk(s, s.tasks[i]);
  }
}
