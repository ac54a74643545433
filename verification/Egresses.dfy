/** What consent means for the egresses themselves, which may outlive the rows that stand for them. */
module Egresses {
  import opened ByteStrings
  import opened Contracts
  import opened ConsentLedger
  import opened Recording
  import RecordingOutcomes

  /** An egress of the session is running that nobody has told to stop. */
  ghost predicate Live(s: System, session: Bytes) {
    exists g :: (session, g) in s.live
  }

  ghost predicate LiveGuarded(s: System, session: Bytes) {
    Live(s, session) ==> AllConsent(s, session)
  }

  /** The hook finds this egress on the session's recording in flight, and LiveKit answers. */
  predicate StoppedByHook(s: System, session: Bytes, reply: StopReply, egress: Bytes) {
    var i := ActiveRecording(s.recs, session);
    i >= 0 && HasEgress(s.recs[i]) && s.recs[i].egress.value == egress && reply.Some?
  }

  /** The step is none of two kinds: a withdrawal that leaves some live egress unstopped, and the arrival of
      someone without consent while an egress is live. */
  ghost predicate LiveHarmless(s: System, op: Op, session: Bytes) {
    match op
    case Consent(ask, appended, reply, _) =>
      appended && Withdraws(s, ask.input, session) ==>
        forall g :: (session, g) in s.live ==> StoppedByHook(s, session, reply, g)
    case Join(x, u) =>
      x == session && (x, u) !in s.parts && Live(s, session) ==>
        EffectiveConsent(s.ledger, u, session, SESSION_RECORDING)
    case _ => true
  }

  // ---------------------------------------------------------------- one step

  lemma {:induction false} LiveSame(s: System, s': System, session: Bytes)
    requires s'.live == s.live
    ensures Live(s', session) == Live(s, session)
  {
  }

  lemma {:induction false} FewerLive(s: System, s': System, session: Bytes)
    requires s'.live <= s.live
    ensures Live(s', session) ==> Live(s, session)
  {
    if Live(s', session) {
      var g :| (session, g) in s'.live;
      assert (session, g) in s.live;
    }
  }

  /** A stop ends the egress on the row it is given, if it has one and LiveKit answers, and no other. */
  lemma {:induction false} StopLive(s: System, i: nat, reply: StopReply, stored: bool)
    requires i < |s.recs|
    ensures var s', r := StopRecording(s, i, reply, stored).0, s.recs[i];
            && s'.ledger == s.ledger && s'.parts == s.parts
            && s'.live == if HasEgress(r) && reply.Some? then Without(s.live, r.egress.value) else s.live
  {
    hide Attempt;
  }

  /** After a hook that found the gate closed, the live egresses are those it did not stop. */
  lemma {:induction false} HookLive(s: System, session: Bytes, reply: StopReply, stored: bool)
    requires !RecordingAllowed(s.parts, s.ledger, session)
    ensures var s' := Reconcile(s, session, reply, stored).0;
            && s'.ledger == s.ledger && s'.parts == s.parts
            && forall g :: (session, g) in s'.live <==> (session, g) in s.live && !StoppedByHook(s, session, reply, g)
  {
    hide RecordingAllowed, StopRecording;
    var i := ActiveRecording(s.recs, session);
    if i >= 0 {
      StopLive(s, i, reply, stored);
    }
  }

  lemma {:induction false} ReconcileOnlyEnds(s: System, x: Bytes, reply: StopReply, stored: bool)
    ensures var s' := Reconcile(s, x, reply, stored).0;
            s'.ledger == s.ledger && s'.parts == s.parts && s'.live <= s.live
  {
    hide RecordingAllowed, StopRecording;
    var i := ActiveRecording(s.recs, x);
    if i >= 0 {
      StopLive(s, i, reply, stored);
    }
  }

  lemma {:induction false} ConsentLiveExactly(s: System, op: Op, session: Bytes)
    requires op.Consent? && LiveGuarded(s, session)
    ensures LiveGuarded(Apply(s, op).0, session) <==> LiveHarmless(s, op, session)
  {
    hide AllConsent, RecordingAllowed, Reconcile, Withdraws;
    var s1 := s.(ledger := Asked(s.ledger, op.ask));
    var s' := Reconcile(s1, op.ask.input.sessionId, op.reply, op.stored).0;
    ReconcileOnlyEnds(s1, op.ask.input.sessionId, op.reply, op.stored);
    FewerLive(s, s', session);
    AllConsentFollows(s1, s', session);
    if op.appended && Live(s, session) {
      AppendAllConsent(s, op.ask, session);
      if Withdraws(s, op.ask.input, session) {
        assert op.ask.input.sessionId == session by { WithdrawsHere(s, op.ask.input, session); }
        GateNeedsAll(s1, session);
        HookLive(s1, session, op.reply, op.stored);
        assert forall g :: StoppedByHook(s1, session, op.reply, g) == StoppedByHook(s, session, op.reply, g);
      }
    }
  }

  lemma {:induction false} WithdrawsHere(s: System, input: ConsentInput, session: Bytes)
    requires Withdraws(s, input, session)
    ensures input.sessionId == session
  {
  }

  lemma {:induction false} PeopleLiveExactly(s: System, op: Op, session: Bytes)
    requires (op.Join? || op.Leave?) && LiveGuarded(s, session)
    ensures LiveGuarded(Apply(s, op).0, session) <==> LiveHarmless(s, op, session)
  {
    LiveSame(s, Apply(s, op).0, session);
    if op.Leave? {
      LeavePresent(s, op.session, op.user, session);
    } else {
      JoinPresent(s, op.session, op.user, session);
    }
    hide EffectiveConsent, Live, Present;
  }

  /** A start makes an egress live only in its own session and only behind the gate. */
  lemma {:induction false} StartLive(s: System, op: Op, session: Bytes)
    requires op.Start? && LiveGuarded(s, session)
    ensures LiveGuarded(DoStart(s, op).0, session)
  {
    hide RecordingAllowed, AllConsent, Exec, Attempt, MapStatus;
    var s' := DoStart(s, op).0;
    AllConsentFollows(s, s', session);
    if op.session != session {
      assert forall g :: (session, g) in s'.live ==> (session, g) in s.live;
    } else if s' != s {
      GateNeedsAll(s, session);
    }
  }

  /** Every step keeps consent behind every live egress if and only if it is harmless to it. */
  lemma {:induction false} LiveStepExactly(s: System, op: Op, session: Bytes)
    requires LiveGuarded(s, session)
    ensures LiveGuarded(Apply(s, op).0, session) <==> LiveHarmless(s, op, session)
  {
    hide AllConsent, StopRecording, DoStart, Live;
    match op
    case Start(_, _, _, _, _, _, _, _) => StartLive(s, op, session);
    case Stop(x, _, reply, stored) =>
      var a := ActiveRecording(s.recs, x);
      if a >= 0 {
        StopLive(s, a, reply, stored);
        FewerLive(s, StopRecording(s, a, reply, stored).0, session);
        AllConsentFollows(s, StopRecording(s, a, reply, stored).0, session);
      }
    case Consent(_, _, _, _) => ConsentLiveExactly(s, op, session);
    case Webhook(_, _, _, _) =>
      FewerLive(s, Apply(s, op).0, session);
      AllConsentFollows(s, Apply(s, op).0, session);
    case Join(_, _) => PeopleLiveExactly(s, op, session);
    case Leave(_, _) => PeopleLiveExactly(s, op, session);
  }

  // ---------------------------------------------------------------- every run

  ghost predicate LiveHarmlessRun(s: System, ops: seq<Op>, session: Bytes)
    decreases |ops|
  {
    ops == [] ||
    (LiveHarmlessRun(s, ops[..|ops| - 1], session) && LiveHarmless(Run(s, ops[..|ops| - 1]), ops[|ops| - 1], session))
  }

  ghost predicate LiveGuardedThroughout(s: System, ops: seq<Op>, session: Bytes) {
    forall n :: 0 <= n <= |ops| ==> LiveGuarded(Run(s, ops[..n]), session)
  }

  /** No egress runs without everyone's consent, in any state of a run, if and only if no step of the run is
      a withdrawal that leaves a live egress unstopped or an arrival without consent while one is live. */
  lemma {:induction false} ConsentHoldsWhileLive(s: System, ops: seq<Op>, session: Bytes)
    requires LiveGuarded(s, session)
    ensures LiveGuardedThroughout(s, ops, session) <==> LiveHarmlessRun(s, ops, session)
    decreases |ops|
  {
    hide Apply, LiveGuarded, LiveHarmless;
    if ops == [] {
      assert forall n :: 0 <= n <= |ops| ==> ops[..n] == [];
    } else {
      var init, op := ops[..|ops| - 1], ops[|ops| - 1];
      assert ops[..|ops|] == ops && ops[..|init|] == init && init[..|init|] == init;
      assert forall n {:trigger ops[..n]} {:trigger init[..n]} :: 0 <= n <= |init| ==> ops[..n] == init[..n];
      ConsentHoldsWhileLive(s, init, session);
      assert LiveGuardedThroughout(s, ops, session) <==>
               LiveGuardedThroughout(s, init, session) && LiveGuarded(Run(s, ops), session);
      if LiveGuardedThroughout(s, init, session) {
        assert LiveGuarded(Run(s, init[..|init|]), session);
        LiveStepExactly(Run(s, init), op, session);
      }
    }
  }

  // ---------------------------------------------------------------- when rows speak for egresses

  /** The row stands for this egress, in flight and not told to stop. */
  ghost predicate StandsFor(s: System, i: int, session: Bytes, egress: Bytes) {
    RollingAt(s, session, i) && HasEgress(s.recs[i]) && s.recs[i].egress.value == egress
  }

  ghost predicate Tracked(s: System) {
    forall k :: k in s.live ==> exists i :: StandsFor(s, i, k.0, k.1)
  }

  /** Only recordings in the table were told to stop. */
  ghost predicate StopsKnown(s: System) {
    forall id :: id in s.stopSent ==> exists i :: 0 <= i < |s.recs| && s.recs[i].id == id
  }

  ghost predicate TrackedInv(s: System) {
    OneInFlight(s.recs) && Tracked(s) && StopsKnown(s)
  }

  /** An egress that LiveKit accepts has a name, and the statement that records it goes through. */
  predicate HandsOff(op: Op) {
    op.Start? && op.accepted.Some? && !IsTerminal(MapStatus(op.accepted.value.1)) ==>
      op.stored && op.accepted.value.0 != []
  }

  lemma {:induction false} StopsStayKnown(s: System, s': System)
    requires StopsKnown(s) && Sticky(s.recs, s'.recs)
    requires forall id :: id in s'.stopSent ==> id in s.stopSent || exists i :: 0 <= i < |s.recs| && s.recs[i].id == id
    ensures StopsKnown(s')
  {
    forall id | id in s'.stopSent
      ensures exists i :: 0 <= i < |s'.recs| && s'.recs[i].id == id
    {
      var i :| 0 <= i < |s.recs| && s.recs[i].id == id;
      assert s'.recs[i].id == id;
    }
  }

  /** An update to row `i` leaves the egresses of other rows standing, and its own too while it stays in
      flight and is not told to stop. */
  lemma {:induction false} UpdateTracks(s: System, s': System, i: nat, u: StoreOp, stored: bool)
    requires TrackedInv(s) && i < |s.recs| && u.Update? && u.id == s.recs[i].id
    requires s'.recs == Attempt(s.recs, u, stored) && s'.live <= s.live
    requires s.stopSent <= s'.stopSent <= s.stopSent + {u.id}
    requires forall k :: k in s'.live && HasEgress(s.recs[i]) && k.1 == s.recs[i].egress.value ==>
               !IsTerminal(u.status) && s'.stopSent == s.stopSent
    ensures Tracked(s')
  {
    hide Coalesce;
    assert IndexOfId(s.recs, u.id) == i;
    forall k | k in s'.live
      ensures exists j :: StandsFor(s', j, k.0, k.1)
    {
      var j :| StandsFor(s, j, k.0, k.1);
      assert StandsFor(s', j, k.0, k.1);
    }
  }

  lemma {:induction false} StopTracks(s: System, i: nat, reply: StopReply, stored: bool)
    requires TrackedInv(s) && i < |s.recs|
    ensures TrackedInv(StopRecording(s, i, reply, stored).0)
  {
    hide Attempt, OneInFlight, Tracked;
    var s', r := StopRecording(s, i, reply, stored).0, s.recs[i];
    StopKeeps(s, i, reply, stored);
    StopsStayKnown(s, s');
    if !HasEgress(r) {
      UpdateTracks(s, s', i, Update(r.id, Aborted, true, None, None), stored);
    } else if reply.Some? {
      var status := MapStatus(reply.value.0);
      UpdateTracks(s, s', i, Update(r.id, status, IsTerminal(status), reply.value.1, None), stored);
    }
  }

  lemma {:induction false} WebhookTracks(s: System, op: Op)
    requires TrackedInv(s) && op.Webhook?
    ensures TrackedInv(DoWebhook(s, op))
  {
    hide Exec, OneInFlight;
    var i, status, s' := ByEgress(s.recs, op.egress), MapStatus(op.status), DoWebhook(s, op);
    StepKeeps(s, op);
    StopsStayKnown(s, s');
    if i >= 0 && !IsTerminal(s.recs[i].status) {
      hide Tracked, StopsKnown;
      UpdateTracks(s, s', i, Update(s.recs[i].id, status, IsTerminal(status), op.output, op.error), true);
    } else {
      StandingKept(s, s');
    }
  }

  /** Rows that are there and unchanged go on standing for their egresses. */
  lemma {:induction false} StandingKept(s: System, s': System)
    requires Tracked(s) && s'.live <= s.live && s'.stopSent == s.stopSent && |s.recs| <= |s'.recs|
    requires forall i :: 0 <= i < |s.recs| ==> s'.recs[i] == s.recs[i]
    ensures Tracked(s')
  {
    forall k | k in s'.live
      ensures exists j :: StandsFor(s', j, k.0, k.1)
    {
      var j :| StandsFor(s, j, k.0, k.1);
      assert StandsFor(s', j, k.0, k.1);
    }
  }

  /** The row a start with its hand-off leaves stands for the egress accepted. */
  lemma {:induction false} StartStands(s: System, op: Op)
    requires op.Start? && StopsKnown(s) && HandsOff(op)
    ensures var s' := DoStart(s, op).0;
            || s'.live == s.live
            || (s'.live == s.live + {(op.session, op.accepted.value.0)} &&
                StandsFor(s', |s.recs|, op.session, op.accepted.value.0))
  {
    hide DoStart, MapStatus, RecordingOutcomes.Clear, RecordingOutcomes.Busy, RecordingOutcomes.Known;
    if && RecordingOutcomes.Clear(s, op) && !RecordingOutcomes.Busy(s.recs, op.session)
       && !RecordingOutcomes.Known(s.recs, op.id)
    {
      RecordingOutcomes.StartWrites(s, op);
      assert op.id !in s.stopSent by { FreshNotStopped(s, op.id); }
    } else {
      RecordingOutcomes.StartRefused(s, op);
    }
  }

  lemma {:induction false} FreshNotStopped(s: System, id: Bytes)
    requires StopsKnown(s) && !RecordingOutcomes.Known(s.recs, id)
    ensures id !in s.stopSent
  {
  }

  lemma {:induction false} StartTracks(s: System, op: Op)
    requires op.Start? && TrackedInv(s) && HandsOff(op)
    ensures TrackedInv(DoStart(s, op).0)
  {
    hide DoStart, OneInFlight, StandsFor;
    var s' := DoStart(s, op).0;
    StartKeeps(s, op);
    StartAddsOneRow(s, op);
    StartStands(s, op);
    StopsStayKnown(s, s');
    StandingKept(s, s'.(live := s.live));
    forall k | k in s'.live
      ensures exists j :: StandsFor(s', j, k.0, k.1)
    {
      if k in s.live {
        var j :| StandsFor(s'.(live := s.live), j, k.0, k.1);
        assert StandsFor(s', j, k.0, k.1) by { StandsAlike(s'.(live := s.live), s', j, k.0, k.1); }
      }
    }
  }

  lemma {:induction false} StandsAlike(s: System, s': System, i: int, session: Bytes, egress: Bytes)
    requires s'.recs == s.recs && s'.stopSent == s.stopSent && StandsFor(s, i, session, egress)
    ensures StandsFor(s', i, session, egress)
  {
  }

  lemma {:induction false} StepTracks(s: System, op: Op)
    requires TrackedInv(s) && HandsOff(op)
    ensures TrackedInv(Apply(s, op).0)
  {
    hide StopRecording, DoStart, DoWebhook, OneInFlight, RecordingAllowed, StopsKnown;
    match op
    case Start(_, _, _, _, _, _, _, _) => StartTracks(s, op);
    case Stop(x, _, reply, stored) =>
      if ActiveRecording(s.recs, x) >= 0 {
        hide Tracked;
        StopTracks(s, ActiveRecording(s.recs, x), reply, stored);
      }
    case Consent(ask, _, reply, stored) =>
      var s1, x := s.(ledger := Asked(s.ledger, ask)), ask.input.sessionId;
      SameRowsTrack(s, s1);
      hide Tracked;
      if ActiveRecording(s.recs, x) >= 0 {
        StopTracks(s1, ActiveRecording(s.recs, x), reply, stored);
      }
    case Webhook(_, _, _, _) =>
      hide Tracked;
      WebhookTracks(s, op);
    case Join(_, _) => SameRowsTrack(s, Apply(s, op).0);
    case Leave(_, _) => SameRowsTrack(s, Apply(s, op).0);
  }

  lemma {:induction false} SameRowsTrack(s: System, s': System)
    requires TrackedInv(s) && s'.recs == s.recs && s'.stopSent == s.stopSent && s'.live == s.live
    ensures TrackedInv(s')
  {
    hide OneInFlight;
    StandingKept(s, s');
  }

  lemma {:induction false} RunTracks(s: System, ops: seq<Op>)
    requires TrackedInv(s) && forall op :: op in ops ==> HandsOff(op)
    ensures TrackedInv(Run(s, ops))
    decreases |ops|
  {
    hide Apply, TrackedInv, HandsOff;
    if ops == [] {
    } else {
      RunTracks(s, ops[..|ops| - 1]);
      assert ops[|ops| - 1] in ops;
      StepTracks(Run(s, ops[..|ops| - 1]), ops[|ops| - 1]);
    }
  }

  /** In every run whose hand-offs go through, whatever else fails, a live egress has its row rolling, so
      that consent behind every rolling recording is consent behind every live egress. */
  lemma {:induction false} RowsSpeakForEgresses(ops: seq<Op>, session: Bytes)
    requires forall op :: op in ops ==> HandsOff(op)
    ensures Live(Run(EMPTY, ops), session) ==> Rolling(Run(EMPTY, ops), session)
    ensures Guarded(Run(EMPTY, ops), session) ==> LiveGuarded(Run(EMPTY, ops), session)
  {
    hide HandsOff, OneInFlight, AllConsent, Run;
    assert OneInFlight(EMPTY.recs) by { NoRows(); }
    RunTracks(EMPTY, ops);
    var s := Run(EMPTY, ops);
    if Live(s, session) {
      var g :| (session, g) in s.live;
      var i :| StandsFor(s, i, (session, g).0, (session, g).1);
      assert RollingAt(s, session, i);
    }
  }

  lemma {:induction false} NoRows()
    ensures OneInFlight([])
  {
  }

  // ---------------------------------------------------------------- the input where they do not

  /** LiveKit accepts the egress and the hand-off statement fails; the participant then withdraws. The hook
      aborts the row, and by the rows nothing is rolling, but the egress runs on, without consent and
      without having been told to stop. */
  lemma {:induction false} LostHandOffOutlivesWithdrawal(via: Ask, session: Bytes, a: Bytes, id: Bytes, egress: Bytes)
    ensures var started := Apply(Ready(via, session, a),
                                 Start(session, id, true, true, 0, Some((egress, EgressActive)), [], false)).0;
            var s := Apply(started, Consent(Decides(via, session, a, false), true, None, true)).0;
            && Guarded(started, session) && LiveGuarded(started, session)
            && !Rolling(s, session) && Guarded(s, session)
            && (session, egress) in s.live && !LiveGuarded(s, session)
  {
    var row := Recording(id, session, None, Starting, None, None, false);
    var started := Ready(via, session, a).(recs := [row], live := {(session, egress)});
    ReadyMeans(via, session, a);
    CreateFirst(id, session);
    var start := Start(session, id, true, true, 0, Some((egress, EgressActive)), [], false);
    assert Apply(Ready(via, session, a), start).0 == started by { hide RecordingAllowed, Exec; }
    ReadyConsents(via, started, session, a);
    AbortedHere(via, started, id, session, a);
    var s := Apply(started, Consent(Decides(via, session, a, false), true, None, true)).0;
    hide Apply, Run;
    assert forall i :: !RollingAt(s, session, i);
    assert !AllConsent(s, session) by {
      AppendDecides(Ready(via, session, a).ledger, Decides(via, session, a, false), a, session, SESSION_RECORDING);
    }
  }
}
