/** What each recording operation answers and writes, row by row. */
module RecordingOutcomes {
  import opened ByteStrings
  import opened Contracts
  import opened ConsentLedger
  import opened Recording

  /** Every status but one has the LiveKit statuses one would expect; the rest count as active. */
  lemma {:induction false} StatusesExactly(lk: EgressStatus)
    ensures MapStatus(lk) == Starting <==> lk == EgressStarting
    ensures MapStatus(lk) == Stopping <==> lk == EgressEnding
    ensures MapStatus(lk) == Completed <==> lk == EgressComplete
    ensures MapStatus(lk) == Failed <==> lk == EgressFailed
    ensures MapStatus(lk) == Aborted <==> lk == EgressAborted || lk == EgressLimitReached
    ensures IsTerminal(MapStatus(lk)) <==>
              lk == EgressComplete || lk == EgressFailed || lk == EgressAborted || lk == EgressLimitReached
  {
  }

  /** The session has a recording in flight. */
  ghost predicate Busy(recs: Table, session: Bytes) {
    exists i :: 0 <= i < |recs| && recs[i].session == session && InFlight(recs[i])
  }

  ghost predicate Known(recs: Table, id: Bytes) {
    exists i :: 0 <= i < |recs| && recs[i].id == id
  }

  lemma {:induction false} ActiveExactly(recs: Table, session: Bytes)
    ensures ActiveRecording(recs, session) >= 0 <==> Busy(recs, session)
  {
  }

  lemma {:induction false} KnownExactly(recs: Table, id: Bytes)
    ensures IndexOfId(recs, id) >= 0 <==> Known(recs, id)
  {
  }

  function InFlightRows(recs: Table): set<int> {
    set i | 0 <= i < |recs| && InFlight(recs[i])
  }

  lemma {:induction false} InFlightAppend(recs: Table, r: Recording)
    ensures |recs| !in InFlightRows(recs)
    ensures InFlightRows(recs + [r]) == if InFlight(r) then InFlightRows(recs) + {|recs|} else InFlightRows(recs)
  {
    assert forall i :: 0 <= i < |recs| ==> (recs + [r])[i] == recs[i];
  }

  lemma {:induction false} CountAppend(recs: Table, r: Recording)
    ensures CountInFlight(recs + [r]) == CountInFlight(recs) + (if InFlight(r) then 1 else 0)
  {
    assert (recs + [r])[..|recs|] == recs;
  }

  lemma {:induction false} CountExactly(recs: Table)
    ensures CountInFlight(recs) == |InFlightRows(recs)|
    decreases |recs|
  {
    if recs == [] {
      assert InFlightRows(recs) == {};
    } else {
      hide CountInFlight, InFlightRows;
      var init, r := recs[..|recs| - 1], recs[|recs| - 1];
      assert recs == init + [r];
      CountExactly(init);
      CountAppend(init, r);
      InFlightAppend(init, r);
    }
  }

  // ---------------------------------------------------------------- starts

  /** A row just inserted, and what the statements after it make of it. */
  lemma {:induction false} CreatedRow(recs: Table, id: Bytes, session: Bytes)
    requires !Known(recs, id) && !Busy(recs, session)
    ensures var created := recs + [Recording(id, session, None, Starting, None, None, false)];
            && Exec(recs, Create(id, session, Starting)) == (created, true)
            && IndexOfId(created, id) == |recs| && ActiveRecording(created, session) == |recs|
  {
    KnownExactly(recs, id);
    ActiveExactly(recs, session);
  }

  lemma {:induction false} LastRow(recs: Table, r: Recording, r': Recording)
    ensures (recs + [r])[|recs| := r'] == recs + [r']
  {
  }

  lemma {:induction false} HandOffWrites(recs: Table, id: Bytes, session: Bytes, egress: Bytes, status: Status)
    requires !Known(recs, id) && !Busy(recs, session)
    ensures Exec(recs + [Recording(id, session, None, Starting, None, None, false)], SetEgress(id, egress, status)) ==
            (recs + [Recording(id, session, Some(egress), status, None, None, false)], true)
  {
    CreatedRow(recs, id, session);
    hide IndexOfId, ActiveRecording;
    LastRow(recs, Recording(id, session, None, Starting, None, None, false),
            Recording(id, session, Some(egress), status, None, None, false));
  }

  lemma {:induction false} RefusalWrites(recs: Table, id: Bytes, session: Bytes, msg: Bytes)
    requires !Known(recs, id) && !Busy(recs, session)
    ensures Exec(recs + [Recording(id, session, None, Starting, None, None, false)],
                 Update(id, Failed, true, None, Some(msg))) ==
            (recs + [Recording(id, session, None, Failed, None, Some(msg), true)], true)
  {
    CreatedRow(recs, id, session);
    hide IndexOfId, ActiveRecording;
    LastRow(recs, Recording(id, session, None, Starting, None, None, false),
            Recording(id, session, None, Failed, None, Some(msg), true));
  }

  /** Nothing stands in the way of a start: the caller is host and not throttled, someone is present and all
      present consent, and the number of recordings in flight is below the cap, if there is one. */
  ghost predicate Clear(s: System, op: Op)
    requires op.Start?
  {
    && op.host && op.admitted
    && Present(s.parts, op.session) != {} && AllConsent(s, op.session)
    && (op.cap == 0 || |InFlightRows(s.recs)| < op.cap)
  }

  lemma {:induction false} ClearMeans(s: System, op: Op)
    requires op.Start?
    ensures Clear(s, op) <==> op.host && op.admitted && RecordingAllowed(s.parts, s.ledger, op.session) &&
                              !(op.cap > 0 && CountInFlight(s.recs) >= op.cap)
  {
    hide RecordingAllowed, Present, EffectiveConsent, CountInFlight;
    GateMeans(s.parts, s.ledger, op.session);
    CountExactly(s.recs);
    hide InFlightRows;
  }

  /** A start that is not clear, or whose session is recording already, or whose id is taken, changes
      nothing and is refused. */
  lemma {:induction false} StartRefused(s: System, op: Op)
    requires op.Start? && (!Clear(s, op) || Busy(s.recs, op.session) || Known(s.recs, op.id))
    ensures var (s', reply) := DoStart(s, op);
            && s' == s
            && (reply == NotHost <==> !op.host)
            && (reply == Throttled <==> op.host && !op.admitted)
            && (reply == AlreadyRecording <==> Clear(s, op) && Busy(s.recs, op.session))
            && (reply == StoreError <==> Clear(s, op) && !Busy(s.recs, op.session))
            && (reply == ConsentRequired <==>
                  op.host && op.admitted && (Present(s.parts, op.session) == {} || !AllConsent(s, op.session)))
            && (reply == OverCapacity <==>
                  && op.host && op.admitted && Present(s.parts, op.session) != {} && AllConsent(s, op.session)
                  && op.cap > 0 && |InFlightRows(s.recs)| >= op.cap)
  {
    ClearMeans(s, op);
    CountExactly(s.recs);
    ActiveExactly(s.recs, op.session);
    KnownExactly(s.recs, op.id);
    GateMeans(s.parts, s.ledger, op.session);
    hide RecordingAllowed, Present, EffectiveConsent, CountInFlight, IndexOfId, ActiveRecording, Busy, Known;
    hide Clear, InFlightRows;
  }

  /** Any other start leaves exactly one new row: with its egress and LiveKit's status if the egress was
      accepted and the hand-off stored, failed and ended with the message if it was refused and that
      stored, and otherwise starting, without egress. */
  lemma {:induction false} StartWrites(s: System, op: Op)
    requires op.Start? && Clear(s, op) && !Busy(s.recs, op.session) && !Known(s.recs, op.id)
    ensures var (s', reply) := DoStart(s, op);
            && s'.ledger == s.ledger && s'.parts == s.parts && s'.stopSent == s.stopSent
            && s'.recs == s.recs + [if !op.stored then Recording(op.id, op.session, None, Starting, None, None, false)
                                    else if op.accepted.None? then
                                      Recording(op.id, op.session, None, Failed, None, Some(op.msg), true)
                                    else Recording(op.id, op.session, Some(op.accepted.value.0),
                                                   MapStatus(op.accepted.value.1), None, None, false)]
            && s'.live == (if op.accepted.Some? && !IsTerminal(MapStatus(op.accepted.value.1))
                           then s.live + {(op.session, op.accepted.value.0)} else s.live)
            && (reply == EgressError <==> op.accepted.None?)
            && (reply == Done <==> op.accepted.Some? && op.stored)
            && (reply == StoreError <==> op.accepted.Some? && !op.stored)
  {
    ClearMeans(s, op);
    CreatedRow(s.recs, op.id, op.session);
    RefusalWrites(s.recs, op.id, op.session, op.msg);
    if op.accepted.Some? {
      HandOffWrites(s.recs, op.id, op.session, op.accepted.value.0, MapStatus(op.accepted.value.1));
    }
    hide Exec, RecordingAllowed, CountInFlight, IndexOfId, ActiveRecording, Busy, Known, Clear, MapStatus;
  }

  /** The two statements a start uses, for any status: an insert is refused exactly by its id or by the index,
      and so, but for the id, is a hand-off, which otherwise writes its own row and no other. */
  lemma {:induction false} StatementsExactly(recs: Table, op: StoreOp)
    requires OneInFlight(recs) && !op.Update?
    ensures var (recs', ok) := Exec(recs, op);
            && (!ok ==> recs' == recs)
            && (op.Create? ==>
                  && (ok <==> !Known(recs, op.id) && (IsTerminal(op.status) || !Busy(recs, op.session)))
                  && (ok ==> recs' == recs + [Recording(op.id, op.session, None, op.status, None, None, false)]))
            && (op.SetEgress? && !Known(recs, op.id) ==> ok && recs' == recs)
            && (op.SetEgress? ==>
                  forall i :: 0 <= i < |recs| && recs[i].id == op.id ==>
                    && (ok <==> IsTerminal(op.status) || InFlight(recs[i]) || !Busy(recs, recs[i].session))
                    && (ok ==> |recs'| == |recs| && recs'[i] == recs[i].(egress := Some(op.egress), status := op.status)
                               && forall k :: 0 <= k < |recs| && k != i ==> recs'[k] == recs[k]))
  {
    KnownExactly(recs, op.id);
    if op.Create? {
      ActiveExactly(recs, op.session);
    } else {
      forall i | 0 <= i < |recs| && recs[i].id == op.id
        ensures IndexOfId(recs, op.id) == i
        ensures ActiveRecording(recs, recs[i].session) == i <==> InFlight(recs[i])
        ensures ActiveRecording(recs, recs[i].session) >= 0 <==> Busy(recs, recs[i].session)
      {
        RowOfId(recs, i);
        ActiveExactly(recs, recs[i].session);
        ActiveIsIt(recs, i);
      }
    }
    hide IndexOfId, ActiveRecording, Busy, Known, OneInFlight;
  }

  lemma {:induction false} ActiveIsIt(recs: Table, i: nat)
    requires OneInFlight(recs) && i < |recs|
    ensures ActiveRecording(recs, recs[i].session) == i <==> InFlight(recs[i])
  {
    var a := ActiveRecording(recs, recs[i].session);
    assert a >= 0 ==> recs[a].session == recs[i].session && InFlight(recs[a]);
  }

  // ---------------------------------------------------------------- updates

  lemma {:induction false} RowOfId(recs: Table, i: nat)
    requires OneInFlight(recs) && i < |recs|
    ensures IndexOfId(recs, recs[i].id) == i
  {
    var k := IndexOfId(recs, recs[i].id);
    assert recs[k].id == recs[i].id;
  }

  /** An update writes its own row, unless that is finished: the status, the output and error it brings
      (keeping what was there where it brings none), and the end if it is one. */
  lemma {:induction false} UpdateWrites(recs: Table, i: nat, u: StoreOp)
    requires OneInFlight(recs) && i < |recs| && u.Update? && u.id == recs[i].id
    ensures var r, recs' := recs[i], Exec(recs, u).0;
            && |recs'| == |recs| && (forall k :: 0 <= k < |recs| && k != i ==> recs'[k] == recs[k])
            && (!InFlight(r) ==> recs'[i] == r)
            && (InFlight(r) ==>
                  && recs'[i] == r.(status := u.status, output := recs'[i].output, error := recs'[i].error,
                                    ended := r.ended || u.terminal)
                  && (if u.output.Some? then recs'[i].output == u.output else recs'[i].output == r.output)
                  && (if u.error.Some? then recs'[i].error == u.error else recs'[i].error == r.error))
  {
    RowOfId(recs, i);
    hide IndexOfId, OneInFlight;
  }

  /** A webhook for row `i`, the newest to carry its egress, brings that row to the status reported, unless it
      is finished, and touches no other; one for an egress that no row carries touches none. */
  lemma {:induction false} WebhookWrites(s: System, op: Op, i: int)
    requires OneInFlight(s.recs) && op.Webhook? && -1 <= i < |s.recs|
    requires i >= 0 ==> s.recs[i].egress == Some(op.egress)
    requires forall j :: i < j < |s.recs| ==> s.recs[j].egress != Some(op.egress)
    ensures var s' := DoWebhook(s, op);
            && s'.ledger == s.ledger && s'.parts == s.parts && s'.stopSent == s.stopSent
            && (forall k :: k in s'.live <==> k in s.live && !(IsTerminal(MapStatus(op.status)) && k.1 == op.egress))
            && |s'.recs| == |s.recs| && (forall k :: 0 <= k < |s.recs| && k != i ==> s'.recs[k] == s.recs[k])
            && (i >= 0 && !InFlight(s.recs[i]) ==> s'.recs[i] == s.recs[i])
            && (i >= 0 && InFlight(s.recs[i]) ==>
                  && s'.recs[i].status == MapStatus(op.status)
                  && s'.recs[i].ended == (s.recs[i].ended || IsTerminal(MapStatus(op.status)))
                  && (op.output.Some? ==> s'.recs[i].output == op.output)
                  && (op.error.Some? ==> s'.recs[i].error == op.error))
  {
    assert ByEgress(s.recs, op.egress) == i;
    if i >= 0 {
      var status := MapStatus(op.status);
      UpdateWrites(s.recs, i, Update(s.recs[i].id, status, IsTerminal(status), op.output, op.error));
    }
    hide Exec, OneInFlight, ByEgress, MapStatus;
  }

  /** Stopping row `i`, in flight: what is answered, and what the row becomes. */
  lemma {:induction false} StopWrites(s: System, i: nat, reply: StopReply, stored: bool)
    requires OneInFlight(s.recs) && i < |s.recs| && InFlight(s.recs[i])
    ensures var (s', answer) := StopRecording(s, i, reply, stored);
            var egress := s.recs[i].egress.Some? && s.recs[i].egress.value != [];
            && |s'.recs| == |s.recs| && (forall k :: 0 <= k < |s.recs| && k != i ==> s'.recs[k] == s.recs[k])
            && (answer == EgressError <==> egress && reply.None?)
            && (answer == StoreError <==> answer != EgressError && !stored)
            && (answer != Done ==> s'.recs == s.recs)
            && (answer == Done && !egress ==> s'.recs[i].status == Aborted && s'.recs[i].ended)
            && (answer == Done && egress ==>
                  && s'.recs[i].status == MapStatus(reply.value.0)
                  && (reply.value.1.Some? ==> s'.recs[i].output == reply.value.1))
            && s'.stopSent == if egress && reply.Some? then s.stopSent + {s.recs[i].id} else s.stopSent
  {
    var r := s.recs[i];
    UpdateWrites(s.recs, i, Update(r.id, Aborted, true, None, None));
    if reply.Some? {
      var status := MapStatus(reply.value.0);
      UpdateWrites(s.recs, i, Update(r.id, status, IsTerminal(status), reply.value.1, None));
    }
    hide Exec, OneInFlight, MapStatus;
  }

  /** The hook acts exactly when a recording is in flight and someone present does not consent, or nobody is
      present; and then it stops that recording. */
  lemma {:induction false} HookActs(s: System, session: Bytes, reply: StopReply, stored: bool)
    ensures if Busy(s.recs, session) && (Present(s.parts, session) == {} || !AllConsent(s, session))
            then var i := ActiveRecording(s.recs, session);
                 i >= 0 && Reconcile(s, session, reply, stored) == StopRecording(s, i, reply, stored)
            else Reconcile(s, session, reply, stored) == (s, Done)
  {
    ActiveExactly(s.recs, session);
    GateMeans(s.parts, s.ledger, session);
    hide RecordingAllowed, Present, EffectiveConsent, StopRecording;
  }

  /** A host's stop is answered by the recording in flight, if there is one; a consent change that is not
      appended changes nothing. */
  lemma {:induction false} StopAnswers(s: System, op: Op)
    requires op.Stop? || (op.Consent? && !op.appended)
    ensures var (s', reply) := Apply(s, op);
            if op.Consent? then s' == s && reply == StoreError
            else
              && (reply == NotHost <==> !op.host) && (reply == NotRecording <==> op.host && !Busy(s.recs, op.session))
              && (reply == NotHost || reply == NotRecording ==> s' == s)
              && (op.host && Busy(s.recs, op.session) ==>
                    && ActiveRecording(s.recs, op.session) >= 0
                    && (s', reply) == StopRecording(s, ActiveRecording(s.recs, op.session), op.reply, op.stored))
  {
    if op.Stop? {
      ActiveExactly(s.recs, op.session);
    }
    hide Busy, Attempt, ActiveRecording;
  }

  // ---------------------------------------------------------------- the cap

  lemma {:induction false} CountOfUpdate(recs: Table, i: nat, r: Recording)
    requires i < |recs| && (InFlight(r) ==> InFlight(recs[i]))
    ensures CountInFlight(recs[i := r]) <= CountInFlight(recs)
    decreases |recs|
  {
    var n := |recs| - 1;
    var recs' := recs[i := r];
    if i == n {
      assert recs'[..n] == recs[..n];
    } else {
      CountOfUpdate(recs[..n], i, r);
      assert recs'[..n] == recs[..n][i := r] && recs'[n] == recs[n];
    }
  }

  lemma {:induction false} CountOfUpdateOp(recs: Table, u: StoreOp)
    requires u.Update?
    ensures CountInFlight(Exec(recs, u).0) <= CountInFlight(recs)
  {
    var i := IndexOfId(recs, u.id);
    hide CountInFlight, IndexOfId, Coalesce;
    if i >= 0 && !IsTerminal(recs[i].status) {
      CountOfUpdate(recs, i, Exec(recs, u).0[i]);
      assert Exec(recs, u).0 == recs[i := Exec(recs, u).0[i]];
    }
  }

  lemma {:induction false} CountOfStop(s: System, i: nat, reply: StopReply, stored: bool)
    requires i < |s.recs|
    ensures CountInFlight(StopRecording(s, i, reply, stored).0.recs) <= CountInFlight(s.recs)
  {
    hide Exec, CountInFlight, MapStatus;
    CountOfUpdateOp(s.recs, Update(s.recs[i].id, Aborted, true, None, None));
    if reply.Some? {
      var status := MapStatus(reply.value.0);
      CountOfUpdateOp(s.recs, Update(s.recs[i].id, status, IsTerminal(status), reply.value.1, None));
    }
  }

  lemma {:induction false} CountOfStart(s: System, op: Op)
    requires op.Start? && op.cap > 0 && CountInFlight(s.recs) <= op.cap
    ensures CountInFlight(DoStart(s, op).0.recs) <= op.cap
  {
    hide CountInFlight, DoStart, Clear, Busy, Known;
    if Clear(s, op) && !Busy(s.recs, op.session) && !Known(s.recs, op.id) {
      StartWrites(s, op);
      ClearMeans(s, op);
      var s' := DoStart(s, op).0;
      CountAppend(s.recs, s'.recs[|s.recs|]);
      assert s'.recs == s.recs + [s'.recs[|s.recs|]];
    } else {
      StartRefused(s, op);
    }
  }

  /** With every start held to one cap, the recordings in flight never exceed it, whatever else happens. */
  lemma {:induction false} CapHolds(s: System, ops: seq<Op>, cap: nat)
    requires cap > 0 && CountInFlight(s.recs) <= cap && forall op :: op in ops && op.Start? ==> op.cap == cap
    ensures CountInFlight(Run(s, ops).recs) <= cap
    decreases |ops|
  {
    hide CountInFlight, StopRecording, DoStart, RecordingAllowed, Exec;
    if ops == [] {
    } else {
      var init, op := ops[..|ops| - 1], ops[|ops| - 1];
      CapHolds(s, init, cap);
      assert op in ops;
      hide Run;
      var t := Run(s, init);
      CountOfStep(t, op, cap);
      assert Run(s, ops) == Apply(t, op).0 by { RunAppend(s, init, op); assert ops == init + [op]; }
    }
  }

  lemma {:induction false} CountOfStep(s: System, op: Op, cap: nat)
    requires cap > 0 && CountInFlight(s.recs) <= cap && (op.Start? ==> op.cap == cap)
    ensures CountInFlight(Apply(s, op).0.recs) <= cap
  {
    hide CountInFlight, StopRecording, DoStart, RecordingAllowed, Exec, Asked;
    match op
    case Start(_, _, _, _, _, _, _, _) => CountOfStart(s, op);
    case Stop(x, _, reply, stored) =>
      if ActiveRecording(s.recs, x) >= 0 {
        CountOfStop(s, ActiveRecording(s.recs, x), reply, stored);
      }
    case Consent(ask, _, reply, stored) =>
      var x := ask.input.sessionId;
      if ActiveRecording(s.recs, x) >= 0 {
        CountOfStop(s.(ledger := Asked(s.ledger, ask)), ActiveRecording(s.recs, x), reply, stored);
      }
    case Webhook(egress, lk, output, error) =>
      var i, status := ByEgress(s.recs, egress), MapStatus(lk);
      if i >= 0 {
        CountOfUpdateOp(s.recs, Update(s.recs[i].id, status, IsTerminal(status), output, error));
      }
    case Join(_, _) =>
    case Leave(_, _) =>
  }
}
