/** Session recording behind the consent gate: the status machine, its store steps, and the reaction
    to consent changes. */
module Recording {
  import opened ByteStrings
  import opened Contracts
  import opened ConsentLedger

  // ---------------------------------------------------------------- statuses

  datatype Status = Starting | Active | Stopping | Completed | Failed | Aborted

  datatype EgressStatus =
    | EgressStarting | EgressActive | EgressEnding | EgressComplete
    | EgressFailed | EgressAborted | EgressLimitReached | EgressOther

  function MapStatus(lk: EgressStatus): Status {
    match lk
    case EgressStarting => Starting
    case EgressActive => Active
    case EgressEnding => Stopping
    case EgressComplete => Completed
    case EgressFailed => Failed
    case EgressAborted => Aborted
    case EgressLimitReached => Aborted
    case EgressOther => Active  // unknown but live
  }

  predicate IsTerminal(s: Status) { s == Completed || s == Failed || s == Aborted }

  predicate InFlight(r: Recording) { !IsTerminal(r.status) }

  // ---------------------------------------------------------------- store steps

  /** One row of recordings, held in start order. `egress` is None until LiveKit accepts it. */
  datatype Recording = Recording(
    id: Bytes, session: Bytes, egress: Option<Bytes>, status: Status,
    output: Option<Bytes>, error: Option<Bytes>, ended: bool)

  type Table = seq<Recording>

  function IndexOfId(recs: Table, id: Bytes): (i: int)
    ensures -1 <= i < |recs| && (i >= 0 ==> recs[i].id == id)
    ensures i < 0 ==> forall j :: 0 <= j < |recs| ==> recs[j].id != id
    decreases |recs|
  {
    if recs == [] then -1
    else if recs[|recs| - 1].id == id then |recs| - 1
    else IndexOfId(recs[..|recs| - 1], id)
  }

  /** The newest in-flight recording of a session, or -1. */
  function ActiveRecording(recs: Table, session: Bytes): (i: int)
    ensures -1 <= i < |recs| && (i >= 0 ==> recs[i].session == session && InFlight(recs[i]))
    ensures i < 0 ==> forall j :: 0 <= j < |recs| && recs[j].session == session ==> !InFlight(recs[j])
    decreases |recs|
  {
    if recs == [] then -1
    else if recs[|recs| - 1].session == session && InFlight(recs[|recs| - 1]) then |recs| - 1
    else ActiveRecording(recs[..|recs| - 1], session)
  }

  /** A row carrying a given egress id, or -1. */
  function ByEgress(recs: Table, egress: Bytes): (i: int)
    ensures -1 <= i < |recs| && (i >= 0 ==> recs[i].egress == Some(egress))
    ensures forall j :: i < j < |recs| ==> recs[j].egress != Some(egress)
    decreases |recs|
  {
    if recs == [] then -1
    else if recs[|recs| - 1].egress == Some(egress) then |recs| - 1
    else ByEgress(recs[..|recs| - 1], egress)
  }

  function CountInFlight(recs: Table): nat
    decreases |recs|
  {
    if recs == [] then 0
    else CountInFlight(recs[..|recs| - 1]) + (if InFlight(recs[|recs| - 1]) then 1 else 0)
  }

  datatype StoreOp =
    | Create(id: Bytes, session: Bytes, status: Status)
    | SetEgress(id: Bytes, egress: Bytes, status: Status)
    | Update(id: Bytes, status: Status, terminal: bool, output: Option<Bytes>, error: Option<Bytes>)

  function Coalesce(a: Option<Bytes>, b: Option<Bytes>): Option<Bytes> { if a.Some? then a else b }

  /** The new table, and whether the statement succeeded. The partial unique index refuses a second
      in-flight row of a session, whether inserted or updated into being; only `Update` refuses to
      touch a terminal row. */
  function Exec(recs: Table, op: StoreOp): (Table, bool) {
    match op
    case Create(id, session, status) =>
      if IndexOfId(recs, id) >= 0 || (!IsTerminal(status) && ActiveRecording(recs, session) >= 0) then (recs, false)
      else (recs + [Recording(id, session, None, status, None, None, false)], true)
    case SetEgress(id, egress, status) =>
      var i := IndexOfId(recs, id);
      if i < 0 then (recs, true)
      else
        var other := ActiveRecording(recs, recs[i].session);
        if !IsTerminal(status) && other >= 0 && other != i then (recs, false)
        else (recs[i := recs[i].(egress := Some(egress), status := status)], true)
    case Update(id, status, terminal, output, error) =>
      var i := IndexOfId(recs, id);
      if i < 0 || IsTerminal(recs[i].status) then (recs, true)
      else (recs[i := recs[i].(status := status, output := Coalesce(output, recs[i].output),
                               error := Coalesce(error, recs[i].error), ended := recs[i].ended || terminal)], true)
  }

  function ExecAll(recs: Table, ops: seq<StoreOp>): Table
    decreases |ops|
  {
    if ops == [] then recs else Exec(ExecAll(recs, ops[..|ops| - 1]), ops[|ops| - 1]).0
  }

  ghost predicate OneInFlight(recs: Table) {
    && (forall i, j :: 0 <= i < j < |recs| ==> recs[i].id != recs[j].id)
    && (forall i, j :: 0 <= i < j < |recs| && recs[i].session == recs[j].session && InFlight(recs[i]) ==>
          !InFlight(recs[j]))
  }

  /** Whatever store steps are interleaved, by whomever, a session has at most one recording in flight. */
  lemma {:induction false} StoreKeepsOneInFlight(recs: Table, ops: seq<StoreOp>)
    requires OneInFlight(recs)
    ensures OneInFlight(ExecAll(recs, ops))
    decreases |ops|
  {
    if ops == [] {
    } else {
      StoreKeepsOneInFlight(recs, ops[..|ops| - 1]);
      ExecKeepsOneInFlight(ExecAll(recs, ops[..|ops| - 1]), ops[|ops| - 1]);
    }
  }

  lemma {:induction false} ExecKeepsOneInFlight(recs: Table, op: StoreOp)
    requires OneInFlight(recs)
    ensures OneInFlight(Exec(recs, op).0)
  {
    hide Coalesce;
    if op.SetEgress? {
      var i := IndexOfId(recs, op.id);
      if i >= 0 {
        var other := ActiveRecording(recs, recs[i].session);
        assert other >= 0 ==>
                 forall j :: 0 <= j < |recs| && j != other && recs[j].session == recs[i].session ==> !InFlight(recs[j]);
      }
    }
  }

  /** Rows stay, and a terminal row is frozen. */
  ghost predicate Sticky(a: Table, b: Table) {
    && |a| <= |b|
    && forall i :: 0 <= i < |a| ==>
         b[i].id == a[i].id && b[i].session == a[i].session && (IsTerminal(a[i].status) ==> b[i] == a[i])
  }

  /** The statement would rewrite a finished recording: a `SetEgress` that names one and differs from
      what it holds, not stopped by the index because another recording is in flight. */
  predicate Reopens(recs: Table, op: StoreOp) {
    op.SetEgress? &&
    var i := IndexOfId(recs, op.id);
    && i >= 0 && IsTerminal(recs[i].status)
    && (recs[i].egress != Some(op.egress) || recs[i].status != op.status)
    && (IsTerminal(op.status) || ActiveRecording(recs, recs[i].session) < 0)
  }

  /** A store step keeps terminal rows frozen exactly when it does not do that. (`SetRecordingEgress` has
      no terminal guard.) */
  lemma {:induction false} ExecSticky(recs: Table, op: StoreOp)
    ensures Sticky(recs, Exec(recs, op).0) <==> !Reopens(recs, op)
  {
    var recs' := Exec(recs, op).0;
    if op.SetEgress? {
      var i := IndexOfId(recs, op.id);
      assert i >= 0 && Exec(recs, op).1 ==> recs'[i] == recs[i].(egress := Some(op.egress), status := op.status);
      if i >= 0 && IsTerminal(recs[i].status) {
        assert ActiveRecording(recs, recs[i].session) != i;
      }
    }
  }

  /** The race that guard would close: a start's hand-off arriving after the row was aborted reopens it. */
  lemma {:induction false} LateHandOffReopens(id: Bytes, session: Bytes, egress: Bytes)
    ensures var aborted := ExecAll([], [Create(id, session, Starting), Update(id, Aborted, true, None, None)]);
            var reopened := Exec(aborted, SetEgress(id, egress, Active)).0;
            |aborted| == 1 && aborted[0].status == Aborted && |reopened| == 1 && reopened[0].status == Active
  {
    var ops := [Create(id, session, Starting), Update(id, Aborted, true, None, None)];
    var r := Recording(id, session, None, Starting, None, None, false);
    assert ops[..1] == [ops[0]] && ops[..1][..0] == [];
    assert ExecAll([], ops[..1]) == [r];
  }

  // ---------------------------------------------------------------- service calls, each one step

  /** `stopSent` holds the recordings whose egress was told to stop. `live` holds, with their sessions, the
      egresses that LiveKit accepted, that it has not reported over, and that were not told to stop.
      Nothing reads either. */
  datatype System = System(
    recs: Table, ledger: seq<ConsentRecord>, parts: Participants, stopSent: set<Bytes>, live: set<(Bytes, Bytes)>)

  datatype Reply =
    | Done | NotHost | Throttled | ConsentRequired | OverCapacity | AlreadyRecording | StoreError | EgressError
    | NotRecording

  /** What StopEgress answers: nothing when the call fails. */
  type StopReply = Option<(EgressStatus, Option<Bytes>)>

  /** `host` and `admitted` tell whether the host check and the start rate limit pass; `cap` is the
      concurrency cap, 0 for none. A consent change is given as it was asked for; `appended`
      tells whether that commits. `stored` tells whether the statement that records the outcome of a
      start or a stop goes through. */
  datatype Op =
    | Start(session: Bytes, id: Bytes, host: bool, admitted: bool, cap: nat,
            accepted: Option<(Bytes, EgressStatus)>, msg: Bytes, stored: bool)
    | Stop(session: Bytes, host: bool, reply: StopReply, stored: bool)
    | Consent(ask: Ask, appended: bool, reply: StopReply, stored: bool)
    | Webhook(egress: Bytes, status: EgressStatus, output: Option<Bytes>, error: Option<Bytes>)
    | Join(session: Bytes, user: Bytes)
    | Leave(session: Bytes, user: Bytes)

  function Attempt(recs: Table, op: StoreOp, stored: bool): Table {
    if stored then Exec(recs, op).0 else recs
  }

  function Without(live: set<(Bytes, Bytes)>, egress: Bytes): set<(Bytes, Bytes)> {
    set k | k in live && k.1 != egress
  }

  predicate HasEgress(r: Recording) { r.egress.Some? && r.egress.value != [] }

  function StopRecording(s: System, i: nat, reply: StopReply, stored: bool): (System, Reply)
    requires i < |s.recs|
  {
    var r := s.recs[i];
    var answer := if stored then Done else StoreError;
    if !HasEgress(r) then
      (s.(recs := Attempt(s.recs, Update(r.id, Aborted, true, None, None), stored)), answer)
    else if reply.None? then (s, EgressError)
    else
      var status := MapStatus(reply.value.0);
      (s.(recs := Attempt(s.recs, Update(r.id, status, IsTerminal(status), reply.value.1, None), stored),
          stopSent := s.stopSent + {r.id}, live := Without(s.live, r.egress.value)), answer)
  }

  function Reconcile(s: System, session: Bytes, reply: StopReply, stored: bool): (System, Reply) {
    var i := ActiveRecording(s.recs, session);
    if i < 0 || RecordingAllowed(s.parts, s.ledger, session) then (s, Done) else StopRecording(s, i, reply, stored)
  }

  function DoStart(s: System, op: Op): (System, Reply)
    requires op.Start?
  {
    if !op.host then (s, NotHost)
    else if !op.admitted then (s, Throttled)
    else if !RecordingAllowed(s.parts, s.ledger, op.session) then (s, ConsentRequired)
    else if op.cap > 0 && CountInFlight(s.recs) >= op.cap then (s, OverCapacity)
    else
      var (recs, ok) := Exec(s.recs, Create(op.id, op.session, Starting));
      if !ok then (s, if ActiveRecording(s.recs, op.session) >= 0 then AlreadyRecording else StoreError)
      else if op.accepted.None? then
        (s.(recs := Attempt(recs, Update(op.id, Failed, true, None, Some(op.msg)), op.stored)), EgressError)
      else
        var (egress, lk) := op.accepted.value;
        (s.(recs := Attempt(recs, SetEgress(op.id, egress, MapStatus(lk)), op.stored),
            live := if IsTerminal(MapStatus(lk)) then s.live else s.live + {(op.session, egress)}),
         if op.stored then Done else StoreError)
  }

  function DoWebhook(s: System, op: Op): System
    requires op.Webhook?
  {
    var i, status := ByEgress(s.recs, op.egress), MapStatus(op.status);
    var s1 := s.(live := if IsTerminal(status) then Without(s.live, op.egress) else s.live);
    if i < 0 || IsTerminal(s.recs[i].status) then s1
    else s1.(recs := Exec(s.recs, Update(s.recs[i].id, status, IsTerminal(status), op.output, op.error)).0)
  }

  /** A consent change commits to the ledger, then the hook reconciles its session. */
  function Apply(s: System, op: Op): (System, Reply) {
    match op
    case Start(_, _, _, _, _, _, _, _) => DoStart(s, op)
    case Stop(session, host, reply, stored) =>
      if !host then (s, NotHost)
      else
        var i := ActiveRecording(s.recs, session);
        if i < 0 then (s, NotRecording) else StopRecording(s, i, reply, stored)
    case Consent(ask, appended, reply, stored) =>
      if !appended then (s, StoreError)
      else Reconcile(s.(ledger := Asked(s.ledger, ask)), ask.input.sessionId, reply, stored)
    case Webhook(_, _, _, _) => (DoWebhook(s, op), Done)
    case Join(session, user) =>
      if (session, user) in s.parts then (s, StoreError)  // one row per participant, also after leaving
      else (s.(parts := s.parts[(session, user) := false]), Done)
    case Leave(session, user) =>
      (if (session, user) in s.parts then s.(parts := s.parts[(session, user) := true]) else s, Done)
  }

  function Run(s: System, ops: seq<Op>): System
    decreases |ops|
  {
    if ops == [] then s else Apply(Run(s, ops[..|ops| - 1]), ops[|ops| - 1]).0
  }

  const EMPTY: System := System([], [], map[], {}, {})

  /** The control plane as an object over its tables. */
  class Service {
    var recs: Table
    var ledger: seq<ConsentRecord>
    var parts: Participants
    ghost var stopSent: set<Bytes>
    ghost var live: set<(Bytes, Bytes)>

    ghost function Contents(): System
      reads this
    {
      System(recs, ledger, parts, stopSent, live)
    }

    constructor ()
      ensures Contents() == EMPTY
    {
      recs, ledger, parts, stopSent, live := [], [], map[], {}, {};
    }

    method StopActive(i: nat, reply: StopReply, stored: bool) returns (r: Reply)
      requires i < |recs|
      modifies this
      ensures (Contents(), r) == StopRecording(old(Contents()), i, reply, stored)
    {
      hide Exec;
      var rec := recs[i];
      if rec.egress.None? || |rec.egress.value| == 0 {
        if !stored {
          return StoreError;
        }
        recs := Exec(recs, Update(rec.id, Aborted, true, None, None)).0;
        return Done;
      }
      if reply.None? {
        return EgressError;
      }
      stopSent, live := stopSent + {rec.id}, Without(live, rec.egress.value);
      var status := MapStatus(reply.value.0);
      if !stored {
        return StoreError;
      }
      recs := Exec(recs, Update(rec.id, status, IsTerminal(status), reply.value.1, None)).0;
      return Done;
    }

    method StopSession(session: Bytes, host: bool, reply: StopReply, stored: bool) returns (r: Reply)
      modifies this
      ensures (Contents(), r) == Apply(old(Contents()), Stop(session, host, reply, stored))
    {
      hide StopRecording;
      if !host {
        return NotHost;
      }
      var i := ActiveRecording(recs, session);
      if i < 0 {
        return NotRecording;
      }
      r := StopActive(i, reply, stored);
    }

    method ReconcileForSession(session: Bytes, reply: StopReply, stored: bool) returns (r: Reply)
      modifies this
      ensures (Contents(), r) == Reconcile(old(Contents()), session, reply, stored)
    {
      hide StopRecording, RecordingAllowed;
      var i := ActiveRecording(recs, session);
      if i < 0 {
        return Done;
      }
      if RecordingAllowed(parts, ledger, session) {
        return Done;
      }
      r := StopActive(i, reply, stored);
    }

    method ConsentChanged(ask: Ask, appended: bool, reply: StopReply, stored: bool) returns (r: Reply)
      modifies this
      ensures (Contents(), r) == Apply(old(Contents()), Consent(ask, appended, reply, stored))
    {
      hide Reconcile;
      if !appended {
        return StoreError;
      }
      ledger := ChainRecord(ask.h, ask.scheme, ask.signer, ledger, ask.now, ask.input);
      r := ReconcileForSession(ask.input.sessionId, reply, stored);
    }

    method StartRecording(op: Op) returns (r: Reply)
      requires op.Start?
      modifies this
      ensures (Contents(), r) == Apply(old(Contents()), op)
    {
      hide Exec, RecordingAllowed;
      if !op.host {
        return NotHost;
      }
      if !op.admitted {
        return Throttled;
      }
      if !RecordingAllowed(parts, ledger, op.session) {
        return ConsentRequired;
      }
      if op.cap > 0 && CountInFlight(recs) >= op.cap {
        return OverCapacity;
      }
      var created := Exec(recs, Create(op.id, op.session, Starting));
      if !created.1 {
        if ActiveRecording(recs, op.session) >= 0 {
          return AlreadyRecording;
        }
        return StoreError;
      }
      recs := created.0;
      if op.accepted.None? {
        if op.stored {
          recs := Exec(recs, Update(op.id, Failed, true, None, Some(op.msg))).0;
        }
        return EgressError;
      }
      var egress, status := op.accepted.value.0, MapStatus(op.accepted.value.1);
      if !IsTerminal(status) {
        live := live + {(op.session, egress)};
      }
      if !op.stored {
        return StoreError;
      }
      recs := Exec(recs, SetEgress(op.id, egress, status)).0;
      return Done;
    }

    method HandleWebhookEvent(op: Op)
      requires op.Webhook?
      modifies this
      ensures Contents() == Apply(old(Contents()), op).0
    {
      hide Exec;
      var i := ByEgress(recs, op.egress);
      var status := MapStatus(op.status);
      if IsTerminal(status) {
        live := Without(live, op.egress);
      }
      if i < 0 {
        return;
      }
      if IsTerminal(recs[i].status) {
        return;
      }
      recs := Exec(recs, Update(recs[i].id, status, IsTerminal(status), op.output, op.error)).0;
    }
  }

  // ---------------------------------------------------------------- what every run keeps

  lemma {:induction false} UpdateKeeps(recs: Table, op: StoreOp, stored: bool)
    requires OneInFlight(recs) && op.Update?
    ensures OneInFlight(Attempt(recs, op, stored)) && Sticky(recs, Attempt(recs, op, stored))
  {
    ExecKeepsOneInFlight(recs, op);
    ExecSticky(recs, op);
    hide Exec;
  }

  /** A start touches no older row: it adds at most one, to its own session. */
  lemma {:induction false} StartAddsOneRow(s: System, op: Op)
    requires op.Start?
    ensures var s' := DoStart(s, op).0;
            && s'.stopSent == s.stopSent && |s.recs| <= |s'.recs| <= |s.recs| + 1
            && (forall i :: 0 <= i < |s.recs| ==> s'.recs[i] == s.recs[i])
            && (|s'.recs| > |s.recs| ==> s'.recs[|s.recs|].session == op.session)
  {
    hide RecordingAllowed, Coalesce, MapStatus, ActiveRecording, CountInFlight;
    var created := Exec(s.recs, Create(op.id, op.session, Starting));
    if created.1 {
      assert IndexOfId(created.0, op.id) == |s.recs|;
    }
  }

  lemma {:induction false} StartKeeps(s: System, op: Op)
    requires OneInFlight(s.recs) && op.Start?
    ensures OneInFlight(DoStart(s, op).0.recs) && Sticky(s.recs, DoStart(s, op).0.recs)
  {
    hide RecordingAllowed, OneInFlight, Exec;
    StartAddsOneRow(s, op);
    var created := Exec(s.recs, Create(op.id, op.session, Starting));
    ExecKeepsOneInFlight(s.recs, Create(op.id, op.session, Starting));
    ExecKeepsOneInFlight(created.0, Update(op.id, Failed, true, None, Some(op.msg)));
    if op.accepted.Some? {
      ExecKeepsOneInFlight(created.0, SetEgress(op.id, op.accepted.value.0, MapStatus(op.accepted.value.1)));
    }
  }

  lemma {:induction false} StopKeeps(s: System, i: nat, reply: StopReply, stored: bool)
    requires OneInFlight(s.recs) && i < |s.recs|
    ensures var recs := StopRecording(s, i, reply, stored).0.recs; OneInFlight(recs) && Sticky(s.recs, recs)
  {
    hide Attempt, OneInFlight;
    var r := s.recs[i];
    UpdateKeeps(s.recs, Update(r.id, Aborted, true, None, None), stored);
    if reply.Some? {
      var status := MapStatus(reply.value.0);
      UpdateKeeps(s.recs, Update(r.id, status, IsTerminal(status), reply.value.1, None), stored);
    }
  }

  lemma {:induction false} StickySame(recs: Table)
    ensures Sticky(recs, recs)
  {
  }

  lemma {:induction false} WebhookKeeps(s: System, op: Op)
    requires OneInFlight(s.recs) && op.Webhook?
    ensures OneInFlight(DoWebhook(s, op).recs) && Sticky(s.recs, DoWebhook(s, op).recs)
  {
    hide Exec, OneInFlight, Sticky;
    StickySame(s.recs);
    var i, status := ByEgress(s.recs, op.egress), MapStatus(op.status);
    if i >= 0 {
      UpdateKeeps(s.recs, Update(s.recs[i].id, status, IsTerminal(status), op.output, op.error), true);
    }
  }

  lemma {:induction false} StepKeeps(s: System, op: Op)
    requires OneInFlight(s.recs)
    ensures OneInFlight(Apply(s, op).0.recs) && Sticky(s.recs, Apply(s, op).0.recs)
  {
    hide Exec, RecordingAllowed, OneInFlight, StopRecording, DoStart, DoWebhook, Asked, Sticky;
    StickySame(s.recs);
    match op
    case Start(_, _, _, _, _, _, _, _) => StartKeeps(s, op);
    case Stop(session, _, reply, stored) =>
      if ActiveRecording(s.recs, session) >= 0 {
        StopKeeps(s, ActiveRecording(s.recs, session), reply, stored);
      }
    case Consent(ask, _, reply, stored) =>
      var x := ask.input.sessionId;
      if ActiveRecording(s.recs, x) >= 0 {
        StopKeeps(s.(ledger := Asked(s.ledger, ask)), ActiveRecording(s.recs, x), reply, stored);
      }
    case Webhook(_, _, _, _) => WebhookKeeps(s, op);
    case Join(_, _) =>
    case Leave(_, _) =>
  }

  /** In every run of service calls, whatever order or repetition webhooks arrive in and whatever
      fails, a session has at most one recording in flight and a finished recording never changes. */
  lemma {:induction false} RunKeeps(s: System, ops: seq<Op>)
    requires OneInFlight(s.recs)
    ensures OneInFlight(Run(s, ops).recs) && Sticky(s.recs, Run(s, ops).recs)
    decreases |ops|
  {
    hide Apply, OneInFlight;
    if ops == [] {
    } else {
      RunKeeps(s, ops[..|ops| - 1]);
      StepKeeps(Run(s, ops[..|ops| - 1]), ops[|ops| - 1]);
    }
  }

  // ---------------------------------------------------------------- consent holds while recording

  /** Everyone present has consented, by their latest record. */
  ghost predicate AllConsent(s: System, session: Bytes) {
    forall u :: u in Present(s.parts, session) ==> EffectiveConsent(s.ledger, u, session, SESSION_RECORDING)
  }

  /** Row `i` is a recording of the session that is under way and that nobody has told to stop. */
  ghost predicate RollingAt(s: System, session: Bytes, i: int) {
    0 <= i < |s.recs| && s.recs[i].session == session && InFlight(s.recs[i]) && s.recs[i].id !in s.stopSent
  }

  ghost predicate Rolling(s: System, session: Bytes) {
    exists i :: RollingAt(s, session, i)
  }

  ghost predicate Guarded(s: System, session: Bytes) {
    Rolling(s, session) ==> AllConsent(s, session)
  }

  /** The decision takes back the consent of someone present. */
  predicate Withdraws(s: System, input: ConsentInput, session: Bytes) {
    && input.sessionId == session && input.purpose == SESSION_RECORDING && !input.granted
    && input.subjectId in Present(s.parts, session)
  }

  /** Stopping this recording takes effect: egress answers, or, where there is none yet, the store does. */
  predicate StopWorks(r: Recording, reply: StopReply, stored: bool) {
    if HasEgress(r) then reply.Some? else stored
  }

  /** The step is none of two kinds: a withdrawal whose stop does not take effect, and the arrival of
      someone without consent, while a recording is rolling. */
  ghost predicate Harmless(s: System, op: Op, session: Bytes) {
    match op
    case Consent(ask, appended, reply, stored) =>
      appended && Withdraws(s, ask.input, session) && Rolling(s, session) ==>
        var i := ActiveRecording(s.recs, session);
        i >= 0 && StopWorks(s.recs[i], reply, stored)
    case Join(x, u) =>
      x == session && (x, u) !in s.parts && Rolling(s, session) ==>
        EffectiveConsent(s.ledger, u, session, SESSION_RECORDING)
    case _ => true
  }

  // ---- what is rolling after a step

  lemma {:induction false} RollingSame(s: System, s': System, session: Bytes)
    requires s'.recs == s.recs && s'.stopSent == s.stopSent
    ensures Rolling(s', session) == Rolling(s, session)
  {
    assert forall i :: RollingAt(s', session, i) == RollingAt(s, session, i);
  }

  /** Rows in flight after an update were in flight before, under the same id. */
  lemma {:induction false} UpdateStartsNothing(s: System, s': System, u: StoreOp, stored: bool, session: Bytes)
    requires u.Update? && s'.recs == Attempt(s.recs, u, stored) && s.stopSent <= s'.stopSent
    ensures Rolling(s', session) ==> Rolling(s, session)
  {
    if Rolling(s', session) {
      var i :| RollingAt(s', session, i);
      assert RollingAt(s, session, i);
    }
  }

  lemma {:induction false} StopStartsNothing(s: System, i: nat, reply: StopReply, stored: bool, session: Bytes)
    requires i < |s.recs|
    ensures var s' := StopRecording(s, i, reply, stored).0;
            s'.ledger == s.ledger && s'.parts == s.parts && (Rolling(s', session) ==> Rolling(s, session))
  {
    hide Attempt, Rolling;
    var s', r := StopRecording(s, i, reply, stored).0, s.recs[i];
    if !HasEgress(r) {
      UpdateStartsNothing(s, s', Update(r.id, Aborted, true, None, None), stored, session);
    } else if reply.Some? {
      var status := MapStatus(reply.value.0);
      UpdateStartsNothing(s, s', Update(r.id, status, IsTerminal(status), reply.value.1, None), stored, session);
    }
  }

  /** What is rolling is the one recording in flight. */
  lemma {:induction false} RollingIsActive(s: System, session: Bytes)
    requires OneInFlight(s.recs) && Rolling(s, session)
    ensures RollingAt(s, session, ActiveRecording(s.recs, session))
  {
    var i :| RollingAt(s, session, i);
    var a := ActiveRecording(s.recs, session);
    assert s.recs[a].session == s.recs[i].session && InFlight(s.recs[a]) && InFlight(s.recs[i]);
  }

  /** Stopping the one recording in flight ends the rolling exactly when the stop takes effect, if it was
      rolling at all. */
  lemma {:induction false} StopEndsRolling(s: System, session: Bytes, reply: StopReply, stored: bool)
    requires OneInFlight(s.recs) && Rolling(s, session)
    ensures var a := ActiveRecording(s.recs, session);
            a >= 0 && (Rolling(StopRecording(s, a, reply, stored).0, session) <==> !StopWorks(s.recs[a], reply, stored))
  {
    RollingIsActive(s, session);
    var a := ActiveRecording(s.recs, session);
    if StopWorks(s.recs[a], reply, stored) {
      StopTakesEffect(s, session, reply, stored);
    } else {
      assert StopRecording(s, a, reply, stored).0 == s;
    }
  }

  lemma {:induction false} StopTakesEffect(s: System, session: Bytes, reply: StopReply, stored: bool)
    requires OneInFlight(s.recs) && ActiveRecording(s.recs, session) >= 0
    requires StopWorks(s.recs[ActiveRecording(s.recs, session)], reply, stored)
    ensures !Rolling(StopRecording(s, ActiveRecording(s.recs, session), reply, stored).0, session)
  {
    hide Coalesce, MapStatus;
    var a := ActiveRecording(s.recs, session);
    var s', r := StopRecording(s, a, reply, stored).0, s.recs[a];
    assert IndexOfId(s.recs, r.id) == a;
    assert forall i :: 0 <= i < |s.recs| && i != a ==> s'.recs[i] == s.recs[i];
    assert forall i :: 0 <= i < |s.recs| && i != a && s.recs[i].session == session ==> !InFlight(s.recs[i]);
    assert forall i :: !RollingAt(s', session, i);
  }

  /** A start elsewhere adds no row to this session. */
  lemma {:induction false} StartElsewhere(s: System, op: Op, session: Bytes)
    requires op.Start? && op.session != session
    ensures Rolling(DoStart(s, op).0, session) ==> Rolling(s, session)
  {
    hide DoStart;
    StartAddsOneRow(s, op);
    var s' := DoStart(s, op).0;
    if Rolling(s', session) {
      var i :| RollingAt(s', session, i);
      assert RollingAt(s, session, i);
    }
  }

  // ---- who is present and consents after a step

  /** On a ledger by which everyone present consents, only a withdrawal changes that. */
  lemma {:induction false} AppendAllConsent(s: System, ask: Ask, session: Bytes)
    requires AllConsent(s, session)
    ensures AllConsent(s.(ledger := Asked(s.ledger, ask)), session) <==> !Withdraws(s, ask.input, session)
  {
    hide EffectiveConsent, Present, Asked;
    var s1 := s.(ledger := Asked(s.ledger, ask));
    forall u
      ensures EffectiveConsent(s1.ledger, u, session, SESSION_RECORDING) ==
              if Concerns(ask.input, u, session, SESSION_RECORDING) then ask.input.granted
              else EffectiveConsent(s.ledger, u, session, SESSION_RECORDING)
    {
      AppendDecides(s.ledger, ask, u, session, SESSION_RECORDING);
    }
  }

  lemma {:induction false} PresentMeans(parts: Participants, session: Bytes, u: Bytes)
    ensures u in Present(parts, session) <==> (session, u) in parts && !parts[(session, u)]
  {
    if (session, u) in parts && !parts[(session, u)] {
      var k := (session, u);
      assert k in parts && k.0 == session && !parts[k] && k.1 == u;
    }
  }

  lemma {:induction false} JoinPresent(s: System, x: Bytes, user: Bytes, session: Bytes)
    ensures Present(Apply(s, Join(x, user)).0.parts, session) ==
            Present(s.parts, session) + (if x == session && (x, user) !in s.parts then {user} else {})
  {
    hide Present;
    var parts := Apply(s, Join(x, user)).0.parts;
    forall u
      ensures u in Present(parts, session) <==>
              u in Present(s.parts, session) || (x == session && u == user && (x, user) !in s.parts)
    {
      PresentMeans(parts, session, u);
      PresentMeans(s.parts, session, u);
    }
  }

  lemma {:induction false} LeavePresent(s: System, x: Bytes, user: Bytes, session: Bytes)
    ensures Present(Apply(s, Leave(x, user)).0.parts, session) ==
            Present(s.parts, session) - (if x == session then {user} else {})
  {
    hide Present;
    var parts := Apply(s, Leave(x, user)).0.parts;
    forall u
      ensures u in Present(parts, session) <==> u in Present(s.parts, session) && !(x == session && u == user)
    {
      PresentMeans(parts, session, u);
      PresentMeans(s.parts, session, u);
    }
  }

  // ---- one step

  /** A consent change and its hook. */
  lemma {:induction false} ConsentExactly(s: System, op: Op, session: Bytes)
    requires op.Consent? && OneInFlight(s.recs) && Guarded(s, session)
    ensures Guarded(Apply(s, op).0, session) <==> Harmless(s, op, session)
  {
    hide StopRecording, OneInFlight, RecordingAllowed, Present, EffectiveConsent, Rolling, StopWorks, AllConsent;
    var s1, x := s.(ledger := Asked(s.ledger, op.ask)), op.ask.input.sessionId;
    RollingSame(s, s1, session);
    var a := ActiveRecording(s.recs, x);
    if op.appended && a >= 0 {
      StopStartsNothing(s1, a, op.reply, op.stored, session);
      AllConsentFollows(s1, StopRecording(s1, a, op.reply, op.stored).0, session);
    }
    if op.appended && Rolling(s, session) {
      AppendAllConsent(s, op.ask, session);
      if Withdraws(s, op.ask.input, session) {
        assert x == session && !AllConsent(s1, session);
        GateNeedsAll(s1, session);
        StopEndsRolling(s1, session, op.reply, op.stored);
      }
    }
  }

  lemma {:induction false} AllConsentFollows(s: System, s': System, session: Bytes)
    requires s'.ledger == s.ledger && s'.parts == s.parts
    ensures AllConsent(s', session) == AllConsent(s, session)
  {
  }

  lemma {:induction false} GateNeedsAll(s: System, session: Bytes)
    ensures RecordingAllowed(s.parts, s.ledger, session) ==> AllConsent(s, session)
  {
    hide RecordingAllowed, Present, EffectiveConsent;
    GateMeans(s.parts, s.ledger, session);
  }

  /** A join triggers no reconciliation, so the guarantee survives one exactly when nothing is rolling, the
      join is refused, or the newcomer has already consented. */
  lemma {:induction false} JoinExactly(s: System, session: Bytes, user: Bytes)
    requires Guarded(s, session)
    ensures Guarded(Apply(s, Join(session, user)).0, session) <==>
              || !Rolling(s, session) || (session, user) in s.parts
              || EffectiveConsent(s.ledger, user, session, SESSION_RECORDING)
  {
    JoinPresent(s, session, user, session);
    hide EffectiveConsent, Rolling, Present;
    RollingSame(s, Apply(s, Join(session, user)).0, session);
  }

  lemma {:induction false} PeopleExactly(s: System, op: Op, session: Bytes)
    requires (op.Join? || op.Leave?) && Guarded(s, session)
    ensures Guarded(Apply(s, op).0, session) <==> Harmless(s, op, session)
  {
    var s' := Apply(s, op).0;
    RollingSame(s, s', session);
    if op.Leave? {
      LeavePresent(s, op.session, op.user, session);
    } else {
      JoinPresent(s, op.session, op.user, session);
    }
    hide EffectiveConsent, Rolling, Present;
  }

  lemma {:induction false} StartKeepsGuard(s: System, op: Op, session: Bytes)
    requires op.Start? && Guarded(s, session)
    ensures Guarded(DoStart(s, op).0, session)
  {
    hide Exec, RecordingAllowed, Rolling, AllConsent, Attempt;
    var s' := DoStart(s, op).0;
    AllConsentFollows(s, s', session);
    if op.session != session {
      StartElsewhere(s, op, session);
    } else {
      GateNeedsAll(s, session);
    }
  }

  /** Every step keeps the guarantee exactly when it is harmless: starts, stops, webhooks and people
      leaving always are. */
  lemma {:induction false} StepGuardExactly(s: System, op: Op, session: Bytes)
    requires OneInFlight(s.recs) && Guarded(s, session)
    ensures Guarded(Apply(s, op).0, session) <==> Harmless(s, op, session)
  {
    hide Exec, OneInFlight, Rolling, AllConsent, StopRecording, DoStart, Withdraws, StopWorks;
    match op
    case Start(_, _, _, _, _, _, _, _) => StartKeepsGuard(s, op, session);
    case Stop(x, _, reply, stored) =>
      var a := ActiveRecording(s.recs, x);
      if a >= 0 {
        StopStartsNothing(s, a, reply, stored, session);
        AllConsentFollows(s, StopRecording(s, a, reply, stored).0, session);
      }
    case Consent(_, _, _, _) => ConsentExactly(s, op, session);
    case Webhook(egress, lk, output, error) =>
      var i, status := ByEgress(s.recs, egress), MapStatus(lk);
      AllConsentFollows(s, Apply(s, op).0, session);
      if i >= 0 && !IsTerminal(s.recs[i].status) {
        var u := Update(s.recs[i].id, status, IsTerminal(status), output, error);
        UpdateStartsNothing(s, Apply(s, op).0, u, true, session);
      } else {
        RollingSame(s, Apply(s, op).0, session);
      }
    case Join(_, _) => PeopleExactly(s, op, session);
    case Leave(_, _) => PeopleExactly(s, op, session);
  }

  // ---- every run

  ghost predicate HarmlessRun(s: System, ops: seq<Op>, session: Bytes)
    decreases |ops|
  {
    ops == [] ||
    (HarmlessRun(s, ops[..|ops| - 1], session) && Harmless(Run(s, ops[..|ops| - 1]), ops[|ops| - 1], session))
  }

  ghost predicate GuardedThroughout(s: System, ops: seq<Op>, session: Bytes) {
    forall n :: 0 <= n <= |ops| ==> Guarded(Run(s, ops[..n]), session)
  }

  /** A recording that has not been told to stop is one that everyone present consents to, in every state
      of a run, if and only if no step of it is a withdrawal whose stop does not take effect or the
      arrival of someone without consent while a recording is rolling. */
  lemma {:induction false} ConsentHoldsWhileRecording(s: System, ops: seq<Op>, session: Bytes)
    requires OneInFlight(s.recs) && Guarded(s, session)
    ensures GuardedThroughout(s, ops, session) <==> HarmlessRun(s, ops, session)
    decreases |ops|
  {
    hide Apply, OneInFlight, Guarded, Harmless;
    if ops == [] {
      assert forall n :: 0 <= n <= |ops| ==> ops[..n] == [];
    } else {
      var init, op := ops[..|ops| - 1], ops[|ops| - 1];
      assert ops[..|ops|] == ops && ops[..|init|] == init && init[..|init|] == init;
      assert forall n {:trigger ops[..n]} {:trigger init[..n]} :: 0 <= n <= |init| ==> ops[..n] == init[..n];
      ConsentHoldsWhileRecording(s, init, session);
      RunKeeps(s, init);
      assert GuardedThroughout(s, ops, session) <==>
               GuardedThroughout(s, init, session) && Guarded(Run(s, ops), session);
      if GuardedThroughout(s, init, session) {
        assert Guarded(Run(s, init[..|init|]), session);
        StepGuardExactly(Run(s, init), op, session);
      }
    }
  }

  // ---------------------------------------------------------------- inputs where it fails

  /** A user grants or withdraws, with whatever chain, signer, clock and id `via` has. */
  function Decides(via: Ask, session: Bytes, user: Bytes, granted: bool): Ask {
    via.(input := ConsentInput(via.input.id, session, user, SESSION_RECORDING, granted))
  }

  /** One participant, who has consented, and no recording yet. */
  function Ready(via: Ask, session: Bytes, a: Bytes): System {
    System([], Asked([], Decides(via, session, a, true)), map[(session, a) := false], {}, {})
  }

  lemma {:induction false} RunAppend(s: System, ops: seq<Op>, op: Op)
    ensures Run(s, ops + [op]) == Apply(Run(s, ops), op).0
  {
    hide Apply;
    assert (ops + [op])[..|ops|] == ops;
  }

  lemma {:induction false} ReadyReached(via: Ask, session: Bytes, a: Bytes)
    ensures Run(EMPTY, [Join(session, a), Consent(Decides(via, session, a, true), true, None, true)]) ==
            Ready(via, session, a)
  {
    var join, grant := Join(session, a), Consent(Decides(via, session, a, true), true, None, true);
    RunAppend(EMPTY, [], join);
    RunAppend(EMPTY, [] + [join], grant);
    assert [] + [join] + [grant] == [join, grant] && Run(EMPTY, []) == EMPTY;
    hide Run, RecordingAllowed;
    assert ActiveRecording([], session) < 0;
  }

  lemma {:induction false} ReadyMeans(via: Ask, session: Bytes, a: Bytes)
    ensures Present(Ready(via, session, a).parts, session) == {a}
    ensures EffectiveConsent(Ready(via, session, a).ledger, a, session, SESSION_RECORDING)
    ensures RecordingAllowed(Ready(via, session, a).parts, Ready(via, session, a).ledger, session)
  {
    hide RecordingAllowed, Present;
    var s := Ready(via, session, a);
    forall u
      ensures u in Present(s.parts, session) <==> u == a
    {
      PresentMeans(s.parts, session, u);
    }
    GateMeans(s.parts, s.ledger, session);
  }

  function Recorded(via: Ask, session: Bytes, a: Bytes, id: Bytes, egress: Bytes): System {
    Ready(via, session, a).(recs := [Recording(id, session, Some(egress), Active, None, None, false)],
                       live := {(session, egress)})
  }

  /** Someone joins and consents and a recording starts, rolling; then someone else joins: the recording
      goes on rolling with a participant who never consented. */
  lemma {:induction false} JoinBreaksGuarantee(via: Ask, session: Bytes, a: Bytes, b: Bytes, id: Bytes, egress: Bytes)
    requires a != b
    ensures var started := StartedRun(via, session, a, id, egress);
            && Rolling(Run(EMPTY, started), session) && Guarded(Run(EMPTY, started), session)
            && !Guarded(Run(EMPTY, started + [Join(session, b)]), session)
  {
    var s := Recorded(via, session, a, id, egress);
    StartReached(via, session, a, id, egress);
    RunAppend(EMPTY, StartedRun(via, session, a, id, egress), Join(session, b));
    hide Run, StartedRun;
    assert RollingAt(s, session, 0);
    ReadyConsents(via, s, session, a);
    assert !EffectiveConsent(s.ledger, b, session, SESSION_RECORDING) by {
      AppendDecides([], Decides(via, session, a, true), b, session, SESSION_RECORDING);
    }
    JoinExactly(s, session, b);
  }

  function StartedRun(via: Ask, session: Bytes, a: Bytes, id: Bytes, egress: Bytes): seq<Op> {
    [Join(session, a), Consent(Decides(via, session, a, true), true, None, true)] +
    [Start(session, id, true, true, 0, Some((egress, EgressActive)), [], true)]
  }

  lemma {:induction false} StartReached(via: Ask, session: Bytes, a: Bytes, id: Bytes, egress: Bytes)
    ensures Run(EMPTY, StartedRun(via, session, a, id, egress)) == Recorded(via, session, a, id, egress)
  {
    var start := Start(session, id, true, true, 0, Some((egress, EgressActive)), [], true);
    RunAppend(EMPTY, [Join(session, a), Consent(Decides(via, session, a, true), true, None, true)], start);
    ReadyReached(via, session, a);
    ReadyMeans(via, session, a);
    CreateFirst(id, session);
    hide Run, RecordingAllowed;
    HandedOff(id, session, egress);
    hide Exec;
    assert DoStart(Ready(via, session, a), start).0 == Recorded(via, session, a, id, egress);
  }

  lemma {:induction false} HandedOff(id: Bytes, session: Bytes, egress: Bytes)
    ensures Exec([Recording(id, session, None, Starting, None, None, false)], SetEgress(id, egress, Active)) ==
            ([Recording(id, session, Some(egress), Active, None, None, false)], true)
  {
    var recs := [Recording(id, session, None, Starting, None, None, false)];
    assert IndexOfId(recs, id) == 0 && ActiveRecording(recs, session) == 0;
    var row := Recording(id, session, Some(egress), Active, None, None, false);
    assert recs[0 := row] == [row];
  }

  lemma {:induction false} CreateFirst(id: Bytes, session: Bytes)
    ensures Exec([], Create(id, session, Starting)) ==
            ([Recording(id, session, None, Starting, None, None, false)], true)
  {
    var none: Table, row := [], Recording(id, session, None, Starting, None, None, false);
    assert IndexOfId(none, id) < 0 && ActiveRecording(none, session) < 0;
    assert none + [row] == [row];
  }

  // ---------------------------------------------------------------- statement by statement

  /** The statement puts a recording of the session in flight that has not been told to stop: it inserts
      one, or reopens a finished one. */
  predicate PutsInFlight(s: System, op: StoreOp, session: Bytes) {
    op.id !in s.stopSent && !IsTerminal(op.status) && ActiveRecording(s.recs, session) < 0 &&
    match op
    case Create(id, x, _) => x == session && IndexOfId(s.recs, id) < 0
    case SetEgress(id, _, _) =>
      var i := IndexOfId(s.recs, id);
      i >= 0 && s.recs[i].session == session && IsTerminal(s.recs[i].status)
    case Update(_, _, _, _, _) => false
  }

  function Executed(s: System, op: StoreOp): System { s.(recs := Exec(s.recs, op).0) }

  /** When a start is taken apart and its statements interleave with other calls, a statement keeps the
      guarantee exactly when it puts nothing in flight or everyone present consents at that moment. (The
      gate was read earlier, so nothing makes the second true.) */
  lemma {:induction false} StatementGuardExactly(s: System, op: StoreOp, session: Bytes)
    requires Guarded(s, session)
    ensures Guarded(Executed(s, op), session) <==> !PutsInFlight(s, op, session) || AllConsent(s, session)
  {
    StatementRolls(s, op, session);
    hide Exec, Rolling, AllConsent, PutsInFlight;
    AllConsentFollows(s, Executed(s, op), session);
  }

  lemma {:induction false} StatementRolls(s: System, op: StoreOp, session: Bytes)
    ensures PutsInFlight(s, op, session) ==> Rolling(Executed(s, op), session)
    ensures Rolling(Executed(s, op), session) ==> Rolling(s, session) || PutsInFlight(s, op, session)
  {
    hide Coalesce;
    var s' := Executed(s, op);
    if PutsInFlight(s, op, session) {
      assert RollingAt(s', session, if op.Create? then |s.recs| else IndexOfId(s.recs, op.id));
    }
    if Rolling(s', session) && !PutsInFlight(s, op, session) {
      var i :| RollingAt(s', session, i);
      assert RollingAt(s, session, i);
    }
  }

  /** The race, and what it does to consent: a start passes the gate and inserts its row; the participant
      withdraws, and the hook, finding no egress, aborts the row; the hand-off then reopens it. The
      recording is active, nobody consents, and no egress was told to stop. */
  lemma {:induction false} LateHandOffIgnoresWithdrawal(via: Ask, session: Bytes, a: Bytes, id: Bytes, egress: Bytes)
    ensures var ready := Ready(via, session, a);
            var created := Executed(ready, Create(id, session, Starting));
            var aborted := Apply(created, Consent(Decides(via, session, a, false), true, None, true)).0;
            var reopened := Executed(aborted, SetEgress(id, egress, Active));
            && RecordingAllowed(ready.parts, ready.ledger, session)
            && |aborted.recs| == 1 && aborted.recs[0].status == Aborted && Guarded(aborted, session)
            && Rolling(reopened, session) && !Guarded(reopened, session)
  {
    var created := Ready(via, session, a).(recs := [Recording(id, session, None, Starting, None, None, false)]);
    var aborted := Apply(created, Consent(Decides(via, session, a, false), true, None, true)).0;
    ReadyMeans(via, session, a);
    CreateFirst(id, session);
    AbortedHere(via, created, id, session, a);
    AbortedMeans(via, aborted, session, id, egress, a);
    hide Apply, Exec, RecordingAllowed;
    StatementRolls(aborted, SetEgress(id, egress, Active), session);
    StatementGuardExactly(aborted, SetEgress(id, egress, Active), session);
  }

  lemma {:induction false} AbortedMeans(via: Ask, s: System, session: Bytes, id: Bytes, egress: Bytes, a: Bytes)
    requires s.recs == [Recording(id, session, None, Aborted, None, None, true)] && s.stopSent == {}
    requires s.parts == Ready(via, session, a).parts
    requires s.ledger == Asked(Ready(via, session, a).ledger, Decides(via, session, a, false))
    ensures Guarded(s, session) && !AllConsent(s, session) && PutsInFlight(s, SetEgress(id, egress, Active), session)
  {
    assert forall i :: !RollingAt(s, session, i);
    ReadyMeans(via, session, a);
    AppendDecides(Ready(via, session, a).ledger, Decides(via, session, a, false), a, session, SESSION_RECORDING);
    hide EffectiveConsent, Present;
    assert IndexOfId(s.recs, id) == 0 && ActiveRecording(s.recs, session) < 0;
  }

  lemma {:induction false} ReadyConsents(via: Ask, s: System, session: Bytes, a: Bytes)
    requires s.parts == Ready(via, session, a).parts && s.ledger == Ready(via, session, a).ledger
    ensures AllConsent(s, session)
  {
    ReadyMeans(via, session, a);
    hide EffectiveConsent, Present;
  }

  lemma {:induction false} AbortedHere(via: Ask, s: System, id: Bytes, session: Bytes, a: Bytes)
    requires s.parts == Ready(via, session, a).parts && s.ledger == Ready(via, session, a).ledger
    requires s.recs == [Recording(id, session, None, Starting, None, None, false)]
    ensures Apply(s, Consent(Decides(via, session, a, false), true, None, true)).0 ==
            s.(ledger := Asked(s.ledger, Decides(via, session, a, false)),
               recs := [Recording(id, session, None, Aborted, None, None, true)])
  {
    var s1 := s.(ledger := Asked(s.ledger, Decides(via, session, a, false)));
    ReadyMeans(via, session, a);
    assert !RecordingAllowed(s1.parts, s1.ledger, session) by {
      AppendDecides(s.ledger, Decides(via, session, a, false), a, session, SESSION_RECORDING);
      GateMeans(s1.parts, s1.ledger, session);
    }
    hide RecordingAllowed;
    assert ActiveRecording(s.recs, session) == 0 && IndexOfId(s.recs, id) == 0;
  }
}
