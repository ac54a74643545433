/** The two time-windowed dedupe maps of the recording handler, which evict stale keys as they go,
    measured against the full history they no longer hold. */
module Dedupe {
  import opened ByteStrings

  /** Last time each key was noted. Times and windows are in clock ticks. */
  type Seen = map<Bytes, int>

  predicate Fresh(seen: Seen, key: Bytes, now: int, ttl: int) {
    key in seen && now - seen[key] < ttl
  }

  function Evicted(seen: Seen, now: int, ttl: int): Seen {
    map k | k in seen && now - seen[k] < ttl :: seen[k]
  }

  // ---------------------------------------------------------------- the two maps

  /** `shouldAuditPlay`: note the key and answer yes, unless it was noted within the window. */
  function ShouldAudit(seen: Seen, key: Bytes, now: int, ttl: int): (Seen, bool) {
    if Fresh(seen, key, now, ttl) then (seen, false) else (Evicted(seen, now, ttl)[key := now], true)
  }

  /** `webhookDuplicate`: the empty key never dedupes; any other call evicts. */
  function Duplicate(seen: Seen, key: Bytes, now: int, ttl: int): (Seen, bool) {
    if key == [] then (seen, false) else (Evicted(seen, now, ttl), Fresh(seen, key, now, ttl))
  }

  function Remembered(seen: Seen, key: Bytes, now: int): Seen {
    if key == [] then seen else seen[key := now]
  }

  const BAR: Bytes := [124]
  const WEBHOOK_TTL: int := 600_000_000_000  // ten minutes in nanoseconds

  /** The handler's two maps, updated in place. */
  class Handler {
    const playbackTTL: int
    var playedSeen: Seen
    var seenWebhook: Seen

    constructor (playbackTTL: int)
      ensures this.playbackTTL == playbackTTL && playedSeen == map[] && seenWebhook == map[]
    {
      this.playbackTTL := playbackTTL;
      playedSeen, seenWebhook := map[], map[];
    }

    method ShouldAuditPlay(subject: Bytes, recId: Bytes, now: int) returns (audit: bool)
      modifies this`playedSeen
      ensures (playedSeen, audit) == ShouldAudit(old(playedSeen), subject + BAR + recId, now, playbackTTL)
    {
      var key := subject + BAR + recId;
      if key in playedSeen && now - playedSeen[key] < playbackTTL {
        return false;
      }
      var kept := Evict(playedSeen, now, playbackTTL);
      playedSeen := kept[key := now];
      return true;
    }

    method WebhookDuplicate(key: Bytes, now: int) returns (dup: bool)
      modifies this`seenWebhook
      ensures (seenWebhook, dup) == Duplicate(old(seenWebhook), key, now, WEBHOOK_TTL)
    {
      if key == [] {
        return false;
      }
      dup := key in seenWebhook && now - seenWebhook[key] < WEBHOOK_TTL;
      seenWebhook := Evict(seenWebhook, now, WEBHOOK_TTL);
    }

    method RememberWebhook(key: Bytes, now: int)
      modifies this`seenWebhook
      ensures seenWebhook == Remembered(old(seenWebhook), key, now)
    {
      if key != [] {
        seenWebhook := seenWebhook[key := now];
      }
    }
  }

  /** The deleting loop both maps run. What survives is exactly what is in the window. */
  method Evict(seen: Seen, now: int, ttl: int) returns (kept: Seen)
    ensures kept == Evicted(seen, now, ttl)
    ensures forall k :: k in kept <==> Fresh(seen, k, now, ttl)
  {
    kept := seen;
    var todo := seen.Keys;
    while todo != {}
      invariant todo <= kept.Keys <= seen.Keys
      invariant forall k :: k in kept ==> kept[k] == seen[k]
      invariant forall k :: k in seen && k !in todo ==> (k in kept <==> now - seen[k] < ttl)
      decreases |todo|
    {
      var k :| k in todo;
      todo := todo - {k};
      if now - seen[k] >= ttl {
        kept := kept - {k};
      }
    }
  }

  // ---------------------------------------------------------------- against full history

  datatype Mark = Mark(key: Bytes, time: int)

  /** The question both maps answer, put to a history that forgets nothing. */
  ghost predicate Within(marks: seq<Mark>, key: Bytes, now: int, ttl: int) {
    exists i :: 0 <= i < |marks| && marks[i].key == key && now - marks[i].time < ttl
  }

  /** The map holds only marks of the history, and for each mark still in the window that one or a
      later one of its key. */
  ghost predicate Tracks(seen: Seen, marks: seq<Mark>, now: int, ttl: int) {
    && (forall k :: k in seen ==> Mark(k, seen[k]) in marks)
    && (forall i :: 0 <= i < |marks| && now - marks[i].time < ttl ==>
          marks[i].key in seen && seen[marks[i].key] >= marks[i].time)
    && (forall i :: 0 <= i < |marks| ==> marks[i].time <= now)
  }

  lemma {:induction false} FreshIsWithin(seen: Seen, marks: seq<Mark>, key: Bytes, now: int, ttl: int)
    requires Tracks(seen, marks, now, ttl)
    ensures Fresh(seen, key, now, ttl) <==> Within(marks, key, now, ttl)
  {
    if Fresh(seen, key, now, ttl) {
      var i :| 0 <= i < |marks| && marks[i] == Mark(key, seen[key]);
    }
  }

  lemma {:induction false} EvictionTracks(seen: Seen, marks: seq<Mark>, now: int, ttl: int)
    requires Tracks(seen, marks, now, ttl)
    ensures Tracks(Evicted(seen, now, ttl), marks, now, ttl)
  {
  }

  lemma {:induction false} MarkingTracks(seen: Seen, marks: seq<Mark>, key: Bytes, now: int, ttl: int)
    requires Tracks(seen, marks, now, ttl)
    ensures Tracks(seen[key := now], marks + [Mark(key, now)], now, ttl)
  {
    var seen', marks' := seen[key := now], marks + [Mark(key, now)];
    assert marks'[|marks|] == Mark(key, now);
  }

  lemma {:induction false} TimePasses(seen: Seen, marks: seq<Mark>, before: int, now: int, ttl: int)
    requires Tracks(seen, marks, before, ttl) && before <= now
    ensures Tracks(seen, marks, now, ttl)
  {
  }

  /** What an eviction pass leaves: the keys still in the window, untouched, and for an audit the new one.
      (With a window of no length nothing is in it, the new key included.) */
  lemma {:induction false} OnlyWindowLeft(seen: Seen, key: Bytes, now: int, ttl: int)
    requires ttl > 0
    ensures var (seen', audit) := ShouldAudit(seen, key, now, ttl);
            && (!audit ==> seen' == seen)
            && (audit ==> forall k :: k in seen' <==> k == key || Fresh(seen, k, now, ttl))
            && (audit ==> forall k :: k in seen' ==> Fresh(seen', k, now, ttl))
            && forall k :: k in seen' && k != key ==> k in seen && seen'[k] == seen[k]
    ensures var (seen', duplicate) := Duplicate(seen, key, now, ttl);
            && (key == [] ==> seen' == seen && !duplicate)
            && (key != [] ==> forall k :: k in seen' <==> Fresh(seen, k, now, ttl))
            && forall k :: k in seen' ==> k in seen && seen'[k] == seen[k]
  {
  }

  // ---------------------------------------------------------------- runs

  /** A clock reading never falls below an earlier one. */
  ghost predicate Nondecreasing(ms: seq<Mark>) {
    forall i, j :: 0 <= i < j < |ms| ==> ms[i].time <= ms[j].time
  }

  /** The playback map and the audits written, after a list of playback checks. */
  function PlayState(ttl: int, checks: seq<Mark>): (Seen, seq<Mark>)
    decreases |checks|
  {
    if checks == [] then (map[], []) else
    var (seen, audits) := PlayState(ttl, checks[..|checks| - 1]);
    var m := checks[|checks| - 1];
    var (seen', audit) := ShouldAudit(seen, m.key, m.time, ttl);
    (seen', if audit then audits + [m] else audits)
  }

  lemma {:induction false} PlayTracks(ttl: int, checks: seq<Mark>, now: int)
    requires Nondecreasing(checks) && (checks != [] ==> checks[|checks| - 1].time <= now)
    ensures var (seen, audits) := PlayState(ttl, checks); Tracks(seen, audits, now, ttl)
    decreases |checks|
  {
    if checks == [] {
    } else {
      var init, m := checks[..|checks| - 1], checks[|checks| - 1];
      PlayTracks(ttl, init, m.time);
      var (seen, audits) := PlayState(ttl, init);
      var (seen', audits') := PlayState(ttl, checks);
      hide Tracks;
      if !Fresh(seen, m.key, m.time, ttl) {
        EvictionTracks(seen, audits, m.time, ttl);
        MarkingTracks(Evicted(seen, m.time, ttl), audits, m.key, m.time, ttl);
      }
      TimePasses(seen', audits', m.time, now, ttl);
    }
  }

  /** A playback check writes an audit exactly when no audit of its key was written within the window. */
  lemma {:induction false} AuditExactly(ttl: int, checks: seq<Mark>, m: Mark)
    requires Nondecreasing(checks + [m])
    ensures var (seen, audits) := PlayState(ttl, checks);
            ShouldAudit(seen, m.key, m.time, ttl).1 <==> !Within(audits, m.key, m.time, ttl)
  {
    var all := checks + [m];
    assert all[|checks|] == m && forall i :: 0 <= i < |checks| ==> all[i] == checks[i];
    PlayTracks(ttl, checks, m.time);
    var (seen, audits) := PlayState(ttl, checks);
    FreshIsWithin(seen, audits, m.key, m.time, ttl);
  }

  /** So two audits of one key are at least the window apart. */
  lemma {:induction false} AuditsApart(ttl: int, checks: seq<Mark>, i: nat, j: nat)
    requires Nondecreasing(checks) && i < j < |PlayState(ttl, checks).1|
    requires PlayState(ttl, checks).1[i].key == PlayState(ttl, checks).1[j].key
    ensures PlayState(ttl, checks).1[j].time - PlayState(ttl, checks).1[i].time >= ttl
    decreases |checks|
  {
    var init, m := checks[..|checks| - 1], checks[|checks| - 1];
    var audits := PlayState(ttl, init).1;
    if j < |audits| {
      AuditsApart(ttl, init, i, j);
    } else {
      assert checks == init + [m];
      AuditExactly(ttl, init, m);
      assert !Within(audits, m.key, m.time, ttl);
    }
  }

  datatype Webhook = Check(mark: Mark) | Remember(mark: Mark)

  ghost predicate InOrder(evs: seq<Webhook>) {
    forall i, j :: 0 <= i < j < |evs| ==> evs[i].mark.time <= evs[j].mark.time
  }

  /** The webhook map and every nonempty key remembered, after a list of calls. */
  function HookState(evs: seq<Webhook>): (Seen, seq<Mark>)
    decreases |evs|
  {
    if evs == [] then (map[], []) else
    var (seen, marks) := HookState(evs[..|evs| - 1]);
    match evs[|evs| - 1]
    case Check(m) => (Duplicate(seen, m.key, m.time, WEBHOOK_TTL).0, marks)
    case Remember(m) => (Remembered(seen, m.key, m.time), if m.key == [] then marks else marks + [m])
  }

  lemma {:induction false} HookTracks(evs: seq<Webhook>, now: int)
    requires InOrder(evs) && (evs != [] ==> evs[|evs| - 1].mark.time <= now)
    ensures var (seen, marks) := HookState(evs);
            Tracks(seen, marks, now, WEBHOOK_TTL) && forall m :: m in marks ==> m.key != []
    decreases |evs|
  {
    if evs == [] {
    } else {
      var init, ev := evs[..|evs| - 1], evs[|evs| - 1];
      var m := ev.mark;
      HookTracks(init, m.time);
      var (seen, marks) := HookState(init);
      var (seen', marks') := HookState(evs);
      hide Tracks;
      if m.key != [] {
        if ev.Check? {
          EvictionTracks(seen, marks, m.time, WEBHOOK_TTL);
        } else {
          MarkingTracks(seen, marks, m.key, m.time, WEBHOOK_TTL);
        }
      }
      TimePasses(seen', marks', m.time, now, WEBHOOK_TTL);
    }
  }

  /** A delivery is a duplicate exactly when its (nonempty) key was remembered within the window. */
  lemma {:induction false} DuplicateExactly(evs: seq<Webhook>, m: Mark)
    requires InOrder(evs + [Check(m)])
    ensures var (seen, marks) := HookState(evs);
            Duplicate(seen, m.key, m.time, WEBHOOK_TTL).1 <==> Within(marks, m.key, m.time, WEBHOOK_TTL)
  {
    var all := evs + [Check(m)];
    assert all[|evs|].mark == m && forall i :: 0 <= i < |evs| ==> all[i] == evs[i];
    HookTracks(evs, m.time);
    var (seen, marks) := HookState(evs);
    FreshIsWithin(seen, marks, m.key, m.time, WEBHOOK_TTL);
  }
}
