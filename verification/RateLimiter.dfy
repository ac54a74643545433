/** The token-bucket rate limiter with its idle sweep, over real-valued time and tokens. */
module RateLimiter {
  import opened ByteStrings

  const IDLE_TTL: real := 600.0   // seconds
  const SWEEP_ABOVE: nat := 1024  // buckets

  datatype Config = Config(rate: real, burst: real)

  datatype Bucket = Bucket(tokens: real, last: real)

  type Buckets = map<Bytes, Bucket>

  /** `NewRateLimiter`: non-positive arguments fall back to defaults. */
  function Configure(rps: real, burst: int): (c: Config)
    ensures c.rate > 0.0 && c.burst >= 0.0
    ensures (rps > 0.0 ==> c.rate == rps) && (burst > 0 ==> c.burst == burst as real)
    ensures (rps <= 0.0 ==> c.rate == 20.0) && (burst <= 0 ==> c.burst == 2.0 * (c.rate.Floor as real))
    ensures c.burst >= 1.0 <==> burst > 0 || rps <= 0.0 || rps >= 1.0
  {
    var rate := if rps <= 0.0 then 20.0 else rps;
    Config(rate, (if burst <= 0 then rate.Floor * 2 else burst) as real)
  }

  // ---------------------------------------------------------------- one request

  function Min(a: real, b: real): real { if a < b then a else b }

  function Accrued(c: Config, elapsed: real): real { elapsed * c.rate }

  function Refilled(c: Config, b: Bucket, now: real): real {
    Min(c.burst, b.tokens + Accrued(c, now - b.last))
  }

  function Swept(bs: Buckets, now: real): Buckets {
    map k | k in bs && now - bs[k].last <= IDLE_TTL :: bs[k]
  }

  function BucketAfter(c: Config, bs: Buckets, key: Bytes, now: real): (Bucket, bool) {
    if key !in bs then (Bucket(c.burst - 1.0, now), true)
    else
      var t := Refilled(c, bs[key], now);
      if t >= 1.0 then (Bucket(t - 1.0, now), true) else (Bucket(t, now), false)
  }

  /** The buckets a request finds: swept first, if there are many and sweeping is on. */
  function Found(sweep: bool, bs: Buckets, now: real): Buckets {
    if sweep && |bs| > SWEEP_ABOVE then Swept(bs, now) else bs
  }

  function Admit(c: Config, sweep: bool, bs: Buckets, key: Bytes, now: real): (Buckets, bool) {
    var found := Found(sweep, bs, now);
    var (b, ok) := BucketAfter(c, found, key, now);
    (found[key := b], ok)
  }

  /** The limiter as an object: the map is updated in place, and a sweep deletes entries one by one. */
  class Limiter {
    const c: Config
    var buckets: Buckets

    constructor (rps: real, burst: int)
      ensures c == Configure(rps, burst) && buckets == map[]
    {
      c := Configure(rps, burst);
      buckets := map[];
    }

    method Allow(key: Bytes, now: real) returns (ok: bool)
      modifies this
      ensures (buckets, ok) == Admit(c, true, old(buckets), key, now)
    {
      if |buckets| > SWEEP_ABOVE {
        Sweep(now);
      }
      if key !in buckets {
        buckets := buckets[key := Bucket(c.burst - 1.0, now)];
        return true;
      }
      var b := buckets[key];
      var elapsed := now - b.last;
      b := b.(tokens := Min(c.burst, b.tokens + Accrued(c, elapsed)));
      b := b.(last := now);
      if b.tokens >= 1.0 {
        b := b.(tokens := b.tokens - 1.0);
        buckets := buckets[key := b];
        return true;
      }
      buckets := buckets[key := b];
      return false;
    }

    method Sweep(now: real)
      modifies this
      ensures buckets == Swept(old(buckets), now)
    {
      var todo := buckets.Keys;
      while todo != {}
        invariant todo <= buckets.Keys <= old(buckets).Keys
        invariant forall k :: k in buckets ==> buckets[k] == old(buckets)[k]
        invariant forall k :: k in old(buckets) && k !in todo ==>
                    (k in buckets <==> now - old(buckets)[k].last <= IDLE_TTL)
        decreases |todo|
      {
        var k :| k in todo;
        todo := todo - {k};
        if now - buckets[k].last > IDLE_TTL {
          buckets := buckets - {k};
        }
      }
    }
  }

  // ---------------------------------------------------------------- runs

  datatype Req = Req(key: Bytes, time: real)

  ghost predicate Nondecreasing(reqs: seq<Req>) {
    forall i, j :: 0 <= i < j < |reqs| ==> reqs[i].time <= reqs[j].time
  }

  function State(c: Config, sweep: bool, reqs: seq<Req>): Buckets
    decreases |reqs|
  {
    if reqs == [] then map[] else
    var r := reqs[|reqs| - 1];
    Admit(c, sweep, State(c, sweep, reqs[..|reqs| - 1]), r.key, r.time).0
  }

  /** The decision on the last request of a run. */
  function Decision(c: Config, sweep: bool, reqs: seq<Req>): bool
    requires reqs != []
  {
    var r := reqs[|reqs| - 1];
    Admit(c, sweep, State(c, sweep, reqs[..|reqs| - 1]), r.key, r.time).1
  }

  // ---------------------------------------------------------------- the sweep is unobservable

  /** The swept map is the full one without some buckets that have been idle past the TTL. */
  ghost predicate Shadows(swept: Buckets, full: Buckets, now: real) {
    && (forall k :: k in swept ==> k in full && full[k] == swept[k])
    && (forall k :: k in full && k !in swept ==> now - full[k].last > IDLE_TTL)
  }

  ghost predicate Sane(c: Config, bs: Buckets, now: real) {
    forall k :: k in bs ==> 0.0 <= bs[k].tokens <= c.burst && bs[k].last <= now
  }

  lemma {:induction false} AccruedMonotone(c: Config, a: real, b: real)
    requires a <= b && c.rate > 0.0
    ensures Accrued(c, a) <= Accrued(c, b) && Accrued(c, 0.0) == 0.0
  {
    assert (b - a) * c.rate >= 0.0;
  }

  lemma {:induction false} AccruedAdds(c: Config, a: real, b: real)
    ensures Accrued(c, a + b) == Accrued(c, a) + Accrued(c, b)
  {
  }

  lemma {:induction false} AllowKeepsSane(c: Config, sweep: bool, bs: Buckets, key: Bytes, before: real, now: real)
    requires c.rate > 0.0 && c.burst >= 1.0 && Sane(c, bs, before) && before <= now
    ensures Sane(c, Admit(c, sweep, bs, key, now).0, now)
  {
    var found := Found(sweep, bs, now);
    if key in found {
      AccruedMonotone(c, 0.0, now - found[key].last);
    }
  }

  lemma {:induction false} StateSane(c: Config, sweep: bool, reqs: seq<Req>, now: real)
    requires c.rate > 0.0 && c.burst >= 1.0 && Nondecreasing(reqs)
    requires reqs != [] ==> reqs[|reqs| - 1].time <= now
    ensures Sane(c, State(c, sweep, reqs), now)
    decreases |reqs|
  {
    if reqs == [] {
    } else {
      var init, r := reqs[..|reqs| - 1], reqs[|reqs| - 1];
      StateSane(c, sweep, init, r.time);
      AllowKeepsSane(c, sweep, State(c, sweep, init), r.key, r.time, r.time);
    }
  }

  /** A bucket idle past the TTL would refill to the brim, so losing it changes nothing. */
  lemma {:induction false} AllowShadows(c: Config, swept: Buckets, full: Buckets, key: Bytes, now: real)
    requires c.rate > 0.0 && c.burst >= 1.0 && Accrued(c, IDLE_TTL) >= c.burst
    requires Shadows(swept, full, now) && Sane(c, full, now)
    ensures Shadows(Admit(c, true, swept, key, now).0, Admit(c, false, full, key, now).0, now)
    ensures Admit(c, true, swept, key, now).1 == Admit(c, false, full, key, now).1
  {
    var found := Found(true, swept, now);
    assert Shadows(found, full, now);
    hide Found;
    SameBucket(c, found, full, key, now);
  }

  lemma {:induction false} SameBucket(c: Config, found: Buckets, full: Buckets, key: Bytes, now: real)
    requires c.rate > 0.0 && c.burst >= 1.0 && Accrued(c, IDLE_TTL) >= c.burst
    requires Shadows(found, full, now) && Sane(c, full, now)
    ensures BucketAfter(c, found, key, now) == BucketAfter(c, full, key, now)
  {
    hide Accrued;
    if key in full && key !in found {
      AccruedMonotone(c, IDLE_TTL, now - full[key].last);
      assert Refilled(c, full[key], now) == c.burst;
    }
  }

  lemma {:induction false} StatesShadow(c: Config, reqs: seq<Req>, now: real)
    requires c.rate > 0.0 && c.burst >= 1.0 && Accrued(c, IDLE_TTL) >= c.burst && Nondecreasing(reqs)
    requires reqs != [] ==> reqs[|reqs| - 1].time <= now
    ensures Shadows(State(c, true, reqs), State(c, false, reqs), now)
    ensures reqs != [] ==> Decision(c, true, reqs) == Decision(c, false, reqs)
    decreases |reqs|
  {
    hide Admit;
    if reqs == [] {
    } else {
      var init, r := reqs[..|reqs| - 1], reqs[|reqs| - 1];
      StatesShadow(c, init, r.time);
      StateSane(c, false, init, r.time);
      AllowShadows(c, State(c, true, init), State(c, false, init), r.key, r.time);
    }
  }

  // ---------------------------------------------------------------- the rate bound

  /** How many of a key's requests with times in [s, t] were allowed. */
  function Count(c: Config, sweep: bool, reqs: seq<Req>, key: Bytes, s: real, t: real): nat
    decreases |reqs|
  {
    if reqs == [] then 0 else
    var r := reqs[|reqs| - 1];
    Count(c, sweep, reqs[..|reqs| - 1], key, s, t) +
    (if r.key == key && s <= r.time <= t && Decision(c, sweep, reqs) then 1 else 0)
  }

  /** What the window has let through, what it may still let through, and the refill so far balance. */
  ghost predicate Potential(c: Config, bs: Buckets, key: Bytes, count: nat, s: real) {
    if key !in bs || bs[key].last < s then count == 0
    else count as real + bs[key].tokens <= c.burst + Accrued(c, bs[key].last - s)
  }

  lemma {:induction false} AllowPotential(c: Config, bs: Buckets, key: Bytes, count: nat, s: real, now: real)
    requires c.rate > 0.0 && c.burst >= 1.0 && Sane(c, bs, now) && s <= now && Potential(c, bs, key, count, s)
    ensures var (bs', ok) := Admit(c, false, bs, key, now);
            Potential(c, bs', key, count + (if ok then 1 else 0), s)
  {
    AccruedMonotone(c, 0.0, now - s);
    if key in bs && bs[key].last >= s {
      AccruedAdds(c, bs[key].last - s, now - bs[key].last);
      assert (bs[key].last - s) + (now - bs[key].last) == now - s;
    }
    hide Accrued;
  }

  lemma {:induction false} WindowPotential(c: Config, reqs: seq<Req>, key: Bytes, s: real, t: real)
    requires c.rate > 0.0 && c.burst >= 1.0 && Nondecreasing(reqs)
    requires reqs != [] ==> reqs[|reqs| - 1].time <= t
    ensures Potential(c, State(c, false, reqs), key, Count(c, false, reqs, key, s, t), s)
    decreases |reqs|
  {
    hide Admit;
    if reqs == [] {
    } else {
      var init, r := reqs[..|reqs| - 1], reqs[|reqs| - 1];
      WindowPotential(c, init, key, s, t);
      StateSane(c, false, init, r.time);
      var bs := State(c, false, init);
      if r.key == key && s <= r.time {
        AllowPotential(c, bs, key, Count(c, false, init, key, s, t), s, r.time);
      } else {
        OtherBuckets(c, bs, r.key, r.time, key, s);
      }
    }
  }

  /** A request before the window, or of another key, leaves the balance alone. */
  lemma {:induction false} OtherBuckets(c: Config, bs: Buckets, k: Bytes, now: real, key: Bytes, s: real)
    requires Sane(c, bs, now) && (k != key || now < s)
    ensures var bs' := Admit(c, false, bs, k, now).0;
            forall count: nat :: Potential(c, bs, key, count, s) ==> Potential(c, bs', key, count, s)
  {
  }

  lemma {:induction false} CountBound(c: Config, reqs: seq<Req>, key: Bytes, s: real, t: real)
    requires c.rate > 0.0 && c.burst >= 1.0 && Nondecreasing(reqs) && s <= t
    ensures Count(c, false, reqs, key, s, t) as real <= c.burst + Accrued(c, t - s)
    decreases |reqs|
  {
    AccruedMonotone(c, 0.0, t - s);
    if reqs == [] {
    } else {
      if reqs[|reqs| - 1].time > t {
        CountBound(c, reqs[..|reqs| - 1], key, s, t);
      } else {
        WindowPotential(c, reqs, key, s, t);
        StateSane(c, false, reqs, t);
        var bs := State(c, false, reqs);
        if key in bs && bs[key].last >= s {
          AccruedMonotone(c, bs[key].last - s, t - s);
        }
      }
    }
  }

  lemma {:induction false} CountsAgree(c: Config, reqs: seq<Req>, key: Bytes, s: real, t: real)
    requires c.rate > 0.0 && c.burst >= 1.0 && Accrued(c, IDLE_TTL) >= c.burst && Nondecreasing(reqs)
    ensures Count(c, true, reqs, key, s, t) == Count(c, false, reqs, key, s, t)
    decreases |reqs|
  {
    hide Decision;
    if reqs == [] {
    } else {
      CountsAgree(c, reqs[..|reqs| - 1], key, s, t);
      StatesShadow(c, reqs, reqs[|reqs| - 1].time);
    }
  }

  /** Sweeping or not, every decision in every run is the same. */
  ghost predicate SweepUnobservable(c: Config) {
    forall reqs :: reqs != [] && Nondecreasing(reqs) ==> Decision(c, true, reqs) == Decision(c, false, reqs)
  }

  /** In every run and for every key, a window of length d lets at most burst + rate*d requests through. */
  ghost predicate RateBounded(c: Config) {
    forall reqs, key, s, t :: Nondecreasing(reqs) && s <= t ==>
      Count(c, true, reqs, key, s, t) as real <= c.burst + Accrued(c, t - s)
  }

  lemma {:induction false} BoundHolds(c: Config)
    requires c.rate > 0.0 && c.burst >= 1.0 && Accrued(c, IDLE_TTL) >= c.burst
    ensures RateBounded(c)
  {
    forall reqs, key, s, t | Nondecreasing(reqs) && s <= t
      ensures Count(c, true, reqs, key, s, t) as real <= c.burst + Accrued(c, t - s)
    {
      CountsAgree(c, reqs, key, s, t);
      CountBound(c, reqs, key, s, t);
    }
  }

  /** With a burst below one, a key's very first request already exceeds the bound. */
  lemma {:induction false} SmallBurstExceeds(c: Config)
    requires c.burst < 1.0
    ensures !RateBounded(c)
  {
    var one := [Req([], 0.0)];
    assert one[..0] == [];
    assert Count(c, true, one, [], 0.0, 0.0) == 1;
    assert Nondecreasing(one) && Accrued(c, 0.0 - 0.0) == 0.0;
  }

  // ---------------------------------------------------------------- when the sweep shows

  /** `n` requests of one key at one time, after `before`. */
  function Repeat(before: seq<Req>, n: nat, time: real): seq<Req> {
    if n == 0 then before else Repeat(before, n - 1, time) + [Req([], time)]
  }

  /** Drain the empty key's bucket, then touch `m` other keys, all at time zero. */
  function Filler(n: nat, m: nat): seq<Req> {
    if m == 0 then Repeat([], n, 0.0) else Filler(n, m - 1) + [Req(Zeros(m), 0.0)]
  }

  lemma {:induction false} RepeatOrdered(before: seq<Req>, n: nat, time: real)
    requires Nondecreasing(before) && forall i :: 0 <= i < |before| ==> before[i].time <= time
    ensures Nondecreasing(Repeat(before, n, time))
    ensures forall i :: 0 <= i < |Repeat(before, n, time)| ==> Repeat(before, n, time)[i].time <= time
    decreases n
  {
    if n == 0 {
    } else {
      RepeatOrdered(before, n - 1, time);
    }
  }

  lemma {:induction false} FillerOrdered(n: nat, m: nat)
    ensures Nondecreasing(Filler(n, m)) && forall i :: 0 <= i < |Filler(n, m)| ==> Filler(n, m)[i].time <= 0.0
    decreases m
  {
    if m == 0 {
      RepeatOrdered([], n, 0.0);
    } else {
      FillerOrdered(n, m - 1);
      assert Nondecreasing(Filler(n, m)) by {
        var init := Filler(n, m - 1);
        FillerAtZero(n, m - 1);
      }
    }
  }

  lemma {:induction false} FillerAtZero(n: nat, m: nat)
    ensures forall i :: 0 <= i < |Filler(n, m)| ==> Filler(n, m)[i].time == 0.0
    decreases m
  {
    if m == 0 {
      RepeatAt(n);
    } else {
      FillerAtZero(n, m - 1);
    }
  }

  lemma {:induction false} RepeatAt(n: nat)
    ensures forall i :: 0 <= i < |Repeat([], n, 0.0)| ==> Repeat([], n, 0.0)[i].time == 0.0
    decreases n
  {
    if n == 0 {
    } else {
      RepeatAt(n - 1);
    }
  }

  lemma {:induction false} StepState(c: Config, sweep: bool, init: seq<Req>, r: Req)
    ensures State(c, sweep, init + [r]) == Admit(c, sweep, State(c, sweep, init), r.key, r.time).0
    ensures Decision(c, sweep, init + [r]) == Admit(c, sweep, State(c, sweep, init), r.key, r.time).1
  {
    assert (init + [r])[..|init|] == init;
  }

  lemma {:induction false} AdmitNew(c: Config, sweep: bool, bs: Buckets, key: Bytes, now: real)
    requires key !in bs && |bs| <= SWEEP_ABOVE
    ensures Admit(c, sweep, bs, key, now) == (bs[key := Bucket(c.burst - 1.0, now)], true)
    ensures |bs[key := Bucket(c.burst - 1.0, now)]| == |bs| + 1
  {
    var bs' := bs[key := Bucket(c.burst - 1.0, now)];
    assert bs'.Keys == bs.Keys + {key};
    assert |bs'.Keys| == |bs.Keys| + 1;
  }

  /** The only key there is, coming again at the same instant. */
  lemma {:induction false} AdmitAgain(c: Config, sweep: bool, tokens: real, now: real)
    requires 1.0 <= tokens <= c.burst
    ensures Admit(c, sweep, map[[] := Bucket(tokens, now)], [], now) == (map[[] := Bucket(tokens - 1.0, now)], true)
  {
    assert Accrued(c, now - now) == 0.0;
    var bs: Buckets := map[[] := Bucket(tokens, now)];
    assert bs.Keys == {[]} && |bs| == 1;
    assert bs[[] := Bucket(tokens - 1.0, now)] == map[[] := Bucket(tokens - 1.0, now)];
  }

  lemma {:induction false} AdmitFirst(c: Config, sweep: bool, now: real)
    ensures Admit(c, sweep, map[], [], now) == (map[[] := Bucket(c.burst - 1.0, now)], true)
  {
    var bs: Buckets := map[];
    assert Found(sweep, bs, now) == bs;
  }

  lemma {:induction false} EmptyState(c: Config, sweep: bool)
    ensures State(c, sweep, Repeat([], 0, 0.0)) == map[]
  {
  }

  /** The first `n` requests of a key at one instant are let through, one token each. */
  lemma {:induction false} Drained(c: Config, sweep: bool, n: nat, j: nat)
    requires c.rate > 0.0 && c.burst == n as real && 1 <= j <= n
    ensures State(c, sweep, Repeat([], j, 0.0)) == map[[] := Bucket((n - j) as real, 0.0)]
    ensures Decision(c, sweep, Repeat([], j, 0.0))
    decreases j
  {
    hide State, Decision, Admit;
    StepState(c, sweep, Repeat([], j - 1, 0.0), Req([], 0.0));
    if j == 1 {
      EmptyState(c, sweep);
      AdmitFirst(c, sweep, 0.0);
    } else {
      Drained(c, sweep, n, j - 1);
      AdmitAgain(c, sweep, (n - (j - 1)) as real, 0.0);
    }
  }

  /** Whatever the drained bucket holds, touching `m` other keys adds `m` buckets beside it. */
  lemma {:induction false} FillerState(c: Config, sweep: bool, n: nat, m: nat, tokens: real)
    requires State(c, sweep, Repeat([], n, 0.0)) == map[[] := Bucket(tokens, 0.0)] && m <= SWEEP_ABOVE
    ensures var bs := State(c, sweep, Filler(n, m));
            && [] in bs && bs[[]] == Bucket(tokens, 0.0) && |bs| == m + 1
            && forall k :: k in bs ==> bs[k].last == 0.0 && |k| <= m
    decreases m
  {
    hide State, Decision, Admit, Repeat;
    if m == 0 {
      var bs := State(c, sweep, Filler(n, m));
      assert bs.Keys == {[]} && |bs| == 1;
    } else {
      FillerState(c, sweep, n, m - 1, tokens);
      StepState(c, sweep, Filler(n, m - 1), Req(Zeros(m), 0.0));
      AdmitNew(c, sweep, State(c, sweep, Filler(n, m - 1)), Zeros(m), 0.0);
    }
  }

  /** The run that tells: after the filler, the drained key comes back at time `e`. */
  function Probe(n: nat, e: real, j: nat): seq<Req> {
    Repeat(Filler(n, SWEEP_ABOVE), j, e)
  }

  lemma {:induction false} SweepEmpties(c: Config, bs: Buckets, e: real)
    requires |bs| > SWEEP_ABOVE && e > IDLE_TTL && forall k :: k in bs ==> bs[k].last == 0.0
    ensures Admit(c, true, bs, [], e) == (map[[] := Bucket(c.burst - 1.0, e)], true)
  {
    assert Swept(bs, e) == map[];
  }

  /** With the sweep, the returning key finds a full bucket and gets its whole burst again. */
  lemma {:induction false} SweptProbe(c: Config, n: nat, e: real, j: nat)
    requires c.rate > 0.0 && c.burst == n as real && 1 <= j <= n && e > IDLE_TTL
    ensures State(c, true, Probe(n, e, j)) == map[[] := Bucket((n - j) as real, e)]
    ensures Decision(c, true, Probe(n, e, j))
    decreases j
  {
    hide State, Decision, Admit, Filler;
    StepState(c, true, Probe(n, e, j - 1), Req([], e));
    if j > 1 {
      SweptProbe(c, n, e, j - 1);
      AdmitAgain(c, true, (n - (j - 1)) as real, e);
    } else {
      Drained(c, true, n, n);
      FillerState(c, true, n, SWEEP_ABOVE, 0.0);
      SweepEmpties(c, State(c, true, Filler(n, SWEEP_ABOVE)), e);
    }
  }

  /** Without sweeping, a request of a known key that is let through leaves one token less. */
  lemma {:induction false} AdmittedCosts(c: Config, bs: Buckets, now: real)
    requires [] in bs && Admit(c, false, bs, [], now).1
    ensures var x := Refilled(c, bs[[]], now);
            x >= 1.0 && Admit(c, false, bs, [], now).0 == bs[[] := Bucket(x - 1.0, now)]
  {
    hide Refilled;
  }

  lemma {:induction false} NoTimeNoRefill(c: Config, b: Bucket)
    requires b.tokens <= c.burst
    ensures Refilled(c, b, b.last) == b.tokens
  {
    assert Accrued(c, b.last - b.last) == 0.0;
  }

  /** So each request let through costs one of the tokens accrued since. */
  lemma {:induction false} FullProbe(c: Config, n: nat, e: real, j: nat)
    requires c.rate > 0.0 && c.burst == n as real && 1 <= j <= n && e > 0.0 && Accrued(c, e) < c.burst
    requires forall i :: 1 <= i <= j ==> Probe(n, e, i) != [] && Decision(c, false, Probe(n, e, i))
    ensures var bs := State(c, false, Probe(n, e, j));
            [] in bs && bs[[]] == Bucket(Accrued(c, e) - j as real, e) && Accrued(c, e) >= j as real
    decreases j
  {
    hide State, Decision, Admit, Accrued, Filler;
    var before := Probe(n, e, j - 1);
    StepState(c, false, before, Req([], e));
    assert Probe(n, e, j) == before + [Req([], e)] && Decision(c, false, Probe(n, e, j));
    var bs := State(c, false, before);
    if j == 1 {
      Drained(c, false, n, n);
      FillerState(c, false, n, SWEEP_ABOVE, 0.0);
      assert e - 0.0 == e;
    } else {
      FullProbe(c, n, e, j - 1);
      hide Refilled;
      NoTimeNoRefill(c, bs[[]]);
    }
    AdmittedCosts(c, bs, e);
  }

  /** With no burst at all, a key is let in once and then refused for ever, unless its bucket is swept. */
  lemma {:induction false} ZeroBurstShows(c: Config)
    requires c.rate > 0.0 && c.burst == 0.0
    ensures !SweepUnobservable(c)
  {
    var e, before := IDLE_TTL + 1.0, Filler(1, SWEEP_ABOVE);
    FillerOrdered(1, SWEEP_ABOVE);
    RepeatOrdered(before, 1, e);
    hide State, Decision, Admit, Filler;
    assert Repeat(before, 1, e) == before + [Req([], e)];
    StepState(c, true, before, Req([], e));
    StepState(c, false, before, Req([], e));
    LonePair(c, true);
    LonePair(c, false);
    FillerState(c, true, 1, SWEEP_ABOVE, -1.0);
    FillerState(c, false, 1, SWEEP_ABOVE, -1.0);
    SweepEmpties(c, State(c, true, before), e);
    RefusedForEver(c, State(c, false, before), e);
  }

  lemma {:induction false} LonePair(c: Config, sweep: bool)
    requires c.burst == 0.0
    ensures State(c, sweep, Repeat([], 1, 0.0)) == map[[] := Bucket(-1.0, 0.0)]
  {
    hide State, Decision, Admit;
    StepState(c, sweep, Repeat([], 0, 0.0), Req([], 0.0));
    EmptyState(c, sweep);
    AdmitFirst(c, sweep, 0.0);
  }

  lemma {:induction false} RefusedForEver(c: Config, bs: Buckets, now: real)
    requires c.burst == 0.0 && [] in bs
    ensures !Admit(c, false, bs, [], now).1
  {
  }

  lemma {:induction false} EarlySweepShows(c: Config, n: nat)
    requires c.rate > 0.0 && n >= 1 && c.burst == n as real && Accrued(c, IDLE_TTL) < c.burst
    ensures !SweepUnobservable(c)
  {
    if SweepUnobservable(c) {
      var e := BetweenTimes(c);
      hide Accrued, State, Decision, Filler;
      FillerOrdered(n, SWEEP_ABOVE);
      forall i | 1 <= i <= n
        ensures Probe(n, e, i) != [] && Decision(c, false, Probe(n, e, i))
      {
        RepeatOrdered(Filler(n, SWEEP_ABOVE), i, e);
        SweptProbe(c, n, e, i);
      }
      FullProbe(c, n, e, n);
      assert false;
    }
  }

  /** For the whole-number bursts the limiter is built with (`ConfiguredExactly`), the sweep is
      unobservable exactly when the burst is at least one and an idle bucket refills within the TTL. */
  lemma {:induction false} SweepUnobservableExactly(c: Config, n: nat)
    requires c.rate > 0.0 && c.burst == n as real
    ensures SweepUnobservable(c) <==> n >= 1 && Accrued(c, IDLE_TTL) >= c.burst
  {
    if n == 0 {
      ZeroBurstShows(c);
    } else if Accrued(c, IDLE_TTL) >= c.burst {
      forall reqs: seq<Req> | reqs != [] && Nondecreasing(reqs)
        ensures Decision(c, true, reqs) == Decision(c, false, reqs)
      {
        StatesShadow(c, reqs, reqs[|reqs| - 1].time);
      }
    } else {
      EarlySweepShows(c, n);
    }
  }

  lemma {:induction false} CountStep(c: Config, init: seq<Req>, r: Req, t: real)
    ensures Count(c, true, init + [r], [], 0.0, t) ==
            Count(c, true, init, [], 0.0, t) +
            (if r.key == [] && 0.0 <= r.time <= t && Decision(c, true, init + [r]) then 1 else 0)
  {
    assert (init + [r])[..|init|] == init;
  }

  lemma {:induction false} DrainCount(c: Config, n: nat, j: nat, t: real)
    requires c.rate > 0.0 && c.burst == n as real && j <= n && t >= 0.0
    ensures Count(c, true, Repeat([], j, 0.0), [], 0.0, t) == j
    decreases j
  {
    hide State, Decision;
    if j == 0 {
    } else {
      DrainCount(c, n, j - 1, t);
      CountStep(c, Repeat([], j - 1, 0.0), Req([], 0.0), t);
      Drained(c, true, n, j);
    }
  }

  lemma {:induction false} FillerCount(c: Config, n: nat, m: nat, t: real)
    requires c.rate > 0.0 && c.burst == n as real && t >= 0.0
    ensures Count(c, true, Filler(n, m), [], 0.0, t) == n
    decreases m
  {
    hide State, Decision, Admit, Repeat, Count;
    if m == 0 {
      DrainCount(c, n, n, t);
    } else {
      FillerCount(c, n, m - 1, t);
      CountStep(c, Filler(n, m - 1), Req(Zeros(m), 0.0), t);
    }
  }

  /** The swept key spends its burst twice. */
  lemma {:induction false} ProbeCount(c: Config, n: nat, e: real, j: nat)
    requires c.rate > 0.0 && c.burst == n as real && j <= n && e > IDLE_TTL
    ensures Count(c, true, Probe(n, e, j), [], 0.0, e) == n + j
    decreases j
  {
    hide State, Decision, Admit, Filler, Count;
    if j == 0 {
      FillerCount(c, n, SWEEP_ABOVE, e);
    } else {
      ProbeCount(c, n, e, j - 1);
      CountStep(c, Probe(n, e, j - 1), Req([], e), e);
      SweptProbe(c, n, e, j);
    }
  }

  /** Swept too early, a key gets two bursts where the window earns it less than two. */
  lemma {:induction false} EarlySweepExceeds(c: Config, n: nat)
    requires c.rate > 0.0 && n >= 1 && c.burst == n as real && Accrued(c, IDLE_TTL) < c.burst
    ensures !RateBounded(c)
  {
    var e := BetweenTimes(c);
    hide Accrued, State, Decision, Filler, Count;
    FillerOrdered(n, SWEEP_ABOVE);
    RepeatOrdered(Filler(n, SWEEP_ABOVE), n, e);
    ProbeCount(c, n, e, n);
    assert e - 0.0 == e;
    assert Count(c, true, Probe(n, e, n), [], 0.0, e) as real > c.burst + Accrued(c, e - 0.0);
  }

  /** For the whole-number bursts the limiter is built with, the bound holds exactly when the burst is
      at least one and an idle bucket refills within the TTL. */
  lemma {:induction false} RateBoundedExactly(c: Config, n: nat)
    requires c.rate > 0.0 && c.burst == n as real
    ensures RateBounded(c) <==> n >= 1 && Accrued(c, IDLE_TTL) >= c.burst
  {
    hide RateBounded, Accrued;
    if n == 0 {
      SmallBurstExceeds(c);
    } else if Accrued(c, IDLE_TTL) >= c.burst {
      BoundHolds(c);
    } else {
      EarlySweepExceeds(c, n);
    }
  }

  /** Both guarantees, for whatever arguments the limiter is built with. */
  lemma {:induction false} ConfiguredExactly(rps: real, burst: int)
    ensures var c := Configure(rps, burst);
            var ok := (burst > 0 || rps <= 0.0 || rps >= 1.0) && Accrued(c, IDLE_TTL) >= c.burst;
            (RateBounded(c) <==> ok) && (SweepUnobservable(c) <==> ok)
  {
    var c := Configure(rps, burst);
    var n: int := c.burst.Floor;
    assert n >= 0 && c.burst == n as real;
    hide Configure, RateBounded, SweepUnobservable, Accrued;
    RateBoundedExactly(c, n);
    SweepUnobservableExactly(c, n);
  }

  /** A moment after the TTL at which an idle bucket is still short of full. */
  lemma {:induction false} BetweenTimes(c: Config) returns (e: real)
    requires c.rate > 0.0 && Accrued(c, IDLE_TTL) < c.burst
    ensures e > IDLE_TTL && Accrued(c, e) < c.burst
  {
    var spare := (c.burst - Accrued(c, IDLE_TTL)) / 2.0;
    var d := spare / c.rate;
    assert d * c.rate == spare && d > 0.0;
    e := IDLE_TTL + d;
    AccruedAdds(c, IDLE_TTL, d);
  }
}
