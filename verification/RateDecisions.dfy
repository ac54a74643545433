/** The token bucket's decision, exactly: a request is let in if and only if no window that ends with it would
    then hold more than the burst and what the window's length earns. */
module RateDecisions {
  import opened ByteStrings
  import opened RateLimiter

  /** Letting the request in would keep every window that ends with it within its budget. */
  ghost predicate WithinBudget(c: Config, sweep: bool, reqs: seq<Req>, r: Req) {
    forall s :: s <= r.time ==>
      Count(c, sweep, reqs, r.key, s, r.time) as real + 1.0 <= c.burst + Accrued(c, r.time - s)
  }

  lemma {:induction false} CountAppend(c: Config, sweep: bool, init: seq<Req>, r: Req, key: Bytes, s: real, t: real)
    ensures Count(c, sweep, init + [r], key, s, t) ==
            Count(c, sweep, init, key, s, t) +
            (if r.key == key && s <= r.time <= t && Decision(c, sweep, init + [r]) then 1 else 0)
  {
    assert (init + [r])[..|init|] == init;
  }

  lemma {:induction false} OrderAppend(init: seq<Req>, r: Req)
    requires Nondecreasing(init + [r])
    ensures Nondecreasing(init) && (init != [] ==> init[|init| - 1].time <= r.time)
  {
    assert forall i :: 0 <= i < |init| ==> (init + [r])[i] == init[i];
    assert (init + [r])[|init|] == r;
  }

  // ---------------------------------------------------------------- what a bucket remembers

  /** A key's bucket is stamped with its last request: none is counted after it, and none before its first. */
  lemma {:induction false} Quiet(c: Config, reqs: seq<Req>, key: Bytes, s: real, t: real)
    requires c.rate > 0.0 && c.burst >= 1.0 && Nondecreasing(reqs)
    ensures var bs := State(c, false, reqs);
            && (key !in bs ==> Count(c, false, reqs, key, s, t) == 0)
            && (key in bs && s > bs[key].last ==> Count(c, false, reqs, key, s, t) == 0)
            && (key in bs && t >= bs[key].last ==>
                  Count(c, false, reqs, key, s, t) == Count(c, false, reqs, key, s, bs[key].last))
    decreases |reqs|
  {
    if reqs == [] {
    } else {
      var init, r := reqs[..|reqs| - 1], reqs[|reqs| - 1];
      assert reqs == init + [r];
      OrderAppend(init, r);
      StateSane(c, false, init, r.time);
      Quiet(c, init, key, s, t);
      Quiet(c, init, key, s, r.time);
      QuietStep(c, init, r, key, s, t);
    }
  }

  lemma {:induction false} QuietStep(c: Config, init: seq<Req>, r: Req, key: Bytes, s: real, t: real)
    requires Sane(c, State(c, false, init), r.time)
    requires var bs := State(c, false, init);
             && (key !in bs ==> Count(c, false, init, key, s, t) == 0 == Count(c, false, init, key, s, r.time))
             && (key in bs && s > bs[key].last ==> Count(c, false, init, key, s, t) == 0)
             && (key in bs && t >= bs[key].last ==>
                   Count(c, false, init, key, s, t) == Count(c, false, init, key, s, bs[key].last))
             && (key in bs ==> Count(c, false, init, key, s, r.time) == Count(c, false, init, key, s, bs[key].last))
    ensures var bs := State(c, false, init + [r]);
            && (key !in bs ==> Count(c, false, init + [r], key, s, t) == 0)
            && (key in bs && s > bs[key].last ==> Count(c, false, init + [r], key, s, t) == 0)
            && (key in bs && t >= bs[key].last ==>
                  Count(c, false, init + [r], key, s, t) == Count(c, false, init + [r], key, s, bs[key].last))
  {
    StepState(c, false, init, r);
    Stamped(c, State(c, false, init), r.key, r.time);
    hide State, Decision, Admit, Count;
    var bs := State(c, false, init + [r]);
    CountAppend(c, false, init, r, key, s, t);
    if key in bs {
      CountAppend(c, false, init, r, key, s, bs[key].last);
    }
  }

  /** A request stamps its own bucket and leaves the others. */
  lemma {:induction false} Stamped(c: Config, bs: Buckets, key: Bytes, now: real)
    ensures var bs' := Admit(c, false, bs, key, now).0;
            && key in bs' && bs'[key].last == now
            && forall k :: k != key ==> (k in bs' <==> k in bs) && (k in bs ==> bs'[k] == bs[k])
  {
  }

  /** Since `s` the bucket has been at the brim, it has only been drawn on: what it holds is the burst and
      what was earned since, less what was let in since. */
  ghost predicate DrawnSince(c: Config, reqs: seq<Req>, key: Bytes, s: real) {
    var bs := State(c, false, reqs);
    && key in bs && s <= bs[key].last
    && bs[key].tokens == c.burst + Accrued(c, bs[key].last - s) - Count(c, false, reqs, key, s, bs[key].last) as real
  }

  lemma {:induction false} DrawnFrom(c: Config, reqs: seq<Req>, key: Bytes) returns (s: real)
    requires c.rate > 0.0 && c.burst >= 1.0 && Nondecreasing(reqs) && key in State(c, false, reqs)
    ensures DrawnSince(c, reqs, key, s)
    decreases |reqs|
  {
    var init, r := reqs[..|reqs| - 1], reqs[|reqs| - 1];
    assert reqs == init + [r];
    OrderAppend(init, r);
    StepState(c, false, init, r);
    var bs := State(c, false, init);
    Stamped(c, bs, r.key, r.time);
    StateSane(c, false, init, r.time);
    hide State, Decision, Admit, Count;
    if r.key != key {
      s := DrawnFrom(c, init, key);
      CountAppend(c, false, init, r, key, s, bs[key].last);
    } else if key !in bs || bs[key].tokens + Accrued(c, r.time - bs[key].last) > c.burst {
      s := r.time;
      AtTheBrim(c, init, r);
    } else {
      s := DrawnFrom(c, init, key);
      DrawnOn(c, init, r, s);
    }
  }

  /** A request that finds its bucket full, or none, starts a new account. */
  lemma {:induction false} AtTheBrim(c: Config, init: seq<Req>, r: Req)
    requires c.rate > 0.0 && c.burst >= 1.0 && Nondecreasing(init) && Sane(c, State(c, false, init), r.time)
    requires var bs := State(c, false, init);
             r.key !in bs || bs[r.key].tokens + Accrued(c, r.time - bs[r.key].last) > c.burst
    ensures DrawnSince(c, init + [r], r.key, r.time)
  {
    var bs := State(c, false, init);
    assert Admit(c, false, bs, r.key, r.time) == (bs[r.key := Bucket(c.burst - 1.0, r.time)], true);
    assert Accrued(c, r.time - r.time) == 0.0;
    assert r.key in bs ==> bs[r.key].last < r.time;
    hide State, Decision, Admit, Count, Accrued;
    StepState(c, false, init, r);
    Quiet(c, init, r.key, r.time, r.time);
    CountAppend(c, false, init, r, r.key, r.time, r.time);
  }

  /** Any other draws on the account it finds. */
  lemma {:induction false} DrawnOn(c: Config, init: seq<Req>, r: Req, s: real)
    requires c.rate > 0.0 && c.burst >= 1.0 && Nondecreasing(init) && Sane(c, State(c, false, init), r.time)
    requires DrawnSince(c, init, r.key, s)
    requires var b := State(c, false, init)[r.key]; b.tokens + Accrued(c, r.time - b.last) <= c.burst
    ensures DrawnSince(c, init + [r], r.key, s)
  {
    var bs := State(c, false, init);
    var b := bs[r.key];
    var t := b.tokens + Accrued(c, r.time - b.last);
    assert Admit(c, false, bs, r.key, r.time) ==
           (bs[r.key := Bucket(if t >= 1.0 then t - 1.0 else t, r.time)], t >= 1.0);
    AccruedAdds(c, b.last - s, r.time - b.last);
    assert (b.last - s) + (r.time - b.last) == r.time - s;
    hide State, Decision, Admit, Count, Accrued;
    StepState(c, false, init, r);
    Quiet(c, init, r.key, s, r.time);
    CountAppend(c, false, init, r, r.key, s, r.time);
  }

  // ---------------------------------------------------------------- the decision

  lemma {:induction false} RefusedOverBudget(c: Config, reqs: seq<Req>, r: Req)
    requires c.rate > 0.0 && c.burst >= 1.0 && Nondecreasing(reqs + [r]) && !Decision(c, false, reqs + [r])
    ensures !WithinBudget(c, false, reqs, r)
  {
    OrderAppend(reqs, r);
    StepState(c, false, reqs, r);
    StateSane(c, false, reqs, r.time);
    var bs := State(c, false, reqs);
    assert r.key in bs && bs[r.key].tokens + Accrued(c, r.time - bs[r.key].last) < 1.0;
    hide State, Decision, Admit, Count, Accrued;
    var last := bs[r.key].last;
    var s := DrawnFrom(c, reqs, r.key);
    Quiet(c, reqs, r.key, s, r.time);
    AccruedAdds(c, last - s, r.time - last);
    assert (last - s) + (r.time - last) == r.time - s;
    assert Count(c, false, reqs, r.key, s, r.time) as real + 1.0 > c.burst + Accrued(c, r.time - s);
  }

  lemma {:induction false} AllowedWithinBudget(c: Config, reqs: seq<Req>, r: Req)
    requires c.rate > 0.0 && c.burst >= 1.0 && Nondecreasing(reqs + [r]) && Decision(c, false, reqs + [r])
    ensures WithinBudget(c, false, reqs, r)
  {
    hide Decision, Count, Accrued;
    forall s | s <= r.time
      ensures Count(c, false, reqs, r.key, s, r.time) as real + 1.0 <= c.burst + Accrued(c, r.time - s)
    {
      CountBound(c, reqs + [r], r.key, s, r.time);
      CountAppend(c, false, reqs, r, r.key, s, r.time);
    }
  }

  /** Without sweeping: a request is let in if and only if that keeps every window that ends with it within
      burst + rate * length. */
  lemma {:induction false} DecisionExactly(c: Config, reqs: seq<Req>, r: Req)
    requires c.rate > 0.0 && c.burst >= 1.0 && Nondecreasing(reqs + [r])
    ensures Decision(c, false, reqs + [r]) <==> WithinBudget(c, false, reqs, r)
  {
    hide Decision, WithinBudget;
    if Decision(c, false, reqs + [r]) {
      AllowedWithinBudget(c, reqs, r);
    } else {
      RefusedOverBudget(c, reqs, r);
    }
  }

  /** And with it, whenever an idle bucket refills within the TTL. */
  lemma {:induction false} SweptDecisionExactly(c: Config, reqs: seq<Req>, r: Req)
    requires c.rate > 0.0 && c.burst >= 1.0 && Accrued(c, IDLE_TTL) >= c.burst && Nondecreasing(reqs + [r])
    ensures Decision(c, true, reqs + [r]) <==> WithinBudget(c, true, reqs, r)
  {
    OrderAppend(reqs, r);
    DecisionExactly(c, reqs, r);
    StatesShadow(c, reqs + [r], r.time);
    hide Decision, Count;
    forall s
      ensures Count(c, true, reqs, r.key, s, r.time) == Count(c, false, reqs, r.key, s, r.time)
    {
      CountsAgree(c, reqs, r.key, s, r.time);
    }
  }

  // ---------------------------------------------------------------- what the sweep is for

  /** Every bucket held is that of a request made at the time it is stamped with. */
  lemma {:induction false} HeldAreRequested(c: Config, sweep: bool, reqs: seq<Req>, k: Bytes)
    requires k in State(c, sweep, reqs)
    ensures Req(k, State(c, sweep, reqs)[k].last) in reqs
    decreases |reqs|
  {
    var init, r := reqs[..|reqs| - 1], reqs[|reqs| - 1];
    assert reqs == init + [r];
    if k != r.key {
      HeldAreRequested(c, sweep, init, k);
    }
  }

  /** After any request the map holds at most 1025 buckets, or only those of keys that made a request within
      the TTL. */
  lemma {:induction false} MemoryBounded(c: Config, reqs: seq<Req>, r: Req)
    ensures var bs := State(c, true, reqs + [r]);
            || |bs| <= SWEEP_ABOVE + 1
            || forall k :: k in bs ==>
                 r.time - bs[k].last <= IDLE_TTL && Req(k, bs[k].last) in reqs + [r]
  {
    StepState(c, true, reqs, r);
    var before, bs := State(c, true, reqs), State(c, true, reqs + [r]);
    hide State;
    if |before| <= SWEEP_ABOVE {
      assert bs.Keys == before.Keys + {r.key};
      assert |bs.Keys| <= |before.Keys| + 1;
    } else {
      forall k | k in bs
        ensures Req(k, bs[k].last) in reqs + [r]
      {
        HeldAreRequested(c, true, reqs + [r], k);
      }
    }
  }
}
