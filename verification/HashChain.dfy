/** Signature schemes, and the walk over a hash-chained, signed log that the audit log and the consent
    ledger share: what it accepts, where it stops, and what the last digest of an accepted log binds. */
module HashChain {
  import opened ByteStrings

  // ---------------------------------------------------------------- signatures

  /** Any signature scheme. `verify` takes a public key, a message and a signature. */
  datatype Scheme = Scheme(pub: Bytes -> Bytes,
                           sign: (Bytes, Bytes) -> Bytes,
                           verify: (Bytes, Bytes, Bytes) -> bool)

  function PublicKey(s: Scheme, key: Bytes): Bytes { s.pub(key) }

  function Sign(s: Scheme, key: Bytes, msg: Bytes): Bytes { s.sign(key, msg) }

  predicate SignatureOk(s: Scheme, pub: Bytes, msg: Bytes, sig: Bytes) { s.verify(pub, msg, sig) }

  /** The one assumption made of a scheme: what a key signs, its public key verifies. */
  ghost predicate SignaturesVerify(s: Scheme) {
    forall key, msg :: SignatureOk(s, PublicKey(s, key), msg, Sign(s, key, msg))
  }

  type KeySet = map<Bytes, Bytes>

  datatype Signer = Signer(kid: Bytes, key: Bytes)

  predicate Knows(s: Scheme, keys: KeySet, signer: Signer) {
    signer.kid in keys && keys[signer.kid] == PublicKey(s, signer.key)
  }

  // ---------------------------------------------------------------- the chain walk

  const GENESIS: Bytes := Zeros(HASH_LEN)

  /** How one kind of log is walked: the back-link and the digest of a record, the check a record must
      pass on its own (an error, or none), and the error for a back-link that does not match. */
  datatype Rules<!T, !E> = Rules(prevOf: T -> Bytes, digest: T -> Bytes, check: T -> Option<E>, broken: T -> E)

  function Tail<T, E>(r: Rules<T, E>, log: seq<T>): Bytes {
    if log == [] then GENESIS else r.digest(log[|log| - 1])
  }

  /** The first error of the walk: that of the longest proper prefix, then that of the last record. */
  function Verdict<T, E>(r: Rules<T, E>, log: seq<T>): Option<E>
    decreases |log|
  {
    if log == [] then None else
    var init, e := log[..|log| - 1], log[|log| - 1];
    var v := Verdict(r, init);
    if v.Some? then v
    else if r.prevOf(e) != Tail(r, init) then Some(r.broken(e))
    else r.check(e)
  }

  ghost predicate ChainIntact<T, E>(r: Rules<T, E>, log: seq<T>) {
    forall i {:trigger log[..i]} :: 0 <= i < |log| ==> r.prevOf(log[i]) == Tail(r, log[..i])
  }

  ghost predicate RecordsPass<T, E>(r: Rules<T, E>, log: seq<T>) {
    forall i :: 0 <= i < |log| ==> r.check(log[i]).None?
  }

  /** A log is accepted exactly when its links match and each record passes on its own. */
  lemma {:induction false} AcceptanceMeans<T, E>(r: Rules<T, E>, log: seq<T>)
    ensures Verdict(r, log).None? <==> ChainIntact(r, log) && RecordsPass(r, log)
    decreases |log|
  {
    if log == [] {
    } else {
      var init, n := log[..|log| - 1], |log| - 1;
      AcceptanceMeans(r, init);
      assert log[..n] == init && log == init + [log[n]];
      assert forall i {:trigger init[..i]} {:trigger log[..i]} :: 0 <= i < n ==> init[..i] == log[..i];
    }
  }

  /** Once a prefix is rejected the whole log is, for the same reason; so every prefix of an accepted
      log is accepted. */
  lemma {:induction false} RejectionSticks<T, E>(r: Rules<T, E>, log: seq<T>, n: nat)
    requires n <= |log|
    ensures Verdict(r, log[..n]).Some? ==> Verdict(r, log) == Verdict(r, log[..n])
    decreases |log|
  {
    if n == |log| {
      assert log[..n] == log;
    } else {
      var init := log[..|log| - 1];
      RejectionSticks(r, init, n);
      assert init[..n] == log[..n];
    }
  }

  /** One turn of the walk: at record `i`, the walk stops with an error or accepts one record more. */
  lemma {:induction false} WalkStep<T, E>(r: Rules<T, E>, log: seq<T>, i: nat)
    requires i < |log| && Verdict(r, log[..i]).None?
    ensures var e := log[i];
            if r.prevOf(e) != Tail(r, log[..i]) then Verdict(r, log) == Some(r.broken(e))
            else if r.check(e).Some? then Verdict(r, log) == r.check(e)
            else Verdict(r, log[..i + 1]).None? && Tail(r, log[..i + 1]) == r.digest(e)
  {
    assert log[..i + 1][..i] == log[..i];
    RejectionSticks(r, log, i + 1);
  }

  /** One more record on a log is accepted exactly when the log is, the link matches and it passes. */
  lemma {:induction false} AppendAccepted<T, E>(r: Rules<T, E>, log: seq<T>, e: T)
    ensures Verdict(r, log + [e]).None?
       <==> Verdict(r, log).None? && r.prevOf(e) == Tail(r, log) && r.check(e).None?
  {
    assert (log + [e])[..|log|] == log;
  }

  /** A rejection is the error of the first record at which the prefix stops being accepted. */
  lemma {:induction false} FailureLocated<T, E>(r: Rules<T, E>, log: seq<T>) returns (i: nat)
    requires Verdict(r, log).Some?
    ensures i < |log| && Verdict(r, log[..i]).None? && Verdict(r, log[..i + 1]) == Verdict(r, log)
    ensures Verdict(r, log) == Some(r.broken(log[i])) || Verdict(r, log) == r.check(log[i])
    decreases |log|
  {
    var init := log[..|log| - 1];
    if Verdict(r, init).None? {
      i := |log| - 1;
      assert log[..i + 1] == log;
    } else {
      i := FailureLocated(r, init);
      assert init[..i] == log[..i] && init[..i + 1] == log[..i + 1];
    }
  }

  // ---------------------------------------------------------------- the last digest binds the log

  datatype Evidence = NoEvidence | Collision(pair: (Bytes, Bytes)) | GenesisPreimage(input: Bytes)

  predicate Breaks(h: HashFn, ev: Evidence) {
    match ev
    case NoEvidence => false
    case Collision(pair) => Collides(h, pair)
    case GenesisPreimage(x) => Digest(h, x) == GENESIS
  }

  /** Walks two lists of payloads back from their ends to the first difference. */
  function ChainEvidence(a: seq<Bytes>, b: seq<Bytes>): Evidence
    requires a != [] && b != []
    decreases |a|
  {
    var x, y := a[|a| - 1], b[|b| - 1];
    if x != y then Collision((x, y))
    else if |a| == 1 && |b| == 1 then NoEvidence
    else if |a| == 1 then GenesisPreimage(b[|b| - 2])
    else if |b| == 1 then GenesisPreimage(a[|a| - 2])
    else ChainEvidence(a[..|a| - 1], b[..|b| - 1])
  }

  function TailDigest(h: HashFn, ps: seq<Bytes>): Bytes {
    if ps == [] then GENESIS else Digest(h, ps[|ps| - 1])
  }

  /** The back-link read out of each payload (by `prevIn`) is the digest of the payload before it. */
  ghost predicate Linked(h: HashFn, prevIn: Bytes -> Bytes, ps: seq<Bytes>)
    decreases |ps|
  {
    ps == [] ||
    (prevIn(ps[|ps| - 1]) == TailDigest(h, ps[..|ps| - 1]) && Linked(h, prevIn, ps[..|ps| - 1]))
  }

  lemma {:induction false} ChainBinding(h: HashFn, prevIn: Bytes -> Bytes, a: seq<Bytes>, b: seq<Bytes>)
    requires a != [] && b != [] && Linked(h, prevIn, a) && Linked(h, prevIn, b)
    requires TailDigest(h, a) == TailDigest(h, b)
    ensures a == b || Breaks(h, ChainEvidence(a, b))
    decreases |a|
  {
    var a', b' := a[..|a| - 1], b[..|b| - 1];
    assert a == a' + [a[|a| - 1]] && b == b' + [b[|b| - 1]];
    if a[|a| - 1] == b[|b| - 1] && |a| > 1 && |b| > 1 {
      ChainBinding(h, prevIn, a', b');
    }
  }

  function Payloads<T>(payload: T -> Bytes, log: seq<T>): (ps: seq<Bytes>)
    ensures |ps| == |log| && forall i :: 0 <= i < |log| ==> ps[i] == payload(log[i])
  {
    if log == [] then [] else Payloads(payload, log[..|log| - 1]) + [payload(log[|log| - 1])]
  }

  /** Records are digested by hashing their payload, and the payload gives back the link. */
  ghost predicate Encodes<T, E>(h: HashFn, r: Rules<T, E>, payload: T -> Bytes, prevIn: Bytes -> Bytes, e: T) {
    r.digest(e) == Digest(h, payload(e)) && prevIn(payload(e)) == r.prevOf(e)
  }

  lemma {:induction false} AcceptedIsLinked<T, E>(
      h: HashFn, r: Rules<T, E>, payload: T -> Bytes, prevIn: Bytes -> Bytes, log: seq<T>)
    requires Verdict(r, log).None?
    requires forall i :: 0 <= i < |log| ==> Encodes(h, r, payload, prevIn, log[i])
    ensures Linked(h, prevIn, Payloads(payload, log)) && TailDigest(h, Payloads(payload, log)) == Tail(r, log)
    decreases |log|
  {
    if log == [] {
    } else {
      var init := log[..|log| - 1];
      AcceptedIsLinked(h, r, payload, prevIn, init);
      assert Payloads(payload, log)[..|log| - 1] == Payloads(payload, init);
    }
  }
}
