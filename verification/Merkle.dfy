/** RFC 6962 Merkle tree hashing and inclusion proofs (sections 2.1 and 2.1.1 of RFC 6962). */
module Merkle {
  import opened ByteStrings

  // ---------------------------------------------------------------- hashing and the uneven split

  function LeafHash(h: HashFn, data: Bytes): Bytes {
    Digest(h, [0] + data)
  }

  function NodeHash(h: HashFn, left: Bytes, right: Bytes): Bytes {
    Digest(h, [1] + left + right)
  }

  function Pow2(d: nat): (p: nat)
    ensures p >= 1
  {
    if d == 0 then 1 else 2 * Pow2(d - 1)
  }

  ghost predicate IsPow2(k: int) {
    exists d: nat :: k == Pow2(d)
  }

  /** The doubling loop of `largestPow2LessThan`, started at `k`. */
  function DoubleBelow(n: int, k: int): (r: int)
    requires k >= 1
    ensures k <= r && n <= 2 * r && (k < n ==> r < n)
    decreases n - k
  {
    if 2 * k < n then DoubleBelow(n, 2 * k) else k
  }

  function Split(n: int): (k: int)
    ensures 1 <= k && n <= 2 * k && (n >= 2 ==> k < n)
  {
    DoubleBelow(n, 1)
  }

  lemma {:induction false} DoubleBelowPow2(n: int, k: int, d: nat)
    requires k == Pow2(d)
    ensures IsPow2(DoubleBelow(n, k))
    decreases n - k
  {
    if 2 * k < n {
      assert Pow2(d + 1) == 2 * Pow2(d);
      DoubleBelowPow2(n, 2 * k, d + 1);
    }
  }

  lemma {:induction false} SplitPow2(n: int)
    ensures IsPow2(Split(n))
  {
    assert 1 == Pow2(0);
    DoubleBelowPow2(n, 1, 0);
  }

  /** A power of two strictly below another is at most half of it. */
  lemma {:induction false} Pow2Gap(a: nat, b: nat)
    requires Pow2(a) < Pow2(b)
    ensures 2 * Pow2(a) <= Pow2(b)
    decreases b
  {
    if a == 0 {
    } else {
      Pow2Gap(a - 1, b - 1);
    }
  }

  /** The split is the largest power of two strictly below `n`. */
  method LargestPow2LessThan(n: int) returns (k: int)
    requires n >= 2
    ensures k == Split(n)
    ensures IsPow2(k) && k < n
    ensures forall d: nat :: Pow2(d) < n ==> Pow2(d) <= k
  {
    k := 1;
    while 2 * k < n
      invariant k >= 1 && DoubleBelow(n, k) == Split(n)
      decreases n - k
    {
      k := 2 * k;
    }
    SplitPow2(n);
    forall d: nat | Pow2(d) < n
      ensures Pow2(d) <= k
    {
      var e: nat :| k == Pow2(e);
      if Pow2(e) < Pow2(d) {
        Pow2Gap(e, d);
      }
    }
  }

  // ---------------------------------------------------------------- roots

  /** The bytes whose hash is the root. */
  function RootInput(h: HashFn, leaves: seq<Bytes>): Bytes
    decreases |leaves|, 0
  {
    if |leaves| == 0 then []
    else if |leaves| == 1 then [0] + leaves[0]
    else
      var k := Split(|leaves|);
      [1] + Root(h, leaves[..k]) + Root(h, leaves[k..])
  }

  function Root(h: HashFn, leaves: seq<Bytes>): (r: Bytes)
    ensures |r| == HASH_LEN
    decreases |leaves|, 1
  {
    Digest(h, RootInput(h, leaves))
  }

  /** Walks two trees with one root down to the first place their hash inputs differ. */
  function RootCollision(h: HashFn, a: seq<Bytes>, b: seq<Bytes>): (Bytes, Bytes)
    decreases |a|
  {
    if RootInput(h, a) != RootInput(h, b) || |a| < 2 || |b| < 2 then
      (RootInput(h, a), RootInput(h, b))
    else
      var j, k := Split(|a|), Split(|b|);
      if a[..j] != b[..k] then RootCollision(h, a[..j], b[..k]) else RootCollision(h, a[j..], b[k..])
  }

  /** Node inputs have fixed-width halves, so equal inputs have equal halves. */
  lemma {:induction false} HalvesAgree(l: Bytes, r: Bytes, l': Bytes, r': Bytes)
    requires |l| == |l'| || |r| == |r'|
    requires [1 as byte] + l + r == [1] + l' + r'
    ensures l == l' && r == r'
  {
    var s, s' := [1 as byte] + l + r, [1] + l' + r';
    assert |s| == 1 + |l| + |r| && |s'| == 1 + |l'| + |r'|;
    assert l == s[1..1 + |l|] && l' == s'[1..1 + |l'|];
    assert r == s[1 + |l|..] && r' == s'[1 + |l'|..];
  }

  lemma {:induction false} NodesAgree(
      h: HashFn, a: seq<Bytes>, al: seq<Bytes>, ar: seq<Bytes>, b: seq<Bytes>, bl: seq<Bytes>, br: seq<Bytes>)
    requires |a| >= 2 && al == a[..Split(|a|)] && ar == a[Split(|a|)..]
    requires |b| >= 2 && bl == b[..Split(|b|)] && br == b[Split(|b|)..]
    requires RootInput(h, a) == RootInput(h, b)
    ensures Root(h, al) == Root(h, bl) && Root(h, ar) == Root(h, br)
  {
    HalvesAgree(Root(h, al), Root(h, ar), Root(h, bl), Root(h, br));
  }

  /** The root binds contents and length: two lists of any lengths with one root are equal, or the
      extractor above names two inputs on which the hash collides. */
  lemma {:induction false} RootBinding(h: HashFn, a: seq<Bytes>, b: seq<Bytes>)
    requires Root(h, a) == Root(h, b)
    ensures a == b || Collides(h, RootCollision(h, a, b))
    decreases |a|
  {
    hide Split;
    if RootInput(h, a) == RootInput(h, b) {
      if |a| < 2 || |b| < 2 {
        SmallTreesAgree(h, a, b);
      } else {
        var j, k := Split(|a|), Split(|b|);
        var al, ar, bl, br := a[..j], a[j..], b[..k], b[k..];
        NodesAgree(h, a, al, ar, b, bl, br);
        if al != bl {
          RootBinding(h, al, bl);
        } else {
          RootBinding(h, ar, br);
          assert a == al + ar && b == bl + br;
        }
      }
    }
  }

  /** The empty, leaf and node inputs start differently (nothing, 0x00, 0x01). */
  lemma {:induction false} SmallTreesAgree(h: HashFn, a: seq<Bytes>, b: seq<Bytes>)
    requires RootInput(h, a) == RootInput(h, b)
    requires |a| < 2 || |b| < 2
    ensures a == b
  {
    var s, t := RootInput(h, a), RootInput(h, b);
    assert |a| == 0 <==> |s| == 0;
    assert |b| == 0 <==> |t| == 0;
    if |a| > 0 {
      assert s[0] == (if |a| == 1 then 0 else 1) && t[0] == (if |b| == 1 then 0 else 1);
      assert a[0] == s[1..] && b[0] == t[1..];
      assert a == [a[0]] && b == [b[0]];
    }
  }

  // ---------------------------------------------------------------- inclusion proofs

  function Path(h: HashFn, m: nat, d: seq<Bytes>): seq<Bytes>
    requires m < |d|
    decreases |d|
  {
    if |d| == 1 then []
    else
      var k := Split(|d|);
      if m < k then Path(h, m, d[..k]) + [Root(h, d[k..])]
      else Path(h, m - k, d[k..]) + [Root(h, d[..k])]
  }

  function Proof(h: HashFn, leaves: seq<Bytes>, m: int): Option<seq<Bytes>> {
    if m < 0 || m >= |leaves| then None else Some(Path(h, m, leaves))
  }

  function RootFromProof(h: HashFn, leafH: Bytes, m: nat, n: nat, proof: seq<Bytes>): (r: Option<Bytes>)
    requires m < n
    ensures r.Some? && |leafH| == HASH_LEN ==> |r.value| == HASH_LEN
    decreases n
  {
    if n == 1 then
      if |proof| != 0 then None else Some(leafH)
    else if |proof| == 0 then None
    else
      var sib, rest, k := proof[|proof| - 1], proof[..|proof| - 1], Split(n);
      if m < k then
        var left := RootFromProof(h, leafH, m, k, rest);
        if left.None? then None else Some(NodeHash(h, left.value, sib))
      else
        var right := RootFromProof(h, leafH, m - k, n - k, rest);
        if right.None? then None else Some(NodeHash(h, sib, right.value))
  }

  predicate VerifyProof(h: HashFn, leaf: Bytes, m: int, n: int, proof: seq<Bytes>, root: Bytes) {
    0 <= m < n && RootFromProof(h, LeafHash(h, leaf), m, n, proof) == Some(root)
  }

  lemma {:induction false} RootOfNode(h: HashFn, d: seq<Bytes>)
    requires |d| > 1
    ensures Root(h, d) == NodeHash(h, Root(h, d[..Split(|d|)]), Root(h, d[Split(|d|)..]))
  {
    hide Split, Digest;
  }

  lemma {:induction false} PathVerifies(h: HashFn, d: seq<Bytes>, m: nat)
    requires m < |d|
    ensures RootFromProof(h, LeafHash(h, d[m]), m, |d|, Path(h, m, d)) == Some(Root(h, d))
    decreases |d|
  {
    hide Split, Digest;
    if |d| == 1 {
    } else {
      hide Root, NodeHash, LeafHash;
      RootOfNode(h, d);
      var k := Split(|d|);
      var l, r := d[..k], d[k..];
      if m < k {
        assert l[m] == d[m];
        PathVerifies(h, l, m);
        LastSplitsOff(Path(h, m, l), Root(h, r));
      } else {
        assert r[m - k] == d[m];
        PathVerifies(h, r, m - k);
        LastSplitsOff(Path(h, m - k, r), Root(h, l));
      }
    }
  }

  lemma {:induction false} LastSplitsOff(p: seq<Bytes>, x: Bytes)
    ensures var q := p + [x]; q[|q| - 1] == x && q[..|q| - 1] == p
  {
  }

  /** Follows an accepted proof and the real tree down together to where their hash inputs differ. */
  function ProofCollision(h: HashFn, leaf: Bytes, m: nat, d: seq<Bytes>, proof: seq<Bytes>): (Bytes, Bytes)
    requires m < |d|
    decreases |d|
  {
    if |d| == 1 || |proof| == 0 then ([0] + leaf, [0] + d[m])
    else
      var sib, rest, k := proof[|proof| - 1], proof[..|proof| - 1], Split(|d|);
      if m < k then
        var left := RootFromProof(h, LeafHash(h, leaf), m, k, rest);
        if left != Some(Root(h, d[..k])) || sib != Root(h, d[k..])
        then ([1] + (if left.Some? then left.value else []) + sib, RootInput(h, d))
        else ProofCollision(h, leaf, m, d[..k], rest)
      else
        var right := RootFromProof(h, LeafHash(h, leaf), m - k, |d| - k, rest);
        if right != Some(Root(h, d[k..])) || sib != Root(h, d[..k])
        then ([1] + sib + (if right.Some? then right.value else []), RootInput(h, d))
        else ProofCollision(h, leaf, m - k, d[k..], rest)
  }

  lemma {:induction false} ProofBinding(h: HashFn, leaf: Bytes, m: nat, d: seq<Bytes>, proof: seq<Bytes>)
    requires m < |d|
    requires RootFromProof(h, LeafHash(h, leaf), m, |d|, proof) == Some(Root(h, d))
    ensures (leaf == d[m] && proof == Path(h, m, d)) || Collides(h, ProofCollision(h, leaf, m, d, proof))
    decreases |d|
  {
    hide Split;
    if |d| == 1 {
      if [0] + leaf == [0] + d[m] {
        assert leaf == ([0 as byte] + leaf)[1..] && d[m] == ([0 as byte] + d[m])[1..];
      }
    } else {
      var sib, rest, k := proof[|proof| - 1], proof[..|proof| - 1], Split(|d|);
      assert proof == rest + [sib];
      var l, r := Root(h, d[..k]), Root(h, d[k..]);
      if m < k {
        var left := RootFromProof(h, LeafHash(h, leaf), m, k, rest).value;
        if [1] + left + sib == [1] + l + r {
          HalvesAgree(left, sib, l, r);
          ProofBinding(h, leaf, m, d[..k], rest);
        }
      } else {
        var right := RootFromProof(h, LeafHash(h, leaf), m - k, |d| - k, rest).value;
        if [1] + sib + right == [1] + l + r {
          HalvesAgree(sib, right, l, r);
          ProofBinding(h, leaf, m - k, d[k..], rest);
        }
      }
    }
  }

  /** Against a real root, `VerifyProof` accepts the right leaf with its own path, rejects every
      index out of range, and accepts anything else only by way of the collision it names. */
  lemma {:induction false} VerifyProofExact(h: HashFn, d: seq<Bytes>, m: int, leaf: Bytes, proof: seq<Bytes>)
    ensures var ok := VerifyProof(h, leaf, m, |d|, proof, Root(h, d));
            if 0 <= m < |d| then
              && (leaf == d[m] && Proof(h, d, m) == Some(proof) ==> ok)
              && (ok ==> (leaf == d[m] && Proof(h, d, m) == Some(proof))
                         || Collides(h, ProofCollision(h, leaf, m, d, proof)))
            else !ok && Proof(h, d, m).None?
  {
    if 0 <= m < |d| {
      PathVerifies(h, d, m);
      if VerifyProof(h, leaf, m, |d|, proof, Root(h, d)) {
        ProofBinding(h, leaf, m, d, proof);
      }
    }
  }

  lemma {:induction false} DoubleBelowHalf(n: int, a: nat, e: nat)
    requires Pow2(a) < n <= Pow2(e)
    ensures e >= 1 && DoubleBelow(n, Pow2(a)) <= Pow2(e - 1)
    decreases n - Pow2(a)
  {
    Pow2Gap(a, e);
    if 2 * Pow2(a) < n {
      assert Pow2(a + 1) == 2 * Pow2(a);
      DoubleBelowHalf(n, a + 1, e);
    }
  }

  lemma {:induction false} PathAtMost(h: HashFn, m: nat, d: seq<Bytes>, e: nat)
    requires m < |d| <= Pow2(e)
    ensures |Path(h, m, d)| <= e
    decreases |d|
  {
    if |d| == 1 {
    } else {
      assert Pow2(0) == 1;
      DoubleBelowHalf(|d|, 0, e);
      var k := Split(|d|);
      if m < k {
        PathAtMost(h, m, d[..k], e - 1);
      } else {
        PathAtMost(h, m - k, d[k..], e - 1);
      }
    }
  }

  /** A path of length `len` needs more than 2^(len-1) leaves: proofs are logarithmic. */
  lemma {:induction false} PathLength(h: HashFn, m: nat, d: seq<Bytes>)
    requires m < |d| && |d| > 1
    ensures var len := |Path(h, m, d)|; len >= 1 && Pow2(len - 1) < |d|
  {
    var len := |Path(h, m, d)|;
    if |d| <= Pow2(len - 1) {
      PathAtMost(h, m, d, len - 1);
    }
  }
}
