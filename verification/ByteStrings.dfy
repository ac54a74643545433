/** Byte strings, fixed-width big-endian integers, and hash functions.

    A Go `string` and a Go `[]byte` are both modelled as `Bytes`.  SHA-256 is an arbitrary function
    to 32-byte strings, passed as a parameter, so every theorem holds of every such function.
 */
module ByteStrings {

  type byte = b: int | 0 <= b < 256
  type Bytes = seq<byte>
  type int64 = n: int | -0x8000_0000_0000_0000 <= n < 0x8000_0000_0000_0000

  datatype Option<+T> = None | Some(value: T)

  const TWO_32: int := 0x1_0000_0000
  const TWO_64: int := 0x1_0000_0000_0000_0000
  const HASH_LEN: nat := 32

  function Zeros(n: nat): (z: Bytes)
    ensures |z| == n && forall i :: 0 <= i < n ==> z[i] == 0
  {
    seq(n, _ => 0)
  }

  /** The bytes of an ASCII literal. */
  function Ascii(s: string): (b: Bytes)
    ensures |b| == |s|
  {
    seq(|s|, i requires 0 <= i < |s| => (s[i] as int) % 256)
  }

  // ---------------------------------------------------------------- hashing

  /** A hash function with 32-byte digests. (An output of any other length is replaced, so that
      every function on byte strings gives one; every 32-byte hash function arises this way.) */
  datatype HashFn = HashFn(raw: Bytes -> Bytes)

  function Digest(h: HashFn, x: Bytes): (d: Bytes)
    ensures |d| == HASH_LEN
  {
    var d := h.raw(x);
    if |d| == HASH_LEN then d else Zeros(HASH_LEN)
  }

  /** Two different inputs with one digest. The theorems below name such a pair by a computable
      function of their arguments: a bare "some collision exists" would be true of any hash function. */
  predicate Collides(h: HashFn, pair: (Bytes, Bytes)) {
    pair.0 != pair.1 && Digest(h, pair.0) == Digest(h, pair.1)
  }

  // ---------------------------------------------------------------- big-endian integers

  function Pow256(w: nat): (p: nat)
    ensures p > 0
  {
    if w == 0 then 1 else 256 * Pow256(w - 1)
  }

  function BigEndian(w: nat, n: nat): (b: Bytes)
    ensures |b| == w
  {
    if w == 0 then [] else BigEndian(w - 1, n / 256) + [n % 256]
  }

  function FromBigEndian(b: Bytes): (n: nat)
    ensures n < Pow256(|b|)
  {
    if b == [] then 0 else 256 * FromBigEndian(b[..|b| - 1]) + b[|b| - 1]
  }

  lemma {:induction false} BigEndianInverse(w: nat, n: nat)
    requires n < Pow256(w)
    ensures FromBigEndian(BigEndian(w, n)) == n
  {
    if w == 0 {
    } else {
      BigEndianInverse(w - 1, n / 256);
      assert BigEndian(w, n)[..w - 1] == BigEndian(w - 1, n / 256);
    }
  }

  lemma {:induction false} Widths()
    ensures Pow256(4) == TWO_32 && Pow256(8) == TWO_64
  {
    assert Pow256(2) == 65536;
    assert Pow256(3) == 16777216;
    assert Pow256(4) == 256 * Pow256(3);
    assert Pow256(5) == 256 * Pow256(4);
    assert Pow256(6) == 256 * Pow256(5);
    assert Pow256(7) == 256 * Pow256(6);
  }

  /** Go's `uint32(n)` and `uint64(n)` followed by PutUint32/PutUint64. */
  function U32(n: int): (b: Bytes)
    ensures |b| == 4
  {
    BigEndian(4, n % TWO_32)
  }

  function U64(n: int): (b: Bytes)
    ensures |b| == 8
  {
    BigEndian(8, n % TWO_64)
  }

  /** Reads eight bytes back as the two's-complement int64 they stand for. */
  function ToInt64(b: Bytes): (n: int64)
    requires |b| == 8
  {
    Widths();
    var u := FromBigEndian(b);
    if u < 0x8000_0000_0000_0000 then u else u - TWO_64
  }

  lemma {:induction false} U32Inverse(n: int)
    ensures FromBigEndian(U32(n)) == n % TWO_32
  {
    Widths();
    BigEndianInverse(4, n % TWO_32);
  }

  lemma {:induction false} U64Inverse(n: int64)
    ensures ToInt64(U64(n)) == n
  {
    Widths();
    BigEndianInverse(8, n % TWO_64);
  }
}
