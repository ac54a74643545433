/** Base64 (sections 4 and 5 of RFC 4648) as Go's encoding/base64 does it: the padded standard
    alphabet and the unpadded URL alphabet, decoding past line breaks and ignoring spare bits. */
module Base64 {
  import opened ByteStrings

  /** The two alphabets differ in their last two characters; only one of them pads. */
  datatype Encoding = Encoding(c62: byte, c63: byte, padded: bool)

  const STD: Encoding := Encoding(43, 47, true)       // '+', '/'
  const RAW_URL: Encoding := Encoding(45, 95, false)  // '-', '_'
  const PAD: byte := 61                               // '='

  predicate Known(e: Encoding) { e == STD || e == RAW_URL }

  type sextet = d: int | 0 <= d < 64

  function CharOf(e: Encoding, d: sextet): byte {
    if d < 26 then 65 + d
    else if d < 52 then 71 + d
    else if d < 62 then d - 4
    else if d == 62 then e.c62 else e.c63
  }

  function IndexOf(e: Encoding, c: byte): Option<sextet> {
    if 65 <= c <= 90 then Some(c - 65)
    else if 97 <= c <= 122 then Some(c - 71)
    else if 48 <= c <= 57 then Some(c + 4)
    else if c == e.c62 then Some(62)
    else if c == e.c63 then Some(63)
    else None
  }

  lemma {:induction false} IndexInverse(e: Encoding, d: sextet)
    requires Known(e)
    ensures IndexOf(e, CharOf(e, d)) == Some(d)
  {
  }

  predicate InOutput(e: Encoding, c: byte) {
    IndexOf(e, c).Some? || (e.padded && c == PAD)
  }

  function Pads(e: Encoding, n: nat): Bytes {
    if e.padded then seq(n, _ => PAD) else []
  }

  function Encode(e: Encoding, b: Bytes): Bytes
    decreases |b|
  {
    if |b| == 0 then []
    else if |b| == 1 then
      [CharOf(e, b[0] / 4), CharOf(e, b[0] % 4 * 16)] + Pads(e, 2)
    else if |b| == 2 then
      [CharOf(e, b[0] / 4), CharOf(e, b[0] % 4 * 16 + b[1] / 16), CharOf(e, b[1] % 16 * 4)] + Pads(e, 1)
    else
      [CharOf(e, b[0] / 4), CharOf(e, b[0] % 4 * 16 + b[1] / 16),
       CharOf(e, b[1] % 16 * 4 + b[2] / 64), CharOf(e, b[2] % 64)] + Encode(e, b[3..])
  }

  // ---------------------------------------------------------------- decoding

  function WithoutNewlines(s: Bytes): Bytes
    decreases |s|
  {
    if s == [] then []
    else (if s[0] == 10 || s[0] == 13 then [] else [s[0]]) + WithoutNewlines(s[1..])
  }

  function Byte0(a: sextet, b: sextet): byte { a * 4 + b / 16 }
  function Byte1(b: sextet, c: sextet): byte { b % 16 * 16 + c / 4 }
  function Byte2(c: sextet, d: sextet): byte { c % 4 * 64 + d }

  /** The last group of a string, when it is not four alphabet characters. */
  function DecodeLast(e: Encoding, s: Bytes): Option<Bytes> {
    var n := if !e.padded then |s|
             else if |s| != 4 || s[3] != PAD then 0
             else if s[2] == PAD then 2 else 3;
    if n != 2 && n != 3 then None else
    var a, b := IndexOf(e, s[0]), IndexOf(e, s[1]);
    if a.None? || b.None? then None
    else if n == 2 then Some([Byte0(a.value, b.value)])
    else
      var c := IndexOf(e, s[2]);
      if c.None? then None else Some([Byte0(a.value, b.value), Byte1(b.value, c.value)])
  }

  function DecodeGroups(e: Encoding, s: Bytes): Option<Bytes>
    decreases |s|
  {
    if s == [] then Some([])
    else if |s| < 4 then DecodeLast(e, s)
    else
      var a, b, c, d := IndexOf(e, s[0]), IndexOf(e, s[1]), IndexOf(e, s[2]), IndexOf(e, s[3]);
      if a.None? || b.None? || c.None? || d.None? then DecodeLast(e, s)
      else
        var rest := DecodeGroups(e, s[4..]);
        if rest.None? then None
        else Some([Byte0(a.value, b.value), Byte1(b.value, c.value), Byte2(c.value, d.value)] + rest.value)
  }

  function Decode(e: Encoding, s: Bytes): Option<Bytes> {
    DecodeGroups(e, WithoutNewlines(s))
  }

  // ---------------------------------------------------------------- round trip

  lemma {:induction false} EncodeAlphabet(e: Encoding, b: Bytes)
    requires Known(e)
    ensures forall c :: c in Encode(e, b) ==> InOutput(e, c)
    decreases |b|
  {
    forall d: sextet
      ensures InOutput(e, CharOf(e, d))
    {
      IndexInverse(e, d);
    }
    assert e.padded ==> InOutput(e, PAD);
    hide CharOf, InOutput;
    if |b| < 3 {
    } else {
      EncodeAlphabet(e, b[3..]);
    }
  }

  lemma {:induction false} NoNewlines(s: Bytes)
    requires forall i :: 0 <= i < |s| ==> s[i] != 10 && s[i] != 13
    ensures WithoutNewlines(s) == s
    decreases |s|
  {
    if s == [] {
    } else {
      NoNewlines(s[1..]);
      assert s == [s[0]] + s[1..];
    }
  }

  lemma {:induction false} DecodeEncodeGroups(e: Encoding, b: Bytes)
    requires Known(e)
    ensures DecodeGroups(e, Encode(e, b)) == Some(b)
    decreases |b|
  {
    if |b| == 0 {
    } else if |b| == 1 {
      DecodeEncodeOne(e, b);
    } else if |b| == 2 {
      DecodeEncodeTwo(e, b);
    } else {
      DecodeEncodeGroups(e, b[3..]);
      DecodeEncodeFull(e, b, Encode(e, b[3..]));
    }
  }

  /** A full group in front, and a tail that decodes. */
  lemma {:induction false} DecodeEncodeFull(e: Encoding, b: Bytes, tail: Bytes)
    requires Known(e) && |b| >= 3 && tail == Encode(e, b[3..]) && DecodeGroups(e, tail) == Some(b[3..])
    ensures DecodeGroups(e, Encode(e, b)) == Some(b)
  {
    hide CharOf, IndexOf, Byte0, Byte1, Byte2, DecodeLast;
    var s := Encode(e, b);
    assert s[4..] == tail;
    FirstGroup(e, b[0], b[1], b[2]);
    assert b == [b[0], b[1], b[2]] + b[3..];
  }

  /** The four characters of a full group decode to its three bytes. */
  lemma {:induction false} FirstGroup(e: Encoding, b0: byte, b1: byte, b2: byte)
    requires Known(e)
    ensures var w, x, y, z := b0 / 4, b0 % 4 * 16 + b1 / 16, b1 % 16 * 4 + b2 / 64, b2 % 64;
            && IndexOf(e, CharOf(e, w)) == Some(w) && IndexOf(e, CharOf(e, x)) == Some(x)
            && IndexOf(e, CharOf(e, y)) == Some(y) && IndexOf(e, CharOf(e, z)) == Some(z)
            && Byte0(w, x) == b0 && Byte1(x, y) == b1 && Byte2(y, z) == b2
  {
    hide CharOf, IndexOf;
    IndexInverse(e, b0 / 4);
    IndexInverse(e, b0 % 4 * 16 + b1 / 16);
    IndexInverse(e, b1 % 16 * 4 + b2 / 64);
    IndexInverse(e, b2 % 64);
  }

  lemma {:induction false} DecodeEncodeOne(e: Encoding, b: Bytes)
    requires Known(e) && |b| == 1
    ensures DecodeGroups(e, Encode(e, b)) == Some(b)
  {
    var w, x := b[0] / 4, b[0] % 4 * 16;
    IndexInverse(e, w);
    IndexInverse(e, x);
    assert IndexOf(e, PAD).None?;
    hide CharOf, IndexOf;
    assert Byte0(w, x) == b[0];
    assert b == [b[0]];
  }

  lemma {:induction false} DecodeEncodeTwo(e: Encoding, b: Bytes)
    requires Known(e) && |b| == 2
    ensures DecodeGroups(e, Encode(e, b)) == Some(b)
  {
    var w, x, y := b[0] / 4, b[0] % 4 * 16 + b[1] / 16, b[1] % 16 * 4;
    IndexInverse(e, w);
    IndexInverse(e, x);
    IndexInverse(e, y);
    assert IndexOf(e, PAD).None? && CharOf(e, y) != PAD;
    hide CharOf, IndexOf;
    assert Byte0(w, x) == b[0] && Byte1(x, y) == b[1];
    assert b == [b[0], b[1]];
  }

  /** Decoding inverts encoding for every byte string, under both alphabets. */
  lemma {:induction false} DecodeEncode(e: Encoding, b: Bytes)
    requires Known(e)
    ensures Decode(e, Encode(e, b)) == Some(b)
  {
    var s := Encode(e, b);
    EncodeAlphabet(e, b);
    forall i | 0 <= i < |s|
      ensures s[i] != 10 && s[i] != 13
    {
      assert InOutput(e, s[i]);
    }
    NoNewlines(s);
    DecodeEncodeGroups(e, b);
  }
}
