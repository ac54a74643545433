/** What the text codecs accept, not only what they make themselves: every text that parses, and to what. */
module CodecOutcomes {
  import opened ByteStrings
  import opened Text
  import B64 = Base64
  import opened CheckpointTarget
  import opened PlayToken

  // ---------------------------------------------------------------- splitting and cutting

  function Joined(parts: seq<Bytes>, sep: byte): Bytes
    requires |parts| >= 1
    decreases |parts|
  {
    if |parts| == 1 then parts[0] else Joined(parts[..|parts| - 1], sep) + [sep] + parts[|parts| - 1]
  }

  lemma {:induction false} JoinedGrows(parts: seq<Bytes>, c: byte, sep: byte)
    requires |parts| >= 1
    ensures Joined(parts + [[]], sep) == Joined(parts, sep) + [sep]
    ensures Joined(Extended(parts, c), sep) == Joined(parts, sep) + [c]
  {
    assert (parts + [[]])[..|parts|] == parts;
    assert Joined(parts, sep) + [sep] + [] == Joined(parts, sep) + [sep];
    var longer, n := Extended(parts, c), |parts| - 1;
    assert longer[..n] == parts[..n] && longer[n] == parts[n] + [c];
    if n > 0 {
      assert Joined(parts[..n], sep) + [sep] + (parts[n] + [c]) == Joined(parts[..n], sep) + [sep] + parts[n] + [c];
    }
  }

  /** Splitting cuts at every separator and nowhere else: the parts are free of it and join to the string, and
      there is one more of them than there are separators. */
  lemma {:induction false} SplitExactly(s: Bytes, sep: byte)
    ensures var parts := SplitOn(s, sep);
            && Joined(parts, sep) == s && |parts| == 1 + multiset(s)[sep]
            && forall part :: part in parts ==> sep !in part
    decreases |s|
  {
    if s == [] {
    } else {
      hide SplitOn, Joined, Extended;
      var init, c := s[..|s| - 1], s[|s| - 1];
      assert s == init + [c];
      SplitExactly(init, sep);
      SplitAppend(init, c, sep);
      JoinedGrows(SplitOn(init, sep), c, sep);
      if c != sep {
        ExtendedParts(SplitOn(init, sep), c, sep);
      }
    }
  }

  lemma {:induction false} ExtendedParts(parts: seq<Bytes>, c: byte, sep: byte)
    requires |parts| >= 1 && c != sep && forall part :: part in parts ==> sep !in part
    ensures forall part :: part in Extended(parts, c) ==> sep !in part
  {
    var longer, n := Extended(parts, c), |parts| - 1;
    forall part | part in longer
      ensures sep !in part
    {
      var i :| 0 <= i < |longer| && longer[i] == part;
      if i < n {
        assert part == parts[i] && parts[i] in parts;
      } else {
        assert part == parts[n] + [c] && parts[n] in parts;
      }
    }
  }

  /** Cutting fails only without a separator, and otherwise cuts at the first. */
  lemma {:induction false} CutExactly(s: Bytes, sep: byte)
    ensures var cut := Cut(s, sep);
            if cut.None? then sep !in s
            else s == cut.value.0 + [sep] + cut.value.1 && sep !in cut.value.0
    decreases |s|
  {
    if s == [] {
    } else {
      assert s == [s[0]] + s[1..];
      if s[0] == sep {
        assert s == [] + [sep] + s[1..];
      } else {
        CutExactly(s[1..], sep);
      }
    }
  }

  // ---------------------------------------------------------------- decimal

  function ZeroDigits(k: nat): (z: Bytes)
    ensures |z| == k
  {
    if k == 0 then [] else ZeroDigits(k - 1) + [48]
  }

  lemma {:induction false} ValueAppend(s: Bytes, c: byte)
    ensures DigitsValue(s + [c]) ==
            if DigitsValue(s).None? || !IsDigit(c) then None else Some(10 * DigitsValue(s).value + (c - 48))
  {
    assert (s + [c])[..|s|] == s;
  }

  lemma {:induction false} DigitsAppend(n: nat)
    requires n >= 10
    ensures Digits(n) == Digits(n / 10) + [48 + n % 10]
  {
  }

  /** A string of digits has the value whose digits it is, after any number of zeros. */
  lemma {:induction false} DigitsExactly(s: Bytes) returns (k: nat)
    requires s != [] && DigitsValue(s).Some?
    ensures s == ZeroDigits(k) + Digits(DigitsValue(s).value)
    decreases |s|
  {
    hide DigitsValue, Digits, ZeroDigits;
    var init, c := s[..|s| - 1], s[|s| - 1];
    assert s == init + [c];
    ValueAppend(init, c);
    if init == [] {
      k := 0;
      OneDigit(c);
    } else {
      k := DigitsExactly(init);
      OneMoreDigit(k, DigitsValue(init).value, c);
      k := if DigitsValue(init).value > 0 then k else k + 1;
    }
  }

  lemma {:induction false} OneDigit(c: byte)
    requires IsDigit(c)
    ensures DigitsValue([]) == Some(0) && [] + [c] == [c] && ZeroDigits(0) + Digits(c - 48) == [c]
  {
  }

  lemma {:induction false} OneMoreDigit(k: nat, v: nat, c: byte)
    requires IsDigit(c)
    ensures ZeroDigits(k) + Digits(v) + [c] ==
            ZeroDigits(if v > 0 then k else k + 1) + Digits(10 * v + (c - 48))
  {
    if v > 0 {
      DigitsAppend(10 * v + (c - 48));
      hide Digits, ZeroDigits;
      assert ZeroDigits(k) + Digits(v) + [c] == ZeroDigits(k) + (Digits(v) + [c]);
    } else {
      assert Digits(v) == [48] && Digits(10 * v + (c - 48)) == [c];
      hide Digits;
      assert ZeroDigits(k + 1) == ZeroDigits(k) + [48];
    }
  }

  lemma {:induction false} ZerosDoNotCount(k: nat, n: nat)
    ensures DigitsValue(ZeroDigits(k) + Digits(n)) == Some(n)
    decreases n
  {
    hide DigitsValue;
    if n < 10 {
      ZerosAreZero(k);
      ValueAppend(ZeroDigits(k), 48 + n);
    } else {
      ZerosDoNotCount(k, n / 10);
      DigitsAppend(n);
      hide Digits;
      ValueAppend(ZeroDigits(k) + Digits(n / 10), 48 + n % 10);
      assert ZeroDigits(k) + Digits(n) == ZeroDigits(k) + Digits(n / 10) + [48 + n % 10];
    }
  }

  lemma {:induction false} ZerosAreZero(k: nat)
    ensures DigitsValue(ZeroDigits(k)) == Some(0)
  {
    if k == 0 {
    } else {
      ZerosAreZero(k - 1);
      ValueAppend(ZeroDigits(k - 1), 48);
    }
  }

  function Magnitude(n: int): nat { if n < 0 then -n else n }

  /** An optional sign, `k` zeros, and the digits of `n`. A minus sign stands before negative numbers and may
      stand before zero. */
  predicate Writes(s: Bytes, k: nat, n: int) {
    var body := ZeroDigits(k) + Digits(Magnitude(n));
    (n >= 0 && s == body) || (n >= 0 && s == [PLUS] + body) || (n <= 0 && s == [MINUS] + body)
  }

  ghost predicate IsTextOf(s: Bytes, n: int) {
    exists k: nat :: Writes(s, k, n)
  }

  /** Parsing accepts exactly the texts of the numbers that fit in 64 bits. */
  lemma {:induction false} ParseIntExactly(s: Bytes, n: int64)
    ensures ParseInt(s) == Some(n) <==> IsTextOf(s, n)
  {
    if ParseInt(s) == Some(n) {
      ParsedIsText(s, n);
    }
    if IsTextOf(s, n) {
      TextParses(s, n);
    }
  }

  lemma {:induction false} ParsedIsText(s: Bytes, n: int64)
    requires ParseInt(s) == Some(n)
    ensures IsTextOf(s, n)
  {
    hide DigitsValue, Digits, ZeroDigits;
    var signed := s != [] && (s[0] == PLUS || s[0] == MINUS);
    var body := if signed then s[1..] else s;
    var k := DigitsExactly(body);
    assert DigitsValue(body).value == Magnitude(n);
    assert signed ==> s == [s[0]] + body;
    assert Writes(s, k, n);
  }

  lemma {:induction false} TextParses(s: Bytes, n: int64)
    requires IsTextOf(s, n)
    ensures ParseInt(s) == Some(n)
  {
    hide DigitsValue, Digits, ZeroDigits, ParseInt;
    var k: nat :| Writes(s, k, n);
    ZerosDoNotCount(k, Magnitude(n));
    FirstDigit(k, Magnitude(n));
    BodyParses(ZeroDigits(k) + Digits(Magnitude(n)), Magnitude(n));
  }

  lemma {:induction false} FirstDigit(k: nat, v: nat)
    ensures IsDigit((ZeroDigits(k) + Digits(v))[0])
  {
    if k > 0 {
      FirstZero(k);
    } else {
      assert Digits(v)[0] in Digits(v);
    }
    hide ZeroDigits, Digits;
  }

  /** Digits alone, and after either sign. */
  lemma {:induction false} BodyParses(body: Bytes, v: int)
    requires body != [] && IsDigit(body[0]) && DigitsValue(body).Some? && DigitsValue(body).value == v
    ensures v < 0x8000_0000_0000_0000 ==> ParseInt(body) == Some(v) && ParseInt([PLUS] + body) == Some(v)
    ensures v <= 0x8000_0000_0000_0000 ==> ParseInt([MINUS] + body) == Some(-v)
  {
    hide DigitsValue;
    assert ([PLUS] + body)[1..] == body && ([MINUS] + body)[1..] == body;
  }

  lemma {:induction false} FirstZero(k: nat)
    requires k > 0
    ensures ZeroDigits(k)[0] == 48
  {
    if k == 1 {
    } else {
      FirstZero(k - 1);
    }
  }

  // ---------------------------------------------------------------- checkpoint targets

  /** The text is four parts free of colons, that read as the root, the range and the count. */
  ghost predicate ReadsAs(s: Bytes, m: Meta, a: Bytes, b: Bytes, c: Bytes, d: Bytes) {
    && s == a + [COLON] + b + [COLON] + c + [COLON] + d
    && COLON !in a && COLON !in b && COLON !in c && COLON !in d
    && B64.Decode(B64.STD, a) == Some(m.merkleRoot)
    && IsTextOf(b, m.fromSeq) && IsTextOf(c, m.toSeq) && IsTextOf(d, m.count)
  }

  lemma {:induction false} TargetExactly(s: Bytes, m: Meta)
    ensures ParseTarget(s) == Parsed(m) <==> exists a, b, c, d :: ReadsAs(s, m, a, b, c, d)
    ensures ParseTarget(s) == Rejected(Malformed) <==> multiset(s)[COLON] != 3
  {
    FourParts(s);
    SplitExactly(s, COLON);
    hide ParseTarget, ReadsAs, SplitOn, Joined;
    if ParseTarget(s) == Parsed(m) {
      ParsedReads(s, m);
    }
    if exists a, b, c, d :: ReadsAs(s, m, a, b, c, d) {
      var a, b, c, d :| ReadsAs(s, m, a, b, c, d);
      ReadsParses(s, m, a, b, c, d);
    }
  }

  lemma {:induction false} FourParts(s: Bytes)
    ensures ParseTarget(s) == Rejected(Malformed) <==> |SplitOn(s, COLON)| != 4
  {
    hide SplitOn, B64.Decode, ParseInt;
  }

  lemma {:induction false} ParsedReads(s: Bytes, m: Meta)
    requires ParseTarget(s) == Parsed(m)
    ensures exists a, b, c, d :: ReadsAs(s, m, a, b, c, d)
  {
    hide SplitOn, B64.Decode, ParseInt, IsTextOf, Joined;
    SplitExactly(s, COLON);
    var parts := SplitOn(s, COLON);
    ParseIntExactly(parts[1], m.fromSeq);
    ParseIntExactly(parts[2], m.toSeq);
    ParseIntExactly(parts[3], m.count);
    JoinedFour(parts, COLON);
    assert ReadsAs(s, m, parts[0], parts[1], parts[2], parts[3]);
  }

  lemma {:induction false} JoinedTwo(parts: seq<Bytes>, sep: byte)
    requires |parts| == 2
    ensures Joined(parts, sep) == parts[0] + [sep] + parts[1]
  {
    assert Joined(parts[..1], sep) == parts[0];
  }

  lemma {:induction false} JoinedThree(parts: seq<Bytes>, sep: byte)
    requires |parts| == 3
    ensures Joined(parts, sep) == parts[0] + [sep] + parts[1] + [sep] + parts[2]
  {
    JoinedTwo(parts[..2], sep);
  }

  lemma {:induction false} JoinedFour(parts: seq<Bytes>, sep: byte)
    requires |parts| == 4
    ensures Joined(parts, sep) == parts[0] + [sep] + parts[1] + [sep] + parts[2] + [sep] + parts[3]
  {
    JoinedThree(parts[..3], sep);
  }

  lemma {:induction false} ReadsParses(s: Bytes, m: Meta, a: Bytes, b: Bytes, c: Bytes, d: Bytes)
    requires ReadsAs(s, m, a, b, c, d)
    ensures ParseTarget(s) == Parsed(m)
  {
    hide SplitOn, B64.Decode, ParseInt, IsTextOf;
    SplitFour(a, b, c, d, COLON);
    ParseIntExactly(b, m.fromSeq);
    ParseIntExactly(c, m.toSeq);
    ParseIntExactly(d, m.count);
  }

  /** Of four colon-free parts the first that does not read is the one complained of. */
  lemma {:induction false} TargetErrors(a: Bytes, b: Bytes, c: Bytes, d: Bytes)
    requires COLON !in a && COLON !in b && COLON !in c && COLON !in d
    ensures var r := ParseTarget(a + [COLON] + b + [COLON] + c + [COLON] + d);
            var root, lo := B64.Decode(B64.STD, a).Some?, ParseInt(b).Some?;
            var hi, n := ParseInt(c).Some?, ParseInt(d).Some?;
            && (r == Rejected(BadRoot) <==> !root)
            && (r == Rejected(BadFromSeq) <==> root && !lo)
            && (r == Rejected(BadToSeq) <==> root && lo && !hi)
            && (r == Rejected(BadCount) <==> root && lo && hi && !n)
            && (r.Parsed? <==> root && lo && hi && n)
  {
    hide SplitOn, B64.Decode, ParseInt;
    SplitFour(a, b, c, d, COLON);
  }

  // ---------------------------------------------------------------- playback tokens

  /** The token is a payload and a signature around its first dot; the signature decodes to the MAC of the
      payload text, and the payload to the subject, the recording and an expiry `exp` not yet passed. */
  ghost predicate Authorises(
      mac: Mac, token: Bytes, secret: Bytes, now: int64, subject: Bytes, recording: Bytes,
      p: Bytes, sig: Bytes, e: Bytes, exp: int64)
  {
    && token == p + [DOT] + sig && DOT !in p
    && B64.Decode(B64.RAW_URL, sig) == Some(MacOf(mac, secret, p))
    && B64.Decode(B64.RAW_URL, p) == Some(subject + [BAR] + recording + [BAR] + e)
    && BAR !in subject && BAR !in recording && BAR !in e && subject != [] && recording != []
    && IsTextOf(e, exp) && now <= exp
  }

  /** A token, however it was made, is accepted for a subject and a recording if and only if it is such a
      text: in particular only with the MAC of its own payload under the secret. */
  lemma {:induction false} ParseExactly(
      mac: Mac, token: Bytes, secret: Bytes, now: int64, subject: Bytes, recording: Bytes)
    ensures Parse(mac, token, secret, now) == Some((subject, recording)) <==>
              exists p, sig, e, exp :: Authorises(mac, token, secret, now, subject, recording, p, sig, e, exp)
  {
    if Parse(mac, token, secret, now) == Some((subject, recording)) {
      ParsedAuthorises(mac, token, secret, now, subject, recording);
    }
    if exists p, sig, e, exp :: Authorises(mac, token, secret, now, subject, recording, p, sig, e, exp) {
      var p, sig, e, exp :| Authorises(mac, token, secret, now, subject, recording, p, sig, e, exp);
      AuthorisedParses(mac, token, secret, now, subject, recording, p, sig, e, exp);
    }
  }

  lemma {:induction false} ParsedAuthorises(
      mac: Mac, token: Bytes, secret: Bytes, now: int64, subject: Bytes, recording: Bytes)
    requires Parse(mac, token, secret, now) == Some((subject, recording))
    ensures exists p, sig, e, exp :: Authorises(mac, token, secret, now, subject, recording, p, sig, e, exp)
  {
    hide SplitOn, B64.Decode, ParseInt, IsTextOf, Cut, Joined;
    CutExactly(token, DOT);
    var (p, sig) := Cut(token, DOT).value;
    var raw := B64.Decode(B64.RAW_URL, p).value;
    var parts := SplitOn(raw, BAR);
    SplitExactly(raw, BAR);
    JoinedThree(parts, BAR);
    var exp := ParseInt(parts[2]).value;
    ParseIntExactly(parts[2], exp);
    assert Authorises(mac, token, secret, now, subject, recording, p, sig, parts[2], exp);
  }

  lemma {:induction false} AuthorisedParses(
      mac: Mac, token: Bytes, secret: Bytes, now: int64, subject: Bytes, recording: Bytes,
      p: Bytes, sig: Bytes, e: Bytes, exp: int64)
    requires Authorises(mac, token, secret, now, subject, recording, p, sig, e, exp)
    ensures Parse(mac, token, secret, now) == Some((subject, recording))
  {
    hide SplitOn, B64.Decode, ParseInt, IsTextOf, Cut;
    CutJoin(p, sig, DOT);
    SplitWhole(subject, BAR);
    SplitWhole(recording, BAR);
    SplitWhole(e, BAR);
    SplitJoin(subject, recording, BAR);
    SplitJoin(subject + [BAR] + recording, e, BAR);
    ParseIntExactly(e, exp);
  }

  // ---------------------------------------------------------------- base64

  lemma {:induction false} CharInverse(e: B64.Encoding, c: byte)
    requires B64.Known(e) && B64.IndexOf(e, c).Some?
    ensures B64.CharOf(e, B64.IndexOf(e, c).value) == c
  {
  }

  lemma {:induction false} NewlinesPrepend(c: byte, t: Bytes)
    ensures B64.WithoutNewlines([c] + t) == (if c == 10 || c == 13 then [] else [c]) + B64.WithoutNewlines(t)
  {
    assert ([c] + t)[1..] == t;
  }

  lemma {:induction false} NewlinesNone()
    ensures B64.WithoutNewlines([]) == []
  {
  }

  /** Dropping line breaks goes character by character (`NewlinesPrepend`), so it distributes. */
  lemma {:induction false} NewlinesExactly(s: Bytes, t: Bytes)
    ensures B64.WithoutNewlines(s + t) == B64.WithoutNewlines(s) + B64.WithoutNewlines(t)
    decreases |s|
  {
    hide B64.WithoutNewlines;
    if s == [] {
      NewlinesNone();
      assert s + t == t;
    } else {
      var c, rest := s[0], s[1..];
      assert s == [c] + rest && s + t == [c] + (rest + t);
      NewlinesExactly(rest, t);
      NewlinesPrepend(c, rest);
      NewlinesPrepend(c, rest + t);
    }
  }

  /** `out` agrees with `w` as far as `n` bytes of data settle it: wholly when they make whole groups, and
      otherwise up to the character that holds their last bits. */
  predicate Settled(n: nat, out: Bytes, w: Bytes) {
    var sure := n / 3 * 4 + n % 3;
    && |out| == |w| && sure <= |w| && (n % 3 == 0 ==> out == w) && out[..sure] == w[..sure]
  }

  /** What decoding accepts: the text, line breaks aside, is the encoding of what comes out, but for the spare
      bits of its last character when that leaves one or two bytes over. */
  lemma {:induction false} DecodeExactly(e: B64.Encoding, s: Bytes)
    requires B64.Known(e) && B64.Decode(e, s).Some?
    ensures var b := B64.Decode(e, s).value; Settled(|b|, B64.Encode(e, b), B64.WithoutNewlines(s))
  {
    hide B64.DecodeGroups, B64.Encode, Settled;
    GroupsExactly(e, B64.WithoutNewlines(s));
  }

  predicate FullGroup(e: B64.Encoding, w: Bytes)
    requires |w| >= 4
  {
    && B64.IndexOf(e, w[0]).Some? && B64.IndexOf(e, w[1]).Some?
    && B64.IndexOf(e, w[2]).Some? && B64.IndexOf(e, w[3]).Some?
  }

  lemma {:induction false} GroupsExactly(e: B64.Encoding, w: Bytes)
    requires B64.Known(e) && B64.DecodeGroups(e, w).Some?
    ensures var b := B64.DecodeGroups(e, w).value; Settled(|b|, B64.Encode(e, b), w)
    decreases |w|
  {
    if w == [] {
    } else if |w| < 4 || !FullGroup(e, w) {
      LastExactly(e, w);
    } else {
      var b := B64.DecodeGroups(e, w).value;
      FirstChars(e, w, b);
      hide FullGroup, B64.DecodeGroups, B64.Encode, Settled;
      GroupsExactly(e, w[4..]);
      GroupStep(w, B64.Encode(e, b), B64.Encode(e, b[3..]), |b| - 3);
    }
  }

  /** One more group in front, alike on both sides. */
  lemma {:induction false} GroupStep(w: Bytes, out: Bytes, rest: Bytes, n: nat)
    requires |w| >= 4 && out == w[..4] + rest && Settled(n, rest, w[4..])
    ensures Settled(n + 3, out, w)
  {
    assert w == w[..4] + w[4..];
    var sure := n / 3 * 4 + n % 3;
    assert (n + 3) / 3 * 4 + (n + 3) % 3 == sure + 4;
    assert out[..sure + 4] == w[..4] + rest[..sure];
    assert w[..sure + 4] == w[..4] + w[4..][..sure];
  }

  /** A full group encodes back to its four characters. */
  lemma {:induction false} FirstChars(e: B64.Encoding, w: Bytes, b: Bytes)
    requires B64.Known(e) && |w| >= 4 && FullGroup(e, w) && B64.DecodeGroups(e, w) == Some(b)
    ensures |b| >= 3 && B64.DecodeGroups(e, w[4..]) == Some(b[3..])
    ensures B64.Encode(e, b) == w[..4] + B64.Encode(e, b[3..])
  {
    var x, y, z, v := B64.IndexOf(e, w[0]).value, B64.IndexOf(e, w[1]).value,
                      B64.IndexOf(e, w[2]).value, B64.IndexOf(e, w[3]).value;
    hide B64.IndexOf, B64.CharOf, B64.Byte0, B64.Byte1, B64.Byte2, B64.Encode;
    assert b == [B64.Byte0(x, y), B64.Byte1(y, z), B64.Byte2(z, v)] + b[3..];
    SextetsBack(x, y, z, v);
    CharsOf(e, b, x, y, z, v);
    CharInverse(e, w[0]);
    CharInverse(e, w[1]);
    CharInverse(e, w[2]);
    CharInverse(e, w[3]);
    assert w[..4] == [w[0], w[1], w[2], w[3]];
  }

  lemma {:induction false} SextetsBack(x: B64.sextet, y: B64.sextet, z: B64.sextet, v: B64.sextet)
    ensures var b0, b1, b2 := B64.Byte0(x, y), B64.Byte1(y, z), B64.Byte2(z, v);
            b0 / 4 == x && b0 % 4 * 16 + b1 / 16 == y && b1 % 16 * 4 + b2 / 64 == z && b2 % 64 == v
  {
  }

  lemma {:induction false} CharsOf(
      e: B64.Encoding, b: Bytes, x: B64.sextet, y: B64.sextet, z: B64.sextet, v: B64.sextet)
    requires |b| >= 3 && b[0] / 4 == x && b[0] % 4 * 16 + b[1] / 16 == y
    requires b[1] % 16 * 4 + b[2] / 64 == z && b[2] % 64 == v
    ensures B64.Encode(e, b) ==
            [B64.CharOf(e, x), B64.CharOf(e, y), B64.CharOf(e, z), B64.CharOf(e, v)] + B64.Encode(e, b[3..])
  {
    hide B64.CharOf;
  }

  /** The last, partial group: one or two bytes, of two or three characters and what padding that takes. */
  lemma {:induction false} LastShape(e: B64.Encoding, w: Bytes)
    requires B64.DecodeLast(e, w).Some?
    ensures var b := B64.DecodeLast(e, w).value;
            && 1 <= |b| <= 2 && |w| == (if e.padded then 4 else |b| + 1)
            && B64.IndexOf(e, w[0]).Some? && b[0] / 4 == B64.IndexOf(e, w[0]).value
            && (|b| == 2 ==>
                  B64.IndexOf(e, w[1]).Some? && b[0] % 4 * 16 + b[1] / 16 == B64.IndexOf(e, w[1]).value)
  {
    hide B64.IndexOf;
  }

  lemma {:induction false} LastEncodes(e: B64.Encoding, b: Bytes)
    requires 1 <= |b| <= 2
    ensures var out := B64.Encode(e, b);
            && |out| == (if e.padded then 4 else |b| + 1) && out[0] == B64.CharOf(e, b[0] / 4)
            && (|b| == 2 ==> out[1] == B64.CharOf(e, b[0] % 4 * 16 + b[1] / 16))
  {
    hide B64.CharOf;
  }

  lemma {:induction false} LastExactly(e: B64.Encoding, w: Bytes)
    requires B64.Known(e) && w != [] && (|w| < 4 || !FullGroup(e, w)) && B64.DecodeGroups(e, w).Some?
    ensures var b := B64.DecodeGroups(e, w).value; Settled(|b|, B64.Encode(e, b), w)
  {
    assert B64.DecodeGroups(e, w) == B64.DecodeLast(e, w);
    hide B64.DecodeGroups, B64.DecodeLast, B64.Encode, B64.IndexOf, B64.CharOf, FullGroup;
    var b := B64.DecodeLast(e, w).value;
    LastShape(e, w);
    LastEncodes(e, b);
    CharInverse(e, w[0]);
    if |b| == 2 {
      CharInverse(e, w[1]);
    }
  }
}
