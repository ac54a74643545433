/** Decimal integers and separator-splitting, as Go's strconv and strings packages do them. */
module Text {
  import opened ByteStrings

  // ---------------------------------------------------------------- decimal

  const MINUS: byte := 45
  const PLUS: byte := 43

  predicate IsDigit(c: byte) { 48 <= c <= 57 }

  function Digits(n: nat): (s: Bytes)
    ensures s != [] && forall c :: c in s ==> IsDigit(c)
  {
    if n < 10 then [48 + n] else Digits(n / 10) + [48 + n % 10]
  }

  function FormatInt(n: int): (s: Bytes)
    ensures forall c :: c in s ==> IsDigit(c) || c == MINUS
  {
    if n < 0 then [MINUS] + Digits(-n) else Digits(n)
  }

  /** The value of a string of digits; None when some byte is no digit. */
  function DigitsValue(s: Bytes): Option<nat> {
    if s == [] then Some(0) else
    var init := DigitsValue(s[..|s| - 1]);
    if init.None? || !IsDigit(s[|s| - 1]) then None else Some(10 * init.value + (s[|s| - 1] - 48))
  }

  /** `strconv.ParseInt(s, 10, 64)`: an optional sign, at least one digit, and a value in range. */
  function ParseInt(s: Bytes): Option<int64> {
    var signed := s != [] && (s[0] == PLUS || s[0] == MINUS);
    var body := if signed then s[1..] else s;
    var value := DigitsValue(body);
    if body == [] || value.None? then None else
    var v: int := value.value;
    if signed && s[0] == MINUS then
      if v <= 0x8000_0000_0000_0000 then Some(-v) else None
    else
      if v < 0x8000_0000_0000_0000 then Some(v) else None
  }

  lemma {:induction false} DigitsInverse(n: nat)
    ensures DigitsValue(Digits(n)) == Some(n)
  {
    if n < 10 {
      assert Digits(n)[..0] == [];
    } else {
      DigitsInverse(n / 10);
      var s := Digits(n);
      assert s[..|s| - 1] == Digits(n / 10);
    }
  }

  lemma {:induction false} ParseFormat(n: int64)
    ensures ParseInt(FormatInt(n)) == Some(n)
  {
    hide Digits, DigitsValue;
    var s := FormatInt(n);
    var m: int := n;
    if m < 0 {
      DigitsInverse(-m);
      assert s[0] == MINUS && s[1..] == Digits(-m);
    } else {
      DigitsInverse(n);
      assert IsDigit(s[0]);
    }
  }

  // ---------------------------------------------------------------- splitting

  /** One byte more on the last part. */
  function Extended(parts: seq<Bytes>, c: byte): (r: seq<Bytes>)
    requires |parts| >= 1
    ensures |r| == |parts|
  {
    var n := |parts| - 1;
    parts[..n] + [parts[n] + [c]]
  }

  /** `strings.Split(s, sep)` for a one-byte separator. */
  function SplitOn(s: Bytes, sep: byte): (parts: seq<Bytes>)
    ensures |parts| >= 1
    decreases |s|
  {
    if s == [] then [[]] else
    var parts, c := SplitOn(s[..|s| - 1], sep), s[|s| - 1];
    if c == sep then parts + [[]] else Extended(parts, c)
  }

  lemma {:induction false} SplitAppend(s: Bytes, c: byte, sep: byte)
    ensures SplitOn(s + [c], sep) == if c == sep then SplitOn(s, sep) + [[]] else Extended(SplitOn(s, sep), c)
  {
    assert (s + [c])[..|s|] == s;
  }

  lemma {:induction false} ExtendedConcat(a: seq<Bytes>, b: seq<Bytes>, c: byte)
    requires |b| >= 1
    ensures Extended(a + b, c) == a + Extended(b, c)
  {
  }

  /** Splitting distributes over a separator between any two strings. */
  lemma {:induction false} SplitJoin(a: Bytes, b: Bytes, sep: byte)
    ensures SplitOn(a + [sep] + b, sep) == SplitOn(a, sep) + SplitOn(b, sep)
    decreases |b|
  {
    if b == [] {
      assert a + [sep] + b == a + [sep];
      SplitAppend(a, sep, sep);
    } else {
      hide SplitOn, Extended;
      var init, c := b[..|b| - 1], b[|b| - 1];
      assert b == init + [c];
      assert a + [sep] + b == (a + [sep] + init) + [c];
      SplitJoin(a, init, sep);
      SplitAppend(a + [sep] + init, c, sep);
      SplitAppend(init, c, sep);
      if c == sep {
        assert (SplitOn(a, sep) + SplitOn(init, sep)) + [[]] == SplitOn(a, sep) + (SplitOn(init, sep) + [[]]);
      } else {
        ExtendedConcat(SplitOn(a, sep), SplitOn(init, sep), c);
      }
    }
  }

  /** A string splits into itself alone exactly when the separator is not in it. */
  lemma {:induction false} SplitWhole(s: Bytes, sep: byte)
    ensures |SplitOn(s, sep)| == 1 <==> sep !in s
    ensures sep !in s ==> SplitOn(s, sep) == [s]
    decreases |s|
  {
    if s == [] {
    } else {
      var init := s[..|s| - 1];
      SplitWhole(init, sep);
      assert s == init + [s[|s| - 1]];
    }
  }

  /** `strings.Cut`: around the first separator, if there is one. */
  function Cut(s: Bytes, sep: byte): Option<(Bytes, Bytes)>
    decreases |s|
  {
    if s == [] then None
    else if s[0] == sep then Some(([], s[1..]))
    else
      var rest := Cut(s[1..], sep);
      if rest.None? then None else Some(([s[0]] + rest.value.0, rest.value.1))
  }

  lemma {:induction false} CutJoin(a: Bytes, b: Bytes, sep: byte)
    requires sep !in a
    ensures Cut(a + [sep] + b, sep) == Some((a, b))
    decreases |a|
  {
    var s := a + [sep] + b;
    if a == [] {
      assert s[1..] == b;
    } else {
      assert s[1..] == a[1..] + [sep] + b && a == [s[0]] + a[1..];
      CutJoin(a[1..], b, sep);
    }
  }
}
