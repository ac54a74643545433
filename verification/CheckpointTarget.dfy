/** The text form in which a presence checkpoint's commitment travels in an audit entry's target id. */
module CheckpointTarget {
  import opened ByteStrings
  import opened Text
  import B64 = Base64

  datatype Meta = Meta(merkleRoot: Bytes, fromSeq: int64, toSeq: int64, count: int64)

  datatype ParseError = Malformed | BadRoot | BadFromSeq | BadToSeq | BadCount

  datatype ParseResult = Parsed(meta: Meta) | Rejected(error: ParseError)

  const COLON: byte := 58

  function EncodeTarget(m: Meta): Bytes {
    B64.Encode(B64.STD, m.merkleRoot) + [COLON] + FormatInt(m.fromSeq) + [COLON] + FormatInt(m.toSeq) +
    [COLON] + FormatInt(m.count)
  }

  function ParseTarget(s: Bytes): ParseResult {
    var parts := SplitOn(s, COLON);
    if |parts| != 4 then Rejected(Malformed) else
    var root := B64.Decode(B64.STD, parts[0]);
    if root.None? then Rejected(BadRoot) else
    var fromSeq := ParseInt(parts[1]);
    if fromSeq.None? then Rejected(BadFromSeq) else
    var toSeq := ParseInt(parts[2]);
    if toSeq.None? then Rejected(BadToSeq) else
    var count := ParseInt(parts[3]);
    if count.None? then Rejected(BadCount) else
    Parsed(Meta(root.value, fromSeq.value, toSeq.value, count.value))
  }

  lemma {:induction false} SplitFour(a: Bytes, b: Bytes, c: Bytes, d: Bytes, sep: byte)
    requires sep !in a && sep !in b && sep !in c && sep !in d
    ensures SplitOn(a + [sep] + b + [sep] + c + [sep] + d, sep) == [a, b, c, d]
  {
    hide SplitOn;
    SplitWhole(a, sep);
    SplitWhole(b, sep);
    SplitWhole(c, sep);
    SplitWhole(d, sep);
    SplitJoin(a, b, sep);
    SplitJoin(a + [sep] + b, c, sep);
    SplitJoin(a + [sep] + b + [sep] + c, d, sep);
  }

  /** Parsing inverts encoding for every root, of any length, and every range and count. */
  lemma {:induction false} TargetRoundTrip(m: Meta)
    ensures ParseTarget(EncodeTarget(m)) == Parsed(m)
  {
    hide B64.Encode, B64.Decode, FormatInt, ParseInt, SplitOn;
    var root := B64.Encode(B64.STD, m.merkleRoot);
    B64.EncodeAlphabet(B64.STD, m.merkleRoot);
    assert COLON !in root by {
      assert !B64.InOutput(B64.STD, COLON);
    }
    B64.DecodeEncode(B64.STD, m.merkleRoot);
    ParseFormat(m.fromSeq);
    ParseFormat(m.toSeq);
    ParseFormat(m.count);
    SplitFour(root, FormatInt(m.fromSeq), FormatInt(m.toSeq), FormatInt(m.count), COLON);
  }
}
