/** Playback tokens: a signed, expiring binding of a viewer to a recording. */
module PlayToken {
  import opened ByteStrings
  import opened Text
  import B64 = Base64

  /** Any keyed MAC, taking the secret and the signed text. */
  datatype Mac = Mac(raw: (Bytes, Bytes) -> Bytes)

  function MacOf(mac: Mac, secret: Bytes, text: Bytes): Bytes {
    mac.raw(secret, text)
  }

  const BAR: byte := 124
  const DOT: byte := 46

  function PlayPayload(subject: Bytes, recording: Bytes, exp: int64): Bytes {
    subject + [BAR] + recording + [BAR] + FormatInt(exp)
  }

  function Mint(mac: Mac, secret: Bytes, subject: Bytes, recording: Bytes, exp: int64): Bytes {
    var p := B64.Encode(B64.RAW_URL, PlayPayload(subject, recording, exp));
    p + [DOT] + B64.Encode(B64.RAW_URL, MacOf(mac, secret, p))
  }

  /** The checks on a decoded payload. */
  function ReadPayload(raw: Bytes, now: int64): Option<(Bytes, Bytes)> {
    var parts := SplitOn(raw, BAR);
    if |parts| != 3 then None else
    var exp := ParseInt(parts[2]);
    if exp.None? || now > exp.value then None
    else if parts[0] == [] || parts[1] == [] then None
    else Some((parts[0], parts[1]))
  }

  /** None stands for the one error the source returns on every failure. */
  function Parse(mac: Mac, token: Bytes, secret: Bytes, now: int64): Option<(Bytes, Bytes)> {
    var cut := Cut(token, DOT);
    if cut.None? then None else
    var (p, sig) := cut.value;
    var wantSig := B64.Decode(B64.RAW_URL, sig);
    if wantSig.None? || wantSig.value != MacOf(mac, secret, p) then None else
    var raw := B64.Decode(B64.RAW_URL, p);
    if raw.None? then None else ReadPayload(raw.value, now)
  }

  lemma {:induction false} ReadBack(subject: Bytes, recording: Bytes, exp: int64, now: int64)
    ensures ReadPayload(PlayPayload(subject, recording, exp), now) ==
            if now <= exp && subject != [] && recording != [] && BAR !in subject && BAR !in recording
            then Some((subject, recording)) else None
  {
    hide SplitOn, FormatInt, ParseInt;
    var d := FormatInt(exp);
    ParseFormat(exp);
    SplitWhole(subject, BAR);
    SplitWhole(recording, BAR);
    SplitWhole(d, BAR);
    SplitJoin(subject, recording, BAR);
    SplitJoin(subject + [BAR] + recording, d, BAR);
  }

  /** Parsing a minted token gives back the subject and recording exactly when it has not expired and
      both ids are nonempty and free of the separator; otherwise it is refused. */
  lemma {:induction false} TokenRoundTrip(
      mac: Mac, secret: Bytes, subject: Bytes, recording: Bytes, exp: int64, now: int64)
    ensures Parse(mac, Mint(mac, secret, subject, recording, exp), secret, now) ==
            if now <= exp && subject != [] && recording != [] && BAR !in subject && BAR !in recording
            then Some((subject, recording)) else None
  {
    hide B64.Encode, B64.Decode, PlayPayload, ReadPayload, Cut;
    var raw := PlayPayload(subject, recording, exp);
    var p := B64.Encode(B64.RAW_URL, raw);
    var tag := MacOf(mac, secret, p);
    B64.EncodeAlphabet(B64.RAW_URL, raw);
    assert DOT !in p by {
      assert !B64.InOutput(B64.RAW_URL, DOT);
    }
    CutJoin(p, B64.Encode(B64.RAW_URL, tag), DOT);
    B64.DecodeEncode(B64.RAW_URL, raw);
    B64.DecodeEncode(B64.RAW_URL, tag);
    ReadBack(subject, recording, exp, now);
  }
}
