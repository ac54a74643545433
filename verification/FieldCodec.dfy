/** The length-prefixed field encoding shared by the audit, consent and presence payloads, and a
    parser that undoes it. */
module FieldCodec {
  import opened ByteStrings

  function Field(p: Bytes): (b: Bytes)
    ensures |b| == 4 + |p|
  {
    U32(|p|) + p
  }

  function EncodeFields(fs: seq<Bytes>): Bytes {
    if fs == [] then [] else EncodeFields(fs[..|fs| - 1]) + Field(fs[|fs| - 1])
  }

  /** Splits one field off the front. The length prefix it reads is below 2^32, so is the field. */
  function TakeField(s: Bytes): (r: Option<(Bytes, Bytes)>)
    ensures r.Some? ==> |r.value.0| < TWO_32 && |r.value.1| + 4 <= |s|
  {
    if |s| < 4 then None else
    Widths();
    var n := FromBigEndian(s[..4]);
    if |s| < 4 + n then None else Some((s[4..4 + n], s[4 + n..]))
  }

  function TakeFields(k: nat, s: Bytes): (r: Option<(seq<Bytes>, Bytes)>)
    ensures r.Some? ==> |r.value.0| == k && FieldsFit(r.value.0)
  {
    if k == 0 then Some(([], s)) else
    var first := TakeField(s);
    if first.None? then None else
    var more := TakeFields(k - 1, first.value.1);
    if more.None? then None else Some(([first.value.0] + more.value.0, more.value.1))
  }

  /** No field is long enough for `uint32(len(p))` to wrap. */
  predicate FieldsFit(fs: seq<Bytes>) {
    forall i :: 0 <= i < |fs| ==> |fs[i]| < TWO_32
  }

  lemma {:induction false} EncodeFieldsAppend(fs: seq<Bytes>, f: Bytes)
    ensures EncodeFields(fs + [f]) == EncodeFields(fs) + Field(f)
  {
    assert (fs + [f])[..|fs|] == fs;
  }

  lemma {:induction false} EncodeFieldsPrepend(f: Bytes, fs: seq<Bytes>)
    ensures EncodeFields([f] + fs) == Field(f) + EncodeFields(fs)
  {
    hide Field;
    if fs == [] {
      assert [f] + fs == [] + [f];
      EncodeFieldsAppend([], f);
    } else {
      var init, last := fs[..|fs| - 1], fs[|fs| - 1];
      EncodeFieldsPrepend(f, init);
      EncodeFieldsAppend([f] + init, last);
      EncodeFieldsAppend(init, last);
      hide EncodeFields;
      assert [f] + fs == ([f] + init) + [last] && fs == init + [last];
      assert Field(f) + EncodeFields(init) + Field(last) == Field(f) + (EncodeFields(init) + Field(last));
    }
  }

  lemma {:induction false} TakeFieldInverse(p: Bytes, rest: Bytes)
    requires |p| < TWO_32
    ensures TakeField(Field(p) + rest) == Some((p, rest))
  {
    var s := Field(p) + rest;
    assert s[..4] == U32(|p|);
    U32Inverse(|p|);
    assert s[4..4 + |p|] == p && s[4 + |p|..] == rest;
  }

  lemma {:induction false} TakeFieldsInverse(fs: seq<Bytes>, rest: Bytes)
    requires FieldsFit(fs)
    ensures TakeFields(|fs|, EncodeFields(fs) + rest) == Some((fs, rest))
  {
    if fs == [] {
      assert EncodeFields(fs) + rest == rest;
    } else {
      var f, more := fs[0], fs[1..];
      assert fs == [f] + more;
      EncodeFieldsPrepend(f, more);
      assert EncodeFields(fs) + rest == Field(f) + (EncodeFields(more) + rest);
      TakeFieldInverse(f, EncodeFields(more) + rest);
      TakeFieldsInverse(more, rest);
    }
  }

  datatype Frame = Frame(head: Bytes, fields: seq<Bytes>, tail: Bytes)

  /** Cuts a fixed-size head and `k` fields off `s`. */
  function TakeFrame(headLen: nat, k: nat, s: Bytes): (r: Option<Frame>)
    ensures r.Some? ==> |r.value.head| == headLen && |r.value.fields| == k && FieldsFit(r.value.fields)
  {
    if |s| < headLen then None else
    var fields := TakeFields(k, s[headLen..]);
    if fields.None? then None else Some(Frame(s[..headLen], fields.value.0, fields.value.1))
  }

  lemma {:induction false} TakeFrameInverse(head: Bytes, fs: seq<Bytes>, tail: Bytes)
    requires FieldsFit(fs)
    ensures TakeFrame(|head|, |fs|, head + EncodeFields(fs) + tail) == Some(Frame(head, fs, tail))
  {
    var s := head + EncodeFields(fs) + tail;
    assert s[..|head|] == head && s[|head|..] == EncodeFields(fs) + tail;
    TakeFieldsInverse(fs, tail);
  }

  function EmptyFields(k: nat): (fs: seq<Bytes>)
    ensures |fs| == k && forall i :: 0 <= i < k ==> fs[i] == []
  {
    if k == 0 then [] else EmptyFields(k - 1) + [[]]
  }

  /** `k` empty fields are `4*k` zero bytes: the shape behind the length-wrap counterexamples. */
  lemma {:induction false} EncodeEmptyFields(k: nat)
    ensures EncodeFields(EmptyFields(k)) == Zeros(4 * k)
  {
    hide Zeros, Field;
    if k == 0 {
      assert Zeros(0) == [];
    } else {
      EncodeEmptyFields(k - 1);
      EncodeFieldsAppend(EmptyFields(k - 1), []);
      EmptyField();
      ZerosAppend(4 * (k - 1), 4);
    }
  }

  lemma {:induction false} ZerosAppend(m: nat, n: nat)
    ensures Zeros(m + n) == Zeros(m) + Zeros(n)
  {
  }

  lemma {:induction false} EmptyField()
    ensures Field([]) == Zeros(4)
  {
    ZeroU32();
    assert Field([]) == U32(0) + [];
  }

  lemma {:induction false} ZeroU32()
    ensures U32(0) == Zeros(4) && U32(TWO_32) == Zeros(4)
  {
    assert BigEndian(0, 0) == [];
    assert BigEndian(1, 0) == [0];
    assert BigEndian(2, 0) == [0, 0];
    assert BigEndian(3, 0) == [0, 0, 0];
  }

  /** Appends one field to the buffer, as the `putField` closures do. `head` and `fs` record what
      the buffer already holds. */
  method PutField(b: Bytes, ghost head: Bytes, ghost fs: seq<Bytes>, p: Bytes) returns (r: Bytes)
    requires b == head + EncodeFields(fs)
    ensures r == head + EncodeFields(fs + [p])
  {
    r := b + U32(|p|);
    r := r + p;
    EncodeFieldsAppend(fs, p);
    assert r == head + (EncodeFields(fs) + Field(p));
  }
}
