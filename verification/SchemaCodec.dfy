/** The schema encoder and decoder undo each other. */
module SchemaCodec {
  import opened Bytes
  import opened Wire
  import opened SchemaSpec

  ghost predicate ValidText(s: Schema, utf8: Text -> bool) {
    (forall f :: f in s.fields ==> utf8(f.name)) && (s.format.Some? ==> utf8(s.format.value))
  }

  /** Reading an encoding yields the value, or an out-of-range error when the input stops inside it. */
  ghost predicate Reads<T>(r: Result<Read<T>, SchemaError>, value: T, size: nat, available: nat) {
    if size <= available then r == Ok(Read(value, size)) else r.Err? && r.error.IsShort()
  }

  // ---------------------------------------------------------------- decoding an encoding

  lemma KindReads(k: FieldKind, b: seq<Byte>)
    requires Meets(b, Tail(k))
    ensures Reads(DecodeKind(Tag(k), b), k, |Tail(k)|, |b|)
  {
    hide ToLe, U16At, U32At;
    if |Tail(k)| <= |b| {
      MeetsAll(b, Tail(k));
      match k
      case KBytes(n) => ReadsU32(b, n);
      case KString(n) => ReadsU32(b, n);
      case KKernelStack(d) => ReadsU16(b, d);
      case KUserStack(d) => ReadsU16(b, d);
      case KGuestPtr(e) => assert b[..1][0] == e;
      case _ =>
    }
  }

  lemma FieldReads(f: Field, b: seq<Byte>, utf8: Text -> bool)
    requires |f.name| < 256 && utf8(f.name) && Meets(b, EncodeField(f))
    ensures Reads(DecodeField(b, utf8), f, |EncodeField(f)|, |b|)
  {
    hide Tail, DecodeKind;
    var head: seq<Byte> := [Tag(f.kind), |f.name|];
    MeetsSplit(b, head, f.name + Tail(f.kind));
    if |b| >= 2 {
      assert b[0] == b[..2][0] && b[1] == b[..2][1];
      MeetsSplit(b[2..], f.name, Tail(f.kind));
      if 2 + |f.name| <= |b| {
        Glue(b, 2, |f.name|);
        assert b[2..2 + b[1]] == b[2..][..|f.name|];
        KindReads(f.kind, b[2 + |f.name|..]);
      }
    }
  }

  lemma {:induction false} FieldsRead(fs: seq<Field>, b: seq<Byte>, utf8: Text -> bool)
    requires NamesFit(fs) && (forall f :: f in fs ==> utf8(f.name)) && Meets(b, EncodeFields(fs))
    ensures Reads(DecodeFields(b, |fs|, utf8), fs, |EncodeFields(fs)|, |b|)
    decreases |fs|
  {
    hide DecodeField, EncodeField;
    if |fs| > 0 {
      MeetsSplit(b, EncodeField(fs[0]), EncodeFields(fs[1..]));
      FieldReads(fs[0], b, utf8);
      var n := |EncodeField(fs[0])|;
      if n <= |b| {
        FieldsRead(fs[1..], b[n..], utf8);
        assert [fs[0]] + fs[1..] == fs;
      }
    }
  }

  lemma FormatReads(fmt: Option<Text>, b: seq<Byte>, utf8: Text -> bool)
    requires fmt.Some? ==> |fmt.value| < 0x1_0000_0000 && utf8(fmt.value)
    requires Meets(b, EncodeFormat(fmt))
    ensures Reads(DecodeFormat(b, fmt.Some?, utf8), fmt, |EncodeFormat(fmt)|, |b|)
  {
    hide ToLe, U32At;
    if fmt.Some? {
      MeetsSplit(b, ToLe(|fmt.value|, 4), fmt.value);
      if |b| >= 4 {
        ReadsU32(b, |fmt.value|);
        if 4 + |fmt.value| <= |b| {
          MeetsAll(b[4..], fmt.value);
          assert b[4..4 + |fmt.value|] == b[4..][..|fmt.value|];
        }
      }
    }
  }

  lemma CountWordReads(n: nat, format: bool)
    requires n < 0x8000
    ensures var w := CountWord(n, format);
            w < 0x1_0000 && w % 0x8000 == n && (w >= 0x8000 <==> format)
  {
  }

  /**
   * Whatever the input, as far as it agrees with an encoding the decoder reads that schema or reports a short
   * input.
   */
  lemma SchemaReads(s: Schema, b: seq<Byte>, utf8: Text -> bool)
    requires Encodable(s) && ValidText(s, utf8) && Meets(b, Encode(s))
    ensures Reads(Decode(b, utf8), s, |Encode(s)|, |b|)
  {
    hide ToLe, U16At, CountWord, EncodeFields, EncodeFormat, DecodeFields, DecodeFormat;
    var word := CountWord(|s.fields|, s.format.Some?);
    var fields, format := EncodeFields(s.fields), EncodeFormat(s.format);
    MeetsSplit(b, ToLe(word, 2), fields + format);
    CountWordReads(|s.fields|, s.format.Some?);
    if |b| >= 2 {
      ReadsU16(b, word);
      MeetsSplit(b[2..], fields, format);
      FieldsRead(s.fields, b[2..], utf8);
      if 2 + |fields| <= |b| {
        Glue(b, 2, |fields|);
        FormatReads(s.format, b[2 + |fields|..], utf8);
      }
    }
  }

  /** Decoding an encoding followed by anything gives the schema back and stops at the encoding's end. */
  lemma RoundTrip(s: Schema, rest: seq<Byte>, utf8: Text -> bool)
    requires Encodable(s) && ValidText(s, utf8)
    ensures Decode(Encode(s) + rest, utf8) == Ok(Read(s, |Encode(s)|))
  {
    hide Encode, Decode, Encodable, ValidText;
    MeetsSuffixed(Encode(s), rest);
    SchemaReads(s, Encode(s) + rest, utf8);
  }

  /** A truncated encoding is never mistaken for a schema. */
  lemma TruncationDetected(s: Schema, k: nat, utf8: Text -> bool)
    requires Encodable(s) && ValidText(s, utf8) && k < |Encode(s)|
    ensures var r := Decode(Encode(s)[..k], utf8); r.Err? && r.error.IsShort()
  {
    hide Encode, Decode, Encodable, ValidText;
    MeetsPrefix(Encode(s), k);
    SchemaReads(s, Encode(s)[..k], utf8);
  }

  // ---------------------------------------------------------------- encoding what was decoded

  lemma KindRewrites(tag: Byte, b: seq<Byte>)
    ensures var r := DecodeKind(tag, b);
            r.Ok? ==> r.value.used <= |b| && Tag(r.value.value) == tag && Tail(r.value.value) == b[..r.value.used]
  {
    hide ToLe, U16At, U32At;
    WritesBack(b);
    assert |b| >= 1 ==> b[..1] == [b[0]];
    assert b[..0] == [];
  }

  lemma FieldRewrites(b: seq<Byte>, utf8: Text -> bool)
    ensures var r := DecodeField(b, utf8);
            r.Ok? ==> var f := r.value.value; |f.name| < 256 && utf8(f.name) && EncodeField(f) == b[..r.value.used]
  {
    hide Tail, DecodeKind, Tag;
    if DecodeField(b, utf8).Ok? {
      var n: int := b[1];
      KindRewrites(b[0], b[2 + n..]);
      var k := DecodeKind(b[0], b[2 + n..]).value;
      assert b[..2] == [b[0], n];
      Glue(b, 2 + n, k.used);
      Glue(b, 2, n);
      assert b[2..2 + n] == b[2..][..n];
      assert [b[0], n] + (b[2..2 + n] + b[2 + n..][..k.used]) == [b[0], n] + b[2..2 + n] + b[2 + n..][..k.used];
    }
  }

  lemma {:induction false} FieldsRewrite(b: seq<Byte>, n: nat, utf8: Text -> bool)
    ensures var r := DecodeFields(b, n, utf8);
            r.Ok? ==> var fs := r.value.value;
              NamesFit(fs) && (forall f :: f in fs ==> utf8(f.name)) && EncodeFields(fs) == b[..r.value.used]
    decreases n
  {
    hide DecodeField, EncodeField;
    if n > 0 && DecodeFields(b, n, utf8).Ok? {
      FieldRewrites(b, utf8);
      var f := DecodeField(b, utf8).value;
      FieldsRewrite(b[f.used..], n - 1, utf8);
      var fs := DecodeFields(b[f.used..], n - 1, utf8).value;
      Glue(b, f.used, fs.used);
      var all := [f.value] + fs.value;
      assert all[0] == f.value && all[1..] == fs.value;
    }
  }

  lemma FormatRewrites(b: seq<Byte>, present: bool, utf8: Text -> bool)
    ensures var r := DecodeFormat(b, present, utf8);
            r.Ok? ==> var fmt := r.value.value;
              && fmt.Some? == present && (present ==> |fmt.value| < 0x1_0000_0000 && utf8(fmt.value))
              && EncodeFormat(fmt) == b[..r.value.used]
  {
    hide ToLe, U32At;
    if present && DecodeFormat(b, present, utf8).Ok? {
      var n := U32At(b, 0);
      WritesBack(b);
      Glue(b, 4, n);
      assert b[4..4 + n] == b[4..][..n];
    }
  }

  /** Every input the decoder accepts is the encoding of what it returns, byte for byte. */
  lemma DecodeRewrites(b: seq<Byte>, utf8: Text -> bool)
    ensures var r := Decode(b, utf8);
            r.Ok? ==> var s := r.value.value;
              Encodable(s) && ValidText(s, utf8) && Encode(s) == b[..r.value.used]
  {
    hide ToLe, U16At, EncodeFields, EncodeFormat, DecodeFields, DecodeFormat;
    if Decode(b, utf8).Ok? {
      var raw := U16At(b, 0);
      WritesBack(b);
      FieldsRewrite(b[2..], raw % 0x8000, utf8);
      var fs := DecodeFields(b[2..], raw % 0x8000, utf8).value;
      FormatRewrites(b[2 + fs.used..], raw >= 0x8000, utf8);
      var fmt := DecodeFormat(b[2 + fs.used..], raw >= 0x8000, utf8).value;
      CountWordBack(raw);
      GlueThree(b, 2, fs.used, fmt.used);
    }
  }

  lemma CountWordBack(raw: U16)
    ensures CountWord(raw % 0x8000, raw >= 0x8000) == raw
  {
  }

  // ---------------------------------------------------------------- the writer and the reader

  method WriteKind(k: FieldKind) returns (out: seq<Byte>)
    ensures out == [Tag(k)] + Tail(k) && |out| > 0
  {
    out := [Tag(k)];
    match k {
      case KBytes(n) => out := out + ToLe(n, 4);
      case KString(n) => out := out + ToLe(n, 4);
      case KKernelStack(d) => out := out + ToLe(d, 2);
      case KUserStack(d) => out := out + ToLe(d, 2);
      case KGuestPtr(e) => out := out + [e];
      case _ =>
    }
  }

  /** `encode`: nothing is returned where the original panics on a count or length that does not fit. */
  method Write(s: Schema) returns (out: Option<seq<Byte>>)
    ensures out == if Encodable(s) then Some(Encode(s)) else None
    ensures out.Some? <==>
            && |s.fields| <= 0x7fff && (forall f :: f in s.fields ==> |f.name| <= 255)
            && (s.format.Some? ==> |s.format.value| < 0x1_0000_0000)
  {
    hide ToLe, EncodeField;
    if |s.fields| >= 0x8000 {
      return None;
    }
    var sink := ToLe(if s.format.Some? then |s.fields| + 0x8000 else |s.fields|, 2);
    ghost var head := sink;
    for i := 0 to |s.fields|
      invariant NamesFit(s.fields[..i]) && sink == head + EncodeFields(s.fields[..i])
    {
      var f := s.fields[i];
      if |f.name| >= 256 {
        assert f in s.fields;
        return None;
      }
      assert s.fields[..i + 1] == s.fields[..i] + [f];
      EncodeFieldsSnoc(s.fields[..i], f);
      ghost var sofar := EncodeFields(s.fields[..i]);
      assert head + (sofar + EncodeField(f)) == head + sofar + EncodeField(f);
      var kind := WriteKind(f.kind);
      sink := sink + (kind[..1] + [|f.name|] + f.name + kind[1..]);
      assert kind[..1] + [|f.name|] + f.name + kind[1..] == EncodeField(f) by { WrittenField(f, kind); }
    }
    assert s.fields[..|s.fields|] == s.fields;
    if s.format.Some? {
      if |s.format.value| >= 0x1_0000_0000 {
        return None;
      }
      sink := sink + (ToLe(|s.format.value|, 4) + s.format.value);
    }
    assert sink == head + EncodeFields(s.fields) + EncodeFormat(s.format);
    ghost var all, format := EncodeFields(s.fields), EncodeFormat(s.format);
    assert head + (all + format) == head + all + format;
    return Some(sink);
  }

  lemma WrittenField(f: Field, kind: seq<Byte>)
    requires |f.name| < 256 && kind == [Tag(f.kind)] + Tail(f.kind)
    ensures kind[..1] + [|f.name|] + f.name + kind[1..] == EncodeField(f)
  {
    hide Tail, Tag;
  }

  lemma {:induction false} EncodeFieldsSnoc(fs: seq<Field>, f: Field)
    requires NamesFit(fs) && |f.name| < 256
    ensures NamesFit(fs + [f]) && EncodeFields(fs + [f]) == EncodeFields(fs) + EncodeField(f)
    decreases |fs|
  {
    hide EncodeField;
    var all := fs + [f];
    if |fs| == 0 {
      assert all == [f] && all[1..] == [];
    } else {
      EncodeFieldsSnoc(fs[1..], f);
      assert all[0] == fs[0] && all[1..] == fs[1..] + [f];
    }
  }

  /** `decode`: a loop over a moving offset. */
  method Parse(b: seq<Byte>, utf8: Text -> bool) returns (r: Result<Read<Schema>, SchemaError>)
    ensures r == Decode(b, utf8)
  {
    hide U16At, DecodeField, DecodeFormat, DecodeFields, Resume;
    if |b| < 2 {
      return Err(HeaderTooShort);
    }
    var raw := U16At(b, 0);
    var n := raw % 0x8000;
    var off, fields := 2, [];
    ResumeNothing(DecodeFields(b[2..], n, utf8));
    for i := 0 to n
      invariant 2 <= off <= |b| && |fields| == i
      invariant DecodeFields(b[2..], n, utf8) == Resume(fields, off - 2, DecodeFields(b[off..], n - i, utf8))
    {
      var f := DecodeField(b[off..], utf8);
      FieldsStep(b, off, n - i, utf8);
      if f.Err? {
        FieldsFail(fields, off - 2, f.error);
        return Err(f.error);
      }
      ResumeStep(fields, off - 2, f.value, DecodeFields(b[off + f.value.used..], n - i - 1, utf8));
      fields := fields + [f.value.value];
      off := off + f.value.used;
    }
    FieldsDone(fields, off - 2, b[off..], utf8);
    var fmt := DecodeFormat(b[off..], raw >= 0x8000, utf8);
    if fmt.Err? {
      return Err(fmt.error);
    }
    return Ok(Read(Schema(fields, fmt.value.value), off + fmt.value.used));
  }

  /** Fields read so far, put before the outcome of reading the rest. */
  ghost function Resume(done: seq<Field>, used: nat, rest: Result<Read<seq<Field>>, SchemaError>)
    : Result<Read<seq<Field>>, SchemaError>
  {
    if rest.Err? then rest else Ok(Read(done + rest.value.value, used + rest.value.used))
  }

  lemma ResumeNothing(rest: Result<Read<seq<Field>>, SchemaError>)
    ensures Resume([], 0, rest) == rest
  {
    if rest.Ok? {
      assert [] + rest.value.value == rest.value.value;
    }
  }

  lemma FieldsStep(b: seq<Byte>, off: nat, n: nat, utf8: Text -> bool)
    requires off <= |b| && n > 0
    ensures var f := DecodeField(b[off..], utf8);
            DecodeFields(b[off..], n, utf8) ==
            if f.Err? then Err(f.error)
            else Resume([f.value.value], f.value.used, DecodeFields(b[off + f.value.used..], n - 1, utf8))
  {
    hide DecodeField;
    var f := DecodeField(b[off..], utf8);
    if f.Ok? {
      Glue(b, off, f.value.used);
    }
  }

  lemma FieldsDone(done: seq<Field>, used: nat, b: seq<Byte>, utf8: Text -> bool)
    ensures Resume(done, used, DecodeFields(b, 0, utf8)) == Ok(Read(done, used))
  {
    assert done + [] == done;
  }

  lemma FieldsFail(done: seq<Field>, used: nat, e: SchemaError)
    ensures Resume(done, used, Err(e)) == Err(e)
  {
  }

  lemma ResumeStep(done: seq<Field>, used: nat, f: Read<Field>, rest: Result<Read<seq<Field>>, SchemaError>)
    ensures Resume(done, used, Resume([f.value], f.used, rest)) == Resume(done + [f.value], used + f.used, rest)
  {
    if rest.Ok? {
      assert done + ([f.value] + rest.value.value) == done + [f.value] + rest.value.value;
    }
  }
}
