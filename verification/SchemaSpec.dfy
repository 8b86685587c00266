/** The record-schema wire format and the layout of the records it describes. */
module SchemaSpec {
  import opened Bytes
  import opened Wire

  type Text = seq<Byte>

  datatype FieldKind =
    | KU8 | KU16 | KU32 | KU64 | KI64
    | KBytes(maxLen: U32) | KString(maxLen: U32)
    | KKernelStack(maxDepth: U16) | KUserStack(maxDepth: U16)
    | KGuestPtr(elemSize: Byte)

  datatype Field = Field(name: Text, kind: FieldKind)

  datatype Schema = Schema(fields: seq<Field>, format: Option<Text>)

  datatype SchemaError =
    | HeaderTooShort | FieldHeaderOutOfRange | FieldNameOutOfRange | FieldNameNotUtf8
    | BytesStringLenOutOfRange | StackMaxDepthOutOfRange | GuestPtrElemSizeOutOfRange
    | UnknownFieldTag(tag: Byte)
    | PrintfFormatLenOutOfRange | PrintfFormatBytesOutOfRange | PrintfFormatNotUtf8
  {
    /** The errors that say the input stopped too early. */
    predicate IsShort() {
      !FieldNameNotUtf8? && !UnknownFieldTag? && !PrintfFormatNotUtf8?
    }
  }

  // ---------------------------------------------------------------- encoding

  function Tag(k: FieldKind): Byte {
    match k
    case KU8 => 1
    case KU16 => 2
    case KU32 => 3
    case KU64 => 4
    case KI64 => 5
    case KBytes(_) => 6
    case KString(_) => 7
    case KKernelStack(_) => 8
    case KUserStack(_) => 9
    case KGuestPtr(_) => 10
  }

  function Tail(k: FieldKind): seq<Byte> {
    match k
    case KBytes(n) => ToLe(n, 4)
    case KString(n) => ToLe(n, 4)
    case KKernelStack(d) => ToLe(d, 2)
    case KUserStack(d) => ToLe(d, 2)
    case KGuestPtr(e) => [e]
    case _ => []
  }

  function EncodeField(f: Field): seq<Byte>
    requires |f.name| < 256
  {
    [Tag(f.kind), |f.name|] + (f.name + Tail(f.kind))
  }

  predicate NamesFit(fs: seq<Field>) {
    forall f :: f in fs ==> |f.name| < 256
  }

  function EncodeFields(fs: seq<Field>): seq<Byte>
    requires NamesFit(fs)
  {
    if |fs| == 0 then [] else EncodeField(fs[0]) + EncodeFields(fs[1..])
  }

  function EncodeFormat(fmt: Option<Text>): seq<Byte> {
    if fmt.None? then [] else ToLe(|fmt.value|, 4) + fmt.value
  }

  /** What the encoder accepts without panicking. */
  predicate Encodable(s: Schema) {
    |s.fields| < 0x8000 && NamesFit(s.fields) && (s.format.Some? ==> |s.format.value| < 0x1_0000_0000)
  }

  /** The field count, with the top bit saying that a format string follows the fields. */
  function CountWord(n: nat, format: bool): nat {
    if format then n + 0x8000 else n
  }

  function Encode(s: Schema): seq<Byte>
    requires Encodable(s)
  {
    ToLe(CountWord(|s.fields|, s.format.Some?), 2) + (EncodeFields(s.fields) + EncodeFormat(s.format))
  }

  // ---------------------------------------------------------------- decoding

  function DecodeKind(tag: Byte, b: seq<Byte>): Result<Read<FieldKind>, SchemaError> {
    match tag
    case 1 => Ok(Read(KU8, 0))
    case 2 => Ok(Read(KU16, 0))
    case 3 => Ok(Read(KU32, 0))
    case 4 => Ok(Read(KU64, 0))
    case 5 => Ok(Read(KI64, 0))
    case 6 => if |b| < 4 then Err(BytesStringLenOutOfRange) else Ok(Read(KBytes(U32At(b, 0)), 4))
    case 7 => if |b| < 4 then Err(BytesStringLenOutOfRange) else Ok(Read(KString(U32At(b, 0)), 4))
    case 8 => if |b| < 2 then Err(StackMaxDepthOutOfRange) else Ok(Read(KKernelStack(U16At(b, 0)), 2))
    case 9 => if |b| < 2 then Err(StackMaxDepthOutOfRange) else Ok(Read(KUserStack(U16At(b, 0)), 2))
    case 10 => if |b| < 1 then Err(GuestPtrElemSizeOutOfRange) else Ok(Read(KGuestPtr(b[0]), 1))
    case _ => Err(UnknownFieldTag(tag))
  }

  function DecodeField(b: seq<Byte>, utf8: Text -> bool): (r: Result<Read<Field>, SchemaError>)
    ensures r.Ok? ==> 2 <= r.value.used <= |b|
  {
    if |b| < 2 then Err(FieldHeaderOutOfRange)
    else if 2 + b[1] > |b| then Err(FieldNameOutOfRange)
    else
      var name := b[2..2 + b[1]];
      if !utf8(name) then Err(FieldNameNotUtf8)
      else
        match DecodeKind(b[0], b[2 + b[1]..])
        case Err(e) => Err(e)
        case Ok(k) => Ok(Read(Field(name, k.value), 2 + b[1] + k.used))
  }

  function DecodeFields(b: seq<Byte>, n: nat, utf8: Text -> bool): (r: Result<Read<seq<Field>>, SchemaError>)
    ensures r.Ok? ==> r.value.used <= |b| && |r.value.value| == n
    decreases n
  {
    if n == 0 then Ok(Read([], 0))
    else
      match DecodeField(b, utf8)
      case Err(e) => Err(e)
      case Ok(f) =>
        match DecodeFields(b[f.used..], n - 1, utf8)
        case Err(e) => Err(e)
        case Ok(fs) => Ok(Read([f.value] + fs.value, f.used + fs.used))
  }

  function DecodeFormat(b: seq<Byte>, present: bool, utf8: Text -> bool): (r: Result<Read<Option<Text>>, SchemaError>)
    ensures r.Ok? ==> r.value.used <= |b|
  {
    if !present then Ok(Read(None, 0))
    else if |b| < 4 then Err(PrintfFormatLenOutOfRange)
    else if 4 + U32At(b, 0) > |b| then Err(PrintfFormatBytesOutOfRange)
    else
      var fmt := b[4..4 + U32At(b, 0)];
      if utf8(fmt) then Ok(Read(Some(fmt), 4 + |fmt|)) else Err(PrintfFormatNotUtf8)
  }

  function Decode(b: seq<Byte>, utf8: Text -> bool): (r: Result<Read<Schema>, SchemaError>)
    ensures r.Ok? ==> r.value.used <= |b|
  {
    if |b| < 2 then Err(HeaderTooShort)
    else
      var raw := U16At(b, 0);
      match DecodeFields(b[2..], raw % 0x8000, utf8)
      case Err(e) => Err(e)
      case Ok(fs) =>
        match DecodeFormat(b[2 + fs.used..], raw >= 0x8000, utf8)
        case Err(e) => Err(e)
        case Ok(fmt) => Ok(Read(Schema(fs.value, fmt.value), 2 + fs.used + fmt.used))
  }

  // ---------------------------------------------------------------- record layout

  function KindSize(k: FieldKind): nat {
    match k
    case KU8 => 1
    case KU16 => 2
    case KU32 => 4
    case KGuestPtr(_) => 4
    case KU64 => 8
    case KI64 => 8
    case KBytes(n) => n
    case KString(n) => n
    case KKernelStack(d) => d * 8
    case KUserStack(d) => d * 8
  }

  function RecordSize(fs: seq<Field>): nat {
    if |fs| == 0 then 0 else RecordSize(fs[..|fs| - 1]) + KindSize(fs[|fs| - 1].kind)
  }

  function FieldOffset(fs: seq<Field>, i: nat): nat
    requires i <= |fs|
  {
    RecordSize(fs[..i])
  }

  /** Byte `p` of a record belongs to field `i`. */
  ghost predicate Covers(fs: seq<Field>, i: nat, p: nat)
    requires i < |fs|
  {
    FieldOffset(fs, i) <= p < FieldOffset(fs, i) + KindSize(fs[i].kind)
  }

  lemma OffsetStep(fs: seq<Field>, i: nat)
    requires i < |fs|
    ensures FieldOffset(fs, i + 1) == FieldOffset(fs, i) + KindSize(fs[i].kind)
  {
    assert fs[..i + 1][..i] == fs[..i];
  }

  lemma {:induction false} OffsetsAscend(fs: seq<Field>, i: nat, j: nat)
    requires i <= j <= |fs|
    ensures FieldOffset(fs, i) <= FieldOffset(fs, j)
    decreases j
  {
    if i < j {
      OffsetsAscend(fs, i, j - 1);
      OffsetStep(fs, j - 1);
    }
  }

  lemma {:induction false} FindField(fs: seq<Field>, n: nat, p: nat) returns (i: nat)
    requires n <= |fs| && p < FieldOffset(fs, n)
    ensures i < n && Covers(fs, i, p)
    decreases n
  {
    assert fs[..0] == [];
    OffsetStep(fs, n - 1);
    if p < FieldOffset(fs, n - 1) {
      i := FindField(fs, n - 1, p);
    } else {
      i := n - 1;
    }
  }

  /** The fields tile the record: byte `p` is inside it exactly when some field covers it, and then only one does. */
  lemma FieldsTile(fs: seq<Field>, p: nat)
    ensures p < RecordSize(fs) <==> exists i :: 0 <= i < |fs| && Covers(fs, i, p)
    ensures forall i, j :: 0 <= i < |fs| && 0 <= j < |fs| && Covers(fs, i, p) && Covers(fs, j, p) ==> i == j
  {
    assert fs[..|fs|] == fs;
    if p < RecordSize(fs) {
      var i := FindField(fs, |fs|, p);
    }
    forall i | 0 <= i < |fs| && Covers(fs, i, p)
      ensures p < RecordSize(fs)
    {
      OffsetStep(fs, i);
      OffsetsAscend(fs, i + 1, |fs|);
    }
    forall i, j | 0 <= i < |fs| && 0 <= j < |fs| && Covers(fs, i, p) && Covers(fs, j, p)
      ensures i == j
    {
      OffsetStep(fs, i);
      OffsetStep(fs, j);
      if i < j { OffsetsAscend(fs, i + 1, j); }
      if j < i { OffsetsAscend(fs, j + 1, i); }
    }
  }

  // ---------------------------------------------------------------- on bytes

  /** A field on the wire: its tag, the length of its name, the name, and a parameter where the kind has one. */
  lemma FieldLayout(f: Field)
    requires |f.name| < 256
    ensures var b, n := EncodeField(f), |f.name|;
            && |b| >= 2 + n && b[1] == n && b[2..2 + n] == f.name
            && match f.kind
               case KU8 => b[0] == 1 && |b| == 2 + n
               case KU16 => b[0] == 2 && |b| == 2 + n
               case KU32 => b[0] == 3 && |b| == 2 + n
               case KU64 => b[0] == 4 && |b| == 2 + n
               case KI64 => b[0] == 5 && |b| == 2 + n
               case KBytes(m) => b[0] == 6 && |b| == 6 + n && U32At(b, 2 + n) == m
               case KString(m) => b[0] == 7 && |b| == 6 + n && U32At(b, 2 + n) == m
               case KKernelStack(d) => b[0] == 8 && |b| == 4 + n && U16At(b, 2 + n) == d
               case KUserStack(d) => b[0] == 9 && |b| == 4 + n && U16At(b, 2 + n) == d
               case KGuestPtr(e) => b[0] == 10 && |b| == 3 + n && b[2 + n] == e
  {
    hide ToLe, FromLe;
    var b, n, tail := EncodeField(f), |f.name|, Tail(f.kind);
    assert b[2 + n..] == tail && b[2..2 + n] == f.name;
    Widths();
    match f.kind
    case KBytes(m) => LeRoundTrip(m, 4); assert b[2 + n..6 + n] == tail;
    case KString(m) => LeRoundTrip(m, 4); assert b[2 + n..6 + n] == tail;
    case KKernelStack(d) => LeRoundTrip(d, 2); assert b[2 + n..4 + n] == tail;
    case KUserStack(d) => LeRoundTrip(d, 2); assert b[2 + n..4 + n] == tail;
    case _ =>
  }

  /** Fields of a fixed width. */
  datatype Fixed = One | Two | Four | Eight

  predicate IsFixed(k: FieldKind, w: Fixed) {
    match w
    case One => k == KU8
    case Two => k == KU16
    case Four => k == KU32 || k.KGuestPtr?
    case Eight => k == KU64 || k == KI64
  }

  function HowMany(fs: seq<Field>, w: Fixed): nat {
    if |fs| == 0 then 0 else HowMany(fs[..|fs| - 1], w) + if IsFixed(fs[|fs| - 1].kind, w) then 1 else 0
  }

  /** The lengths of all byte and string fields together, and the depths of all stacks. */
  function Lengths(fs: seq<Field>): nat {
    if |fs| == 0 then 0
    else
      var k := fs[|fs| - 1].kind;
      Lengths(fs[..|fs| - 1]) + if k.KBytes? || k.KString? then k.maxLen else 0
  }

  function Depths(fs: seq<Field>): nat {
    if |fs| == 0 then 0
    else
      var k := fs[|fs| - 1].kind;
      Depths(fs[..|fs| - 1]) + if k.KKernelStack? || k.KUserStack? then k.maxDepth else 0
  }

  ghost function ByContents(fs: seq<Field>): nat {
    HowMany(fs, One) + 2 * HowMany(fs, Two) + 4 * HowMany(fs, Four) + 8 * HowMany(fs, Eight)
    + Lengths(fs) + 8 * Depths(fs)
  }

  lemma OneFieldMore(fs: seq<Field>)
    requires fs != []
    ensures ByContents(fs) == ByContents(fs[..|fs| - 1]) + KindSize(fs[|fs| - 1].kind)
  {
  }

  /**
   * The size of a record, by what is in it: one, two, four and eight bytes for the numbers, four for a guest pointer,
   * the announced length for bytes and strings, eight bytes per stack frame. No padding is added.
   */
  lemma {:induction false} RecordSizeIs(fs: seq<Field>)
    ensures RecordSize(fs) ==
            HowMany(fs, One) + 2 * HowMany(fs, Two) + 4 * HowMany(fs, Four) + 8 * HowMany(fs, Eight)
            + Lengths(fs) + 8 * Depths(fs)
    decreases |fs|
  {
    if |fs| > 0 {
      OneFieldMore(fs);
      RecordSizeIs(fs[..|fs| - 1]);
    }
  }

  /** A field is refused for its tag exactly when the tag is none of one to ten; its name has been read by then. */
  lemma TagRefusedIff(b: seq<Byte>, utf8: Text -> bool)
    requires |b| >= 2 && |b| >= 2 + b[1] as int && utf8(b[2..2 + b[1] as int])
    ensures DecodeField(b, utf8) == Err(UnknownFieldTag(b[0])) <==> b[0] == 0 || b[0] > 10
  {
    hide U16At, U32At;
  }
}
