/** The DOF records as `sys/dtrace.h` lays them out, and the proof that each parser reads its own record. */
module DofFormat {
  import opened Bytes
  import opened Dof
  import opened Ecb
  import opened SessionSpec

  /** Little-endian words laid end to end; each is a value and a width. */
  datatype Word = Word(value: nat, width: nat)

  /** Where word `k` starts: the sum of the widths before it. */
  function Offset(ws: seq<Word>, k: nat): nat
    requires k <= |ws|
  {
    if k == 0 then 0 else Offset(ws, k - 1) + ws[k - 1].width
  }

  function FirstWords(ws: seq<Word>, n: nat): (r: seq<Byte>)
    requires n <= |ws|
    ensures |r| == Offset(ws, n)
  {
    if n == 0 then [] else FirstWords(ws, n - 1) + ToLe(ws[n - 1].value, ws[n - 1].width)
  }

  function Words(ws: seq<Word>): seq<Byte> {
    FirstWords(ws, |ws|)
  }

  lemma OffsetStep(ws: seq<Word>, k: nat)
    requires k < |ws|
    ensures Offset(ws, 0) == 0 && Offset(ws, k + 1) == Offset(ws, k) + ws[k].width
  {
  }

  lemma {:induction false} WordAt(ws: seq<Word>, n: nat, k: nat)
    requires k < n <= |ws|
    ensures Offset(ws, k) + ws[k].width <= Offset(ws, n)
    ensures FirstWords(ws, n)[Offset(ws, k)..Offset(ws, k) + ws[k].width] == ToLe(ws[k].value, ws[k].width)
    decreases n
  {
    hide ToLe, FirstWords, Offset;
    OffsetStep(ws, n - 1);
    var before, last, o, w := FirstWords(ws, n - 1), ToLe(ws[n - 1].value, ws[n - 1].width), Offset(ws, k), ws[k].width;
    WordAppended(ws, n);
    if k < n - 1 {
      WordAt(ws, n - 1, k);
      Slices(before, last, o, o + w);
    } else {
      Slices(before, last, o, o + w);
    }
  }

  lemma WordAppended(ws: seq<Word>, n: nat)
    requires 0 < n <= |ws|
    ensures FirstWords(ws, n) == FirstWords(ws, n - 1) + ToLe(ws[n - 1].value, ws[n - 1].width)
  {
  }

  lemma Slices(a: seq<Byte>, b: seq<Byte>, i: nat, j: nat)
    requires i <= j
    ensures j <= |a| ==> (a + b)[i..j] == a[i..j]
    ensures i == |a| && j == |a + b| ==> (a + b)[i..j] == b
  {
    var s := a + b;
    if j <= |a| {
      forall k | 0 <= k < j - i
        ensures s[i..j][k] == a[i..j][k]
      {
        assert s[i..j][k] == s[i + k];
      }
    }
  }

  lemma U32Word(ws: seq<Word>, k: nat, at: nat, tail: seq<Byte>)
    requires k < |ws| && ws[k].width == 4 && ws[k].value < 0x1_0000_0000 && at == Offset(ws, k)
    ensures at + 4 <= |Words(ws)| && U32At(Words(ws) + tail, at) == ws[k].value
  {
    hide ToLe, FromLe, FirstWords, Offset;
    WordAt(ws, |ws|, k);
    Slices(Words(ws), tail, at, at + 4);
    Widths();
    LeRoundTrip(ws[k].value, 4);
  }

  lemma U64Word(ws: seq<Word>, k: nat, at: nat, tail: seq<Byte>)
    requires k < |ws| && ws[k].width == 8 && ws[k].value < 0x1_0000_0000_0000_0000 && at == Offset(ws, k)
    ensures at + 8 <= |Words(ws)| && U64At(Words(ws) + tail, at) == ws[k].value
  {
    hide ToLe, FromLe, FirstWords, Offset;
    WordAt(ws, |ws|, k);
    Slices(Words(ws), tail, at, at + 8);
    Widths();
    LeRoundTrip(ws[k].value, 8);
  }

  // ---------------------------------------------------------------- the file header

  const MAGIC_WORD: nat := 0x464f_447f

  /** A `dof_hdr_t`: sixteen identification bytes, then flags, sizes, the section count and where the table is. */
  function HeaderWords(flags: U32, count: U32, off: U64, load: U64, file: U64): seq<Word> {
    [Word(MAGIC_WORD, 4), Word(0, 4), Word(0, 4), Word(0, 4), Word(flags, 4), Word(HDR_SIZE, 4), Word(SEC_SIZE, 4),
     Word(count, 4), Word(off, 8), Word(load, 8), Word(file, 8), Word(0, 8)]
  }

  lemma HeaderOffsets(flags: U32, count: U32, off: U64, load: U64, file: U64)
    ensures var ws := HeaderWords(flags, count, off, load, file);
            && Offset(ws, 0) == 0 && Offset(ws, 6) == 24 && Offset(ws, 7) == 28 && Offset(ws, 8) == 32
            && |Words(ws)| == HDR_SIZE
  {
    hide Offset, FirstWords;
    var ws := HeaderWords(flags, count, off, load, file);
    OffsetStep(ws, 0);
    OffsetStep(ws, 1);
    OffsetStep(ws, 2);
    OffsetStep(ws, 3);
    OffsetStep(ws, 4);
    OffsetStep(ws, 5);
    OffsetStep(ws, 6);
    OffsetStep(ws, 7);
    OffsetStep(ws, 8);
    OffsetStep(ws, 9);
    OffsetStep(ws, 10);
    OffsetStep(ws, 11);
  }

  lemma MagicBytes()
    ensures ToLe(MAGIC_WORD, 4) == MAGIC
  {
    assert ToLe(MAGIC_WORD, 4) == [0x7f] + ToLe(0x46_4f44, 3);
    assert ToLe(0x46_4f44, 3) == [0x44] + ToLe(0x464f, 2);
    assert ToLe(0x464f, 2) == [0x4f] + ToLe(0x46, 1);
    assert ToLe(0x46, 1) == [0x46] + [];
  }

  /** A canonical header before any bytes is accepted exactly when the table it announces lies inside the blob. */
  lemma HeaderParses(flags: U32, count: U32, off: U64, load: U64, file: U64, body: seq<Byte>)
    ensures var blob := Words(HeaderWords(flags, count, off, load, file)) + body;
            var end := off + count * SEC_SIZE;
            if end <= |blob| then ParseBlob(blob) == Ok(DofView(blob, blob[off..end], count))
            else ParseBlob(blob) == Err(ShortHeader)
  {
    hide ToLe, U32At, U64At, Words, Offset;
    HeaderOffsets(flags, count, off, load, file);
    var ws := HeaderWords(flags, count, off, load, file);
    MagicFirst(ws, body);
    U32Word(ws, 6, 24, body);
    U32Word(ws, 7, 28, body);
    U64Word(ws, 8, 32, body);
  }

  lemma MagicFirst(ws: seq<Word>, tail: seq<Byte>)
    requires |ws| > 0 && ws[0] == Word(MAGIC_WORD, 4)
    ensures |Words(ws)| >= 4 && (Words(ws) + tail)[..4] == MAGIC
  {
    hide ToLe, FirstWords, Offset;
    OffsetStep(ws, 0);
    WordAt(ws, |ws|, 0);
    MagicBytes();
    Slices(Words(ws), tail, 0, 4);
    assert (Words(ws) + tail)[..4] == (Words(ws) + tail)[0..4];
  }

  // ---------------------------------------------------------------- section headers

  function SectionWords(s: Section): seq<Word> {
    [Word(s.kind, 4), Word(s.align, 4), Word(s.flags, 4), Word(s.entsize, 4), Word(s.offset, 8), Word(s.size, 8)]
  }

  lemma SectionOffsets(s: Section)
    ensures var ws := SectionWords(s);
            && Offset(ws, 0) == 0 && Offset(ws, 1) == 4 && Offset(ws, 2) == 8
            && Offset(ws, 3) == 12 && Offset(ws, 4) == 16 && Offset(ws, 5) == 24 && |Words(ws)| == 32
  {
    hide Offset, FirstWords;
    var ws := SectionWords(s);
    OffsetStep(ws, 0);
    OffsetStep(ws, 1);
    OffsetStep(ws, 2);
    OffsetStep(ws, 3);
    OffsetStep(ws, 4);
    OffsetStep(ws, 5);
  }

  /** A `dof_sec_t` is read field by field. */
  lemma SectionParses(s: Section)
    ensures |Words(SectionWords(s))| == SEC_SIZE && ParseSection(Words(SectionWords(s))) == s
  {
    hide U32At, U64At, Words, Offset;
    SectionOffsets(s);
    var ws := SectionWords(s);
    assert Words(ws) + [] == Words(ws);
    U32Word(ws, 0, 0, []);
    U32Word(ws, 1, 4, []);
    U32Word(ws, 2, 8, []);
    U32Word(ws, 3, 12, []);
    U64Word(ws, 4, 16, []);
    U64Word(ws, 5, 24, []);
  }

  /** Row `i` of the table is section `i`. */
  lemma SectionIsRow(v: DofView, i: U32, s: Section)
    requires Valid(v) && i < v.count && v.table[i * 32..i * 32 + 32] == Words(SectionWords(s))
    ensures SectionAt(v, i) == Some(s)
  {
    hide ParseSection, Words, SectionWords;
    SectionParses(s);
  }

  // ---------------------------------------------------------------- ECB and action rows

  function EcbWords(e: EcbRow, uarg: U32): seq<Word> {
    [Word(e.probes, 4), Word(e.pred, 4), Word(e.actions, 4), Word(uarg, 4), Word(e.first, 4), Word(e.count, 4)]
  }

  lemma EcbOffsets(e: EcbRow, uarg: U32)
    ensures var ws := EcbWords(e, uarg);
            && Offset(ws, 0) == 0 && Offset(ws, 1) == 4 && Offset(ws, 2) == 8
            && Offset(ws, 4) == 16 && Offset(ws, 5) == 20 && |Words(ws)| == 24
  {
    hide Offset, FirstWords;
    var ws := EcbWords(e, uarg);
    OffsetStep(ws, 0);
    OffsetStep(ws, 1);
    OffsetStep(ws, 2);
    OffsetStep(ws, 3);
    OffsetStep(ws, 4);
    OffsetStep(ws, 5);
  }

  /** A `dof_ecbdesc_t` row, padded or not, is read field by field; the user argument is skipped. */
  lemma EcbParses(e: EcbRow, uarg: U32, padding: seq<Byte>)
    ensures ParseEcb(Words(EcbWords(e, uarg)) + padding) == Ok(e)
  {
    hide U32At, Words, Offset;
    EcbOffsets(e, uarg);
    var ws := EcbWords(e, uarg);
    U32Word(ws, 0, 0, padding);
    U32Word(ws, 1, 4, padding);
    U32Word(ws, 2, 8, padding);
    U32Word(ws, 4, 16, padding);
    U32Word(ws, 5, 20, padding);
  }

  function ActionWords(a: Action, strtab: U32, kindHigh: U32): seq<Word> {
    [Word(a.difo, 4), Word(strtab, 4), Word(a.kind.code, 4), Word(kindHigh, 4), Word(a.arg, 8), Word(a.uarg, 8)]
  }

  lemma ActionOffsets(a: Action, strtab: U32, kindHigh: U32)
    ensures var ws := ActionWords(a, strtab, kindHigh);
            && Offset(ws, 0) == 0 && Offset(ws, 2) == 8 && Offset(ws, 4) == 16 && Offset(ws, 5) == 24
            && |Words(ws)| == 32
  {
    hide Offset, FirstWords;
    var ws := ActionWords(a, strtab, kindHigh);
    OffsetStep(ws, 0);
    OffsetStep(ws, 1);
    OffsetStep(ws, 2);
    OffsetStep(ws, 3);
    OffsetStep(ws, 4);
    OffsetStep(ws, 5);
  }

  /** The action codes of `sys/dtrace.h` that the parser knows. */
  predicate KnownCode(c: nat) {
    c <= 7 || 0x20 <= c <= 0x22 || 0x30 <= c <= 0x35 || c == 0x600 || c == 0x601 || 0x700 <= c <= 0x7ff
  }

  /** Raise, stop, chill, panic and breakpoint: the actions that change the traced system. */
  predicate DestructiveCode(c: nat) {
    0x31 <= c <= 0x35
  }

  /** How a code is classified. */
  lemma KindMeaning(c: U32)
    ensures KindOf(c).Some? <==> KnownCode(c)
    ensures KindOf(c).Some? ==>
              var k := KindOf(c).value;
              && k.code == c && (k.Destructive? <==> DestructiveCode(c)) && (k.AggSentinel? <==> 0x700 <= c <= 0x7ff)
  {
  }

  /** An action row is refused exactly when it is short or its code is unknown; otherwise its fields are the row's. */
  lemma ActionParsesIff(raw: seq<Byte>)
    ensures |raw| < 32 ==> ParseAction(raw) == Err(TruncatedDif)
    ensures |raw| >= 32 ==>
              var c, r := U32At(raw, 8), ParseAction(raw);
              && (r.Ok? <==> KnownCode(c)) && (r.Err? ==> r.error == UnknownActionKind(c))
              && (r.Ok? ==> r.value.kind.code == c && (r.value.kind.Destructive? <==> DestructiveCode(c)))
              && (r.Ok? ==> r.value.difo == U32At(raw, 0) && r.value.arg == U64At(raw, 16))
              && (r.Ok? ==> r.value.uarg == U64At(raw, 24))
  {
    hide U32At, U64At, KindOf, KnownCode, DestructiveCode;
    if |raw| >= 32 {
      KindMeaning(U32At(raw, 8));
    }
  }

  /**
   * A `dof_actdesc_t` row of a known code is read field by field; the string table and the kind's upper half
   * are skipped.
   */
  lemma ActionParses(a: Action, strtab: U32, kindHigh: U32, padding: seq<Byte>)
    requires KnownCode(a.kind.code)
    ensures var r := ParseAction(Words(ActionWords(a, strtab, kindHigh)) + padding);
            && r.Ok? && r.value.kind.code == a.kind.code
            && (r.value.kind.Destructive? <==> DestructiveCode(a.kind.code))
            && r.value.difo == a.difo && r.value.arg == a.arg && r.value.uarg == a.uarg
  {
    hide U32At, U64At, Words, Offset, KnownCode, ParseAction, DestructiveCode;
    ActionOffsets(a, strtab, kindHigh);
    var ws := ActionWords(a, strtab, kindHigh);
    U32Word(ws, 0, 0, padding);
    U32Word(ws, 2, 8, padding);
    U64Word(ws, 4, 16, padding);
    U64Word(ws, 5, 24, padding);
    ActionParsesIff(Words(ws) + padding);
  }

  // ---------------------------------------------------------------- probe descriptions

  /** The table holds this string at this offset, up to a NUL or the table's end. */
  ghost predicate HasString(tab: seq<Byte>, off: nat, s: Text) {
    off + |s| <= |tab| && tab[off..off + |s|] == s && 0 !in s && (off + |s| < |tab| ==> tab[off + |s|] == 0)
  }

  lemma {:induction false} TerminatedUnique(b: seq<Byte>, s: Text)
    requires s <= b && 0 !in s && (|s| < |b| ==> b[|s|] == 0)
    ensures Terminated(b) == s
    decreases |s|
  {
    if |s| > 0 {
      assert s[0] in s && b[0] == s[0];
      assert forall x :: x in s[1..] ==> x in s;
      TerminatedUnique(b[1..], s[1..]);
      assert [s[0]] + s[1..] == s;
    }
  }

  lemma StringReads(tab: seq<Byte>, off: nat, s: Text, utf8: Text -> bool)
    requires HasString(tab, off, s) && utf8(s)
    ensures ReadCstr(tab, off, utf8) == s
  {
    hide Terminated;
    if off < |tab| {
      var b := tab[off..];
      assert b[..|s|] == tab[off..off + |s|];
      TerminatedUnique(b, s);
    }
  }

  /** A string reads as what the table holds there, or as empty if it is outside the table or not UTF-8. */
  lemma CstrMeaning(tab: seq<Byte>, off: nat, s: Text, utf8: Text -> bool)
    ensures ReadCstr(tab, off, utf8) == s <==>
            || (off < |tab| && HasString(tab, off, s) && utf8(s))
            || (s == [] && (off >= |tab| || exists bad :: HasString(tab, off, bad) && !utf8(bad)))
  {
    hide Terminated;
    if off < |tab| {
      var t := Terminated(tab[off..]);
      assert HasString(tab, off, t) by {
        assert tab[off..][..|t|] == tab[off..off + |t|];
      }
      forall x | HasString(tab, off, x)
        ensures x == t
      {
        assert tab[off..][..|x|] == tab[off..off + |x|];
        TerminatedUnique(tab[off..], x);
      }
    }
  }

  function ProbeWords(strtab: U32, provider: U32, mod: U32, func: U32, name: U32): seq<Word> {
    [Word(strtab, 4), Word(provider, 4), Word(mod, 4), Word(func, 4), Word(name, 4)]
  }

  lemma ProbeOffsets(strtab: U32, provider: U32, mod: U32, func: U32, name: U32)
    ensures var ws := ProbeWords(strtab, provider, mod, func, name);
            && Offset(ws, 0) == 0 && Offset(ws, 1) == 4 && Offset(ws, 2) == 8
            && Offset(ws, 3) == 12 && Offset(ws, 4) == 16 && |Words(ws)| == 20
  {
    hide Offset, FirstWords;
    var ws := ProbeWords(strtab, provider, mod, func, name);
    OffsetStep(ws, 0);
    OffsetStep(ws, 1);
    OffsetStep(ws, 2);
    OffsetStep(ws, 3);
    OffsetStep(ws, 4);
  }

  /** A `dof_probedesc_t` row and its string table resolve to the four strings they name, each in its own place. */
  lemma ProbeResolves(v: DofView, section: U32, rest: seq<Byte>, strtab: U32, offs: (U32, U32, U32, U32), t: Target,
      utf8: Text -> bool)
    requires SectionAt(v, section).Some? && SectionAt(v, section).value.kind == 4
    requires 20 <= SectionAt(v, section).value.entsize <= 20 + |rest|
    requires SectionBytes(v, section) == Ok(Words(ProbeWords(strtab, offs.0, offs.1, offs.2, offs.3)) + rest)
    requires SectionBytes(v, strtab).Ok?
    requires var tab := SectionBytes(v, strtab).value;
             && HasString(tab, offs.0, t.provider) && HasString(tab, offs.1, t.mod)
             && HasString(tab, offs.2, t.func) && HasString(tab, offs.3, t.name)
    requires utf8(t.provider) && utf8(t.mod) && utf8(t.func) && utf8(t.name)
    ensures Resolve(v, section, utf8) == Ok(Some(t))
  {
    hide U32At, Words, Offset, SectionAt, SectionBytes, HasString, ReadCstr;
    ProbeOffsets(strtab, offs.0, offs.1, offs.2, offs.3);
    var ws := ProbeWords(strtab, offs.0, offs.1, offs.2, offs.3);
    U32Word(ws, 0, 0, rest);
    U32Word(ws, 1, 4, rest);
    U32Word(ws, 2, 8, rest);
    U32Word(ws, 3, 12, rest);
    U32Word(ws, 4, 16, rest);
    var tab := SectionBytes(v, strtab).value;
    StringReads(tab, offs.0, t.provider, utf8);
    StringReads(tab, offs.1, t.mod, utf8);
    StringReads(tab, offs.2, t.func, utf8);
    StringReads(tab, offs.3, t.name, utf8);
  }

  /**
   * When a probe section resolves at all: it must exist, be of kind 4 and be readable; a row shorter than 16 bytes
   * resolves to no probe; otherwise its string table must be readable too.
   */
  lemma ResolveMeaning(v: DofView, section: U32, utf8: Text -> bool)
    ensures var r, h, p := Resolve(v, section, utf8), SectionAt(v, section), SectionBytes(v, section);
            && (h.None? || h.value.kind != 4 ==> r == Err(SectionIndexOutOfRange(section, v.count)))
            && (h.Some? && h.value.kind == 4 && p.Err? ==> r == Err(p.error))
            && (r == Ok(None) <==>
                  h.Some? && h.value.kind == 4 && p.Ok? && (h.value.entsize < 16 || h.value.entsize > |p.value|))
            && (h.Some? && h.value.kind == 4 && p.Ok? && 16 <= h.value.entsize <= |p.value| ==>
                  var tab := SectionBytes(v, U32At(p.value, 0));
                  && (r.Err? <==> tab.Err?) && (r.Err? ==> r.error == tab.error)
                  && (r.Ok? && r.value.Some? && h.value.entsize < 20 ==>
                        r.value.value.name == ReadCstr(tab.value, 0, utf8)))
  {
    hide SectionAt, SectionBytes, ReadCstr, U32At;
  }
}
