/** A small blob on which a session aborts and leaves its probe attached. */
module SessionWitness {
  import opened Bytes
  import opened Dof
  import opened Ecb
  import opened DofFormat
  import opened SessionSpec
  import opened SessionVerdicts
  import SessionSafety

  const PROBES := Section(PROBE_DESC, 0, 0, 16, 128, 16)
  const ECBS := Section(ECB_DESC, 0, 0, 24, 144, 24)

  /** Probe section 0, no predicate, and one action in section 2, which does not exist. */
  const LOST := EcbRow(0, 0, 2, 0, 1)

  function Header(): seq<Byte> {
    Words(HeaderWords(0, 2, 64, 168, 168))
  }

  /** One probe row that is its own (empty) string table. */
  function ProbeRow(): (r: seq<Byte>)
    ensures |r| == 16
  {
    ToLe(0, 4) + ToLe(0, 12)
  }

  function LostRow(): seq<Byte> {
    Words(EcbWords(LOST, 0))
  }

  /** Header, a table of two sections, the probe row, the ECB row. */
  function Blob(): seq<Byte> {
    Header() + (Words(SectionWords(PROBES)) + (Words(SectionWords(ECBS)) + (ProbeRow() + LostRow())))
  }

  lemma Sizes()
    ensures |Header()| == 64 && |Words(SectionWords(PROBES))| == 32 && |Words(SectionWords(ECBS))| == 32
    ensures |LostRow()| == 24 && |Blob()| == 168
  {
    hide Words;
    HeaderOffsets(0, 2, 64, 168, 168);
    SectionOffsets(PROBES);
    SectionOffsets(ECBS);
    EcbOffsets(LOST, 0);
  }

  lemma Slices(h: seq<Byte>, s0: seq<Byte>, s1: seq<Byte>, p: seq<Byte>, e: seq<Byte>)
    requires |h| == 64 && |s0| == 32 && |s1| == 32 && |p| == 16 && |e| == 24
    ensures var b := h + (s0 + (s1 + (p + e)));
            b[64..128] == s0 + s1 && b[128..144] == p && b[144..168] == e
  {
    var b := h + (s0 + (s1 + (p + e)));
    assert b == h + (s0 + s1) + (p + e);
    assert b[128..144] == (p + e)[0..16] && b[144..168] == (p + e)[16..40];
  }

  function View(): DofView {
    DofView(Blob(), Words(SectionWords(PROBES)) + Words(SectionWords(ECBS)), 2)
  }

  lemma BlobParses()
    ensures ParseBlob(Blob()) == Ok(View()) && Valid(View())
  {
    hide Words, ProbeRow, ParseBlob;
    Sizes();
    var s0, s1 := Words(SectionWords(PROBES)), Words(SectionWords(ECBS));
    Slices(Header(), s0, s1, ProbeRow(), LostRow());
    HeaderParses(0, 2, 64, 168, 168, s0 + (s1 + (ProbeRow() + LostRow())));
  }

  lemma ViewSections()
    ensures SectionAt(View(), 0) == Some(PROBES) && SectionAt(View(), 1) == Some(ECBS) && SectionAt(View(), 2) == None
  {
    hide Words, ParseSection, Blob;
    Sizes();
    SectionParses(PROBES);
    SectionParses(ECBS);
    var s0, s1 := Words(SectionWords(PROBES)), Words(SectionWords(ECBS));
    assert (s0 + s1)[0..32] == s0 && (s0 + s1)[32..64] == s1;
  }

  lemma ViewPayloads()
    ensures SectionBytes(View(), 0) == Ok(ProbeRow()) && SectionBytes(View(), 1) == Ok(LostRow())
  {
    hide Words, SectionAt, ProbeRow;
    Sizes();
    ViewSections();
    Slices(Header(), Words(SectionWords(PROBES)), Words(SectionWords(ECBS)), ProbeRow(), LostRow());
  }

  lemma StreamOfTwo(v: DofView)
    requires v.count == 2
    ensures Stream(v, 0) == OfSection(v, 0) + OfSection(v, 1)
  {
    hide OfSection;
    assert Stream(v, 2) == [];
    assert Stream(v, 1) == OfSection(v, 1);
  }

  lemma SectionItems(v: DofView, rows: seq<Byte>)
    requires SectionAt(v, 0) == Some(PROBES) && SectionAt(v, 1) == Some(ECBS) && SectionBytes(v, 1) == Ok(rows)
    ensures OfSection(v, 0) == [] && OfSection(v, 1) == RowsFrom(rows, 0, 24)
  {
    hide SectionAt, SectionBytes, RowsFrom;
  }

  lemma StreamIsLost()
    ensures Stream(View(), 0) == [Ok(LOST)]
  {
    hide OfSection, View, RowsFrom, Stream, SectionAt, SectionBytes, LostRow, ProbeRow;
    ViewCount();
    ViewSections();
    ViewPayloads();
    StreamOfTwo(View());
    SectionItems(View(), LostRow());
    OneRow();
  }

  lemma OneRow()
    ensures RowsFrom(LostRow(), 0, 24) == [Ok(LOST)]
  {
    hide ParseEcb, LostRow, Blob;
    Sizes();
    LostParses();
    JustOne(LostRow());
  }

  lemma JustOne(p: seq<Byte>)
    requires |p| == 24
    ensures RowsFrom(p, 0, 24) == [ParseEcb(p)]
  {
    hide ParseEcb;
    assert p[0..24] == p && RowsFrom(p, 24, 24) == [];
  }

  lemma LostParses()
    ensures ParseEcb(LostRow()) == Ok(LOST)
  {
    hide ParseEcb, Words;
    EcbParses(LOST, 0, []);
    assert LostRow() + [] == LostRow();
  }

  lemma ViewCount()
    ensures View().count == 2
  {
  }

  lemma ZeroWord()
    ensures U32At(ProbeRow(), 0) == 0
  {
    hide ToLe, FromLe;
    assert ProbeRow()[0..4] == ToLe(0, 4);
    Widths();
    LeRoundTrip(0, 4);
  }

  lemma ProbeFound(utf8: Text -> bool)
    ensures Resolve(View(), 0, utf8).Ok? && Resolve(View(), 0, utf8).value.Some?
  {
    hide SectionAt, SectionBytes, View, ReadCstr, ProbeRow, U32At;
    ViewSections();
    ViewPayloads();
    ZeroWord();
  }

  lemma LostAborts(log: Log, id: U64, utf8: Text -> bool)
    ensures var o := DriveOne(View(), Willing(id), LOST, log, utf8);
            o.status.Err? && id in SessionSafety.Live(o.log)
  {
    hide DriveOne, View, SessionSafety.Live, Resolve, SectionAt;
    ProbeFound(utf8);
    ViewSections();
    assert ActionTable(View(), LOST).Err?;
    AbortsIff(View(), LOST, log, id, utf8);
  }

  /**
   * The blob is accepted and holds exactly that ECB. With an adapter that agrees to everything the session
   * fails without a verdict for it, and the probe it attached stays attached.
   */
  lemma SessionAborts(log: Log, id: U64, utf8: Text -> bool)
    ensures ParseBlob(Blob()) == Ok(View()) && Stream(View(), 0) == [Ok(LOST)]
    ensures var r := Drive(View(), Willing(id), log, utf8);
            r.result.Err? && r.statuses == [] && id in SessionSafety.Live(r.log)
  {
    hide DriveOne, View, Blob, ParseBlob, Stream, SessionSafety.Live;
    BlobParses();
    StreamIsLost();
    LostAborts(log + [Began], id, utf8);
  }
}
