/** The rows of all ECB sections as one stream, and the actions of one ECB. */
module Ecb {
  import opened Bytes
  import opened Dof
  import Modular

  datatype EcbRow = EcbRow(probes: U32, pred: U32, actions: U32, first: U32, count: U32)

  function ParseEcb(raw: seq<Byte>): Result<EcbRow, LowerError> {
    if |raw| < 24 then Err(TruncatedDif)
    else Ok(EcbRow(U32At(raw, 0), U32At(raw, 4), U32At(raw, 8), U32At(raw, 16), U32At(raw, 20)))
  }

  // ---------------------------------------------------------------- the stream of rows

  /** Row `k` of a payload of rows of `e` bytes. */
  function Row(p: seq<Byte>, e: nat, k: nat): seq<Byte>
    requires (k + 1) * e <= |p|
  {
    assert k * e <= (k + 1) * e;
    p[k * e..(k + 1) * e]
  }

  function RowsFrom(p: seq<Byte>, at: nat, e: nat): seq<Result<EcbRow, LowerError>>
    requires e > 0
    decreases |p| - at
  {
    if at + e <= |p| then [ParseEcb(p[at..at + e])] + RowsFrom(p, at + e, e) else []
  }

  /** What one section contributes: nothing, one error, or its rows. */
  function OfSection(v: DofView, i: U32): seq<Result<EcbRow, LowerError>> {
    match SectionAt(v, i)
    case None => []
    case Some(h) =>
      if h.kind != ECB_DESC then []
      else
        match SectionBytes(v, i)
        case Err(e) => [Err(e)]
        case Ok(p) => if h.entsize == 0 then [] else RowsFrom(p, 0, h.entsize)
  }

  function Stream(v: DofView, from: nat): seq<Result<EcbRow, LowerError>>
    decreases v.count - from
  {
    if from >= v.count then [] else OfSection(v, from) + Stream(v, from + 1)
  }

  lemma {:induction false} RowsAt(p: seq<Byte>, j: nat, e: nat, k: nat)
    requires e > 0 && j * e <= |p| && (j + k + 1) * e <= |p|
    ensures k < |RowsFrom(p, j * e, e)| && RowsFrom(p, j * e, e)[k] == ParseEcb(Row(p, e, j + k))
    decreases k
  {
    hide ParseEcb;
    assert j * e + e == (j + 1) * e;
    Modular.MulMono(j + 1, j + k + 1, e);
    if k > 0 {
      RowsAt(p, j + 1, e, k - 1);
    }
  }

  lemma {:induction false} RowsLength(p: seq<Byte>, j: nat, e: nat, n: nat)
    requires e > 0 && |p| == n * e && j <= n
    ensures |RowsFrom(p, j * e, e)| == n - j
    decreases n - j
  {
    hide ParseEcb;
    assert j * e + e == (j + 1) * e;
    if j < n {
      Modular.MulMono(j + 1, n, e);
      RowsLength(p, j + 1, e, n);
    }
  }

  /** One item per row of `e` bytes, each the parse of its own row, and no bytes left over. */
  ghost predicate RowByRow(rows: seq<Result<EcbRow, LowerError>>, p: seq<Byte>, e: nat) {
    |rows| * e == |p| && forall k :: 0 <= k < |rows| ==> (k + 1) * e <= |p| && rows[k] == ParseEcb(Row(p, e, k))
  }

  lemma AllRows(p: seq<Byte>, e: nat)
    requires e > 0 && |p| % e == 0
    ensures RowByRow(RowsFrom(p, 0, e), p, e)
  {
    hide ParseEcb, Row, RowsFrom;
    var n := |p| / e;
    assert n * e == |p| && 0 * e == 0;
    RowsLength(p, 0, e, n);
    forall k | 0 <= k < n
      ensures (k + 1) * e <= |p| && RowsFrom(p, 0, e)[k] == ParseEcb(Row(p, e, k))
    {
      Modular.MulMono(k + 1, n, e);
      RowsAt(p, 0, e, k);
    }
  }

  /** A readable ECB section contributes exactly one item per row, in order, and nothing else. */
  lemma SectionRows(v: DofView, i: U32)
    requires Valid(v) && i < v.count && SectionAt(v, i).value.kind == 3 && SectionBytes(v, i).Ok?
    requires SectionAt(v, i).value.entsize != 0
    ensures RowByRow(OfSection(v, i), SectionBytes(v, i).value, SectionAt(v, i).value.entsize)
  {
    hide ParseEcb, SectionAt, SectionBytes, Row, RowsFrom, RowByRow;
    AllRows(SectionBytes(v, i).value, SectionAt(v, i).value.entsize);
  }

  /** Sections of other kinds, and ECB sections without an entry size, contribute nothing; a broken one, its error. */
  lemma OtherSections(v: DofView, i: U32)
    requires Valid(v) && i < v.count
    ensures var h, p := SectionAt(v, i).value, SectionBytes(v, i);
            && (h.kind != 3 || (p.Ok? && h.entsize == 0) ==> OfSection(v, i) == [])
            && (h.kind == 3 && p.Err? ==> OfSection(v, i) == [Err(p.error)])
  {
    hide SectionAt, SectionBytes, RowsFrom;
  }

  /** The stream is what the sections contribute, one after another. */
  lemma {:induction false} StreamSplits(v: DofView, i: nat)
    requires i <= v.count
    ensures Stream(v, 0) == Contributed(v, i) + Stream(v, i)
    decreases i
  {
    hide OfSection;
    if i > 0 {
      StreamSplits(v, i - 1);
      assert Contributed(v, i - 1) + (OfSection(v, i - 1) + Stream(v, i))
          == Contributed(v, i - 1) + OfSection(v, i - 1) + Stream(v, i);
    } else {
      assert [] + Stream(v, 0) == Stream(v, 0);
    }
  }

  function Contributed(v: DofView, n: nat): seq<Result<EcbRow, LowerError>>
    requires n <= v.count
  {
    if n == 0 then [] else Contributed(v, n - 1) + OfSection(v, n - 1)
  }

  /** What an iterator still has to yield: the rest of its open section, then the later sections. */
  ghost function RestOf(v: DofView, next: nat, open: Option<seq<Byte>>, cursor: nat,
      e: nat): seq<Result<EcbRow, LowerError>>
    requires open.Some? ==> e > 0
  {
    (if open.Some? then RowsFrom(open.value, cursor, e) else []) + Stream(v, next)
  }

  lemma RestRow(v: DofView, next: nat, p: seq<Byte>, cursor: nat, e: nat)
    requires e > 0
    ensures cursor + e <= |p| ==>
              RestOf(v, next, Some(p), cursor, e) ==
              [ParseEcb(p[cursor..cursor + e])] + RestOf(v, next, Some(p), cursor + e, e)
    ensures cursor + e > |p| ==> RestOf(v, next, Some(p), cursor, e) == RestOf(v, next, None, cursor, e)
  {
    hide ParseEcb, Stream;
  }

  lemma RestSection(v: DofView, i: nat, cursor: nat, e: nat)
    requires i < v.count
    ensures var items := OfSection(v, i);
            && (items == [] ==> RestOf(v, i, None, cursor, e) == RestOf(v, i + 1, None, cursor, e))
            && (|items| == 1 ==> RestOf(v, i, None, cursor, e) == [items[0]] + RestOf(v, i + 1, None, cursor, e))
    ensures forall p: seq<Byte>, w: nat {:trigger RestOf(v, i + 1, Some(p), 0, w)} ::
              w > 0 && OfSection(v, i) == RowsFrom(p, 0, w) ==>
                RestOf(v, i, None, cursor, e) == RestOf(v, i + 1, Some(p), 0, w)
  {
    hide OfSection, RowsFrom;
    assert Stream(v, i) == OfSection(v, i) + Stream(v, i + 1);
  }

  lemma RestEnd(v: DofView, next: nat, cursor: nat, e: nat)
    requires next >= v.count
    ensures RestOf(v, next, None, cursor, e) == []
  {
  }

  class EcbIter {
    const view: DofView
    var nextSection: nat
    var payload: Option<seq<Byte>>
    var cursor: nat
    var entsize: nat

    ghost predicate Ok()
      reads this
    {
      Valid(view) && nextSection <= view.count && (payload.Some? ==> entsize > 0)
    }

    ghost function Rest(): seq<Result<EcbRow, LowerError>>
      requires Ok()
      reads this
    {
      RestOf(view, nextSection, payload, cursor, entsize)
    }

    constructor (view: DofView)
      requires Valid(view)
      ensures this.view == view && Ok() && Rest() == Stream(view, 0)
    {
      this.view, nextSection, payload, cursor, entsize := view, 0, None, 0, 0;
      new;
      assert [] + Stream(view, 0) == Stream(view, 0);
    }

    /** Yields the head of what is left, over section boundaries, or nothing at the end. */
    method Next() returns (item: Option<Result<EcbRow, LowerError>>)
      requires Ok()
      modifies this
      ensures Ok()
      ensures item.None? ==> old(Rest()) == []
      ensures item.Some? ==> old(Rest()) == [item.value] + Rest()
    {
      hide ParseEcb, SectionAt, SectionBytes, RestOf, RowsFrom;
      while true
        invariant Ok() && Rest() == old(Rest())
        decreases view.count - nextSection, payload.Some?
      {
        if payload.Some? {
          RestRow(view, nextSection, payload.value, cursor, entsize);
          if cursor + entsize <= |payload.value| {
            var row := payload.value[cursor..cursor + entsize];
            cursor := cursor + entsize;
            return Some(ParseEcb(row));
          }
          payload := None;
        }
        while nextSection < view.count
          invariant Ok() && payload.None? && Rest() == old(Rest())
          decreases view.count - nextSection
        {
          var idx := nextSection;
          RestSection(view, idx, cursor, entsize);
          nextSection := idx + 1;
          var hdr := SectionAt(view, idx);
          if hdr.None? || hdr.value.kind != ECB_DESC {
            continue;
          }
          var bytes := SectionBytes(view, idx);
          if bytes.Err? {
            return Some(Err(bytes.error));
          }
          if hdr.value.entsize == 0 {
            continue;
          }
          payload, cursor, entsize := Some(bytes.value), 0, hdr.value.entsize;
          break;
        }
        if payload.None? {
          RestEnd(view, nextSection, cursor, entsize);
          return None;
        }
      }
    }
  }

  // ---------------------------------------------------------------- actions

  datatype ActionKind = Plain(code: U32) | Destructive(code: U32) | AggSentinel(code: U32)

  /** The action codes the parser knows. */
  function KindOf(v: U32): Option<ActionKind> {
    if v <= 7 || 0x20 <= v <= 0x22 || v == 0x30 || v == 0x600 || v == 0x601 then Some(Plain(v))
    else if 0x31 <= v <= 0x35 then Some(Destructive(v))
    else if 0x700 <= v <= 0x7ff then Some(AggSentinel(v))
    else None
  }

  datatype Action = Action(kind: ActionKind, difo: U32, arg: U64, uarg: U64)

  function ParseAction(raw: seq<Byte>): Result<Action, LowerError> {
    if |raw| < 32 then Err(TruncatedDif)
    else
      match KindOf(U32At(raw, 8))
      case None => Err(UnknownActionKind(U32At(raw, 8)))
      case Some(k) => Ok(Action(k, U32At(raw, 0), U64At(raw, 16), U64At(raw, 24)))
  }

  /** The operators an aggregation sentinel can name. */
  predicate IsAggKind(v: nat) {
    0x101 <= v <= 0x109
  }

  /** The operator code the driver extracts from a sentinel is never one of them. */
  lemma SentinelNamesNoOperator(kind: ActionKind)
    requires kind.AggSentinel? && KindOf(kind.code) == Some(kind)
    ensures !IsAggKind(kind.code / 256)
  {
  }

  /** The action table of an ECB and its row size. */
  function ActionTable(v: DofView, ecb: EcbRow): (r: Result<(seq<Byte>, nat), LowerError>)
    ensures r.Ok? ==> 0 < r.value.1 < 0x1_0000_0000 && |r.value.0| <= |v.blob|
    ensures var h, p := SectionAt(v, ecb.actions), SectionBytes(v, ecb.actions);
            && (r.Ok? <==> p.Ok? && h.value.entsize != 0) && (r.Ok? ==> r.value == (p.value, h.value.entsize))
            && (p.Err? ==> r == Err(p.error))
            && (p.Ok? && h.value.entsize == 0 ==> r == Err(SectionEntsizeMismatch(ecb.actions, 0, |p.value|)))
  {
    match SectionBytes(v, ecb.actions)
    case Err(e) => Err(e)
    case Ok(p) =>
      var h := SectionAt(v, ecb.actions).value;
      if h.entsize == 0 then Err(SectionEntsizeMismatch(ecb.actions, 0, h.size)) else Ok((p, h.entsize))
  }

  /** Row `first + i` of the action table. */
  function ActionAt(ecb: EcbRow, table: (seq<Byte>, nat), i: nat): Result<Action, LowerError> {
    var start := (ecb.first + i) * table.1;
    if start + table.1 > |table.0| then Err(SectionOutOfBounds(ecb.actions, start, table.1, |table.0|))
    else ParseAction(table.0[start..start + table.1])
  }

  /** A row that would reach past its section is an error that says where it would have been. */
  lemma RowOutside(ecb: EcbRow, table: (seq<Byte>, nat), i: nat)
    requires (ecb.first + i + 1) * table.1 > |table.0|
    ensures ActionAt(ecb, table, i)
         == Err(SectionOutOfBounds(ecb.actions, (ecb.first + i) * table.1, table.1, |table.0|))
  {
    assert (ecb.first + i + 1) * table.1 == (ecb.first + i) * table.1 + table.1;
  }

  /**
   * Neither the row multiplication nor the end of the row can pass 64 bits: row 0 is bounded by its 32-bit
   * fields, each later row by the row before it, which was inside the section.
   */
  lemma RowArithmeticFits(v: DofView, ecb: EcbRow, table: (seq<Byte>, nat), i: nat)
    requires Valid(v) && ActionTable(v, ecb) == Ok(table)
    requires i > 0 ==> (ecb.first + i - 1) * table.1 + table.1 <= |table.0|
    ensures (ecb.first + i) * table.1 + table.1 < 0x1_0000_0000_0000_0000
  {
    var e := table.1;
    if i == 0 {
      Product(ecb.first, e);
    } else {
      assert (ecb.first + i - 1) * e + e == (ecb.first + i) * e;
    }
  }

  lemma Product(a: U32, e: nat)
    requires e < 0x1_0000_0000
    ensures a * e + e < 0x1_0000_0000_0000_0000
  {
    assert a * e <= 0xffff_ffff * 0xffff_ffff by {
      Modular.MulMono(a, 0xffff_ffff, e);
      Modular.MulMono(e, 0xffff_ffff, 0xffff_ffff);
    }
  }
}
