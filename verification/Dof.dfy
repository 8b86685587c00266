/** The DOF section table: parsing it and reaching section payloads without leaving the blob. */
module Dof {
  import opened Bytes

  const MAGIC: seq<Byte> := [0x7f, 0x44, 0x4f, 0x46]
  const HDR_SIZE := 64
  const SEC_SIZE := 32
  const ECB_DESC := 3
  const PROBE_DESC := 4

  /** No slice is longer than this on a 64-bit target. */
  const MAX_LEN := 0x7fff_ffff_ffff_ffff

  datatype LowerError =
    | ShortHeader | BadMagic
    | SectionIndexOutOfRange(referenced: U32, sectionCount: U32)
    | SectionOutOfBounds(section: U32, offset: nat, size: nat, len: nat)
    | SectionEntsizeMismatch(mismatched: U32, entsize: U32, bytes: nat)
    | TruncatedDif | UnknownActionKind(kind: U32) | CapacityExceeded | AdapterFault

  datatype Section = Section(kind: U32, align: U32, flags: U32, entsize: U32, offset: U64, size: U64)

  datatype DofView = DofView(blob: seq<Byte>, table: seq<Byte>, count: U32)

  ghost predicate Valid(v: DofView) {
    |v.table| == v.count * SEC_SIZE && |v.blob| <= MAX_LEN
  }

  /** Checks the header and slices the section table; sections themselves are not looked at. */
  function ParseBlob(blob: seq<Byte>): (r: Result<DofView, LowerError>)
    ensures r.Ok? && |blob| <= MAX_LEN ==> Valid(r.value) && r.value.blob == blob
    ensures r.Ok? <==> |blob| >= 64 && blob[..4] == [0x7f, 0x44, 0x4f, 0x46] && U32At(blob, 24) == 32
                       && U64At(blob, 32) + U32At(blob, 28) * 32 <= |blob|
    ensures r.Ok? ==> r.value.count == U32At(blob, 28)
    ensures r.Ok? ==> r.value.table == blob[U64At(blob, 32)..][..U32At(blob, 28) * 32]
    ensures r == Err(BadMagic) <==> |blob| >= 64 && blob[..4] != [0x7f, 0x44, 0x4f, 0x46]
    ensures r.Err? && r != Err(BadMagic) ==> r == Err(ShortHeader)
  {
    if |blob| < HDR_SIZE then Err(ShortHeader)
    else if blob[..4] != MAGIC then Err(BadMagic)
    else if U32At(blob, 24) != SEC_SIZE then Err(ShortHeader)
    else
      var num, off := U32At(blob, 28), U64At(blob, 32);
      var end := off + num * SEC_SIZE;
      if end > |blob| then Err(ShortHeader)
      else
        assert blob[off..end] == blob[off..][..num * SEC_SIZE];
        Ok(DofView(blob, blob[off..end], num))
  }

  function ParseSection(raw: seq<Byte>): Section
    requires |raw| == SEC_SIZE
  {
    Section(U32At(raw, 0), U32At(raw, 4), U32At(raw, 8), U32At(raw, 12), U64At(raw, 16), U64At(raw, 24))
  }

  function SectionAt(v: DofView, i: U32): (s: Option<Section>)
    ensures Valid(v) ==> (s.Some? <==> i < v.count)
  {
    if i >= v.count || i * SEC_SIZE + SEC_SIZE > |v.table| then None
    else Some(ParseSection(v.table[i * SEC_SIZE..i * SEC_SIZE + SEC_SIZE]))
  }

  /** The section lies inside the blob. */
  ghost predicate InBlob(v: DofView, h: Section) {
    h.offset + h.size <= |v.blob|
  }

  /** The section is a whole number of entries, or has no entry size. */
  ghost predicate WholeEntries(h: Section) {
    h.entsize == 0 || h.size % h.entsize == 0
  }

  /**
   * A section's payload. It is there exactly when the section exists, lies inside the blob and is a whole number of
   * entries; each of the three failures has its own error.
   */
  function SectionBytes(v: DofView, i: U32): (r: Result<seq<Byte>, LowerError>)
    ensures var h := SectionAt(v, i);
            && (r.Ok? <==> h.Some? && InBlob(v, h.value) && WholeEntries(h.value))
            && (r.Ok? ==> r.value == v.blob[h.value.offset..h.value.offset + h.value.size])
            && (r == Err(SectionIndexOutOfRange(i, v.count)) <==> h.None?)
            && (h.Some? && !InBlob(v, h.value) ==>
                  r == Err(SectionOutOfBounds(i, h.value.offset, h.value.size, |v.blob|)))
            && (h.Some? && InBlob(v, h.value) && !WholeEntries(h.value) ==>
                  r == Err(SectionEntsizeMismatch(i, h.value.entsize, h.value.size)))
  {
    match SectionAt(v, i)
    case None => Err(SectionIndexOutOfRange(i, v.count))
    case Some(h) =>
      if h.offset + h.size > |v.blob| then Err(SectionOutOfBounds(i, h.offset, h.size, |v.blob|))
      else if h.entsize != 0 && h.size % h.entsize != 0 then Err(SectionEntsizeMismatch(i, h.entsize, h.size))
      else Ok(v.blob[h.offset..h.offset + h.size])
  }

  /** Every section header in declaration order. */
  function Headers(v: DofView, from: nat): (hs: seq<Section>)
    requires Valid(v) && from <= v.count
    ensures |hs| == v.count - from && forall k :: 0 <= k < |hs| ==> SectionAt(v, from + k) == Some(hs[k])
    decreases v.count - from
  {
    if from == v.count then [] else [SectionAt(v, from).value] + Headers(v, from + 1)
  }

  lemma HeadersStep(v: DofView, from: nat)
    requires Valid(v) && from <= v.count
    ensures from == v.count ==> Headers(v, from) == []
    ensures from < v.count ==> Headers(v, from) != [] && Headers(v, from)[0] == SectionAt(v, from).value
    ensures from < v.count ==> Headers(v, from)[1..] == Headers(v, from + 1)
  {
    hide SectionAt;
  }

  class SectionIter {
    const view: DofView
    var remaining: nat
    var index: nat

    ghost predicate Ok()
      reads this
    {
      Valid(view) && index + remaining == view.count
    }

    constructor (view: DofView)
      requires Valid(view)
      ensures this.view == view && Ok() && index == 0
    {
      this.view, this.remaining, this.index := view, view.count, 0;
    }

    /** Yields the headers one by one, each with its own index. */
    method Next() returns (item: Option<(nat, Section)>)
      requires Ok()
      modifies this
      ensures Ok()
      ensures var before := old(Headers(view, index));
              if before == [] then item.None? && unchanged(this)
              else item == Some((old(index), before[0])) && Headers(view, index) == before[1..]
    {
      hide SectionAt, Headers;
      HeadersStep(view, index);
      if remaining == 0 {
        return None;
      }
      item := Some((index, SectionAt(view, index).value));
      index, remaining := index + 1, remaining - 1;
    }
  }
}
