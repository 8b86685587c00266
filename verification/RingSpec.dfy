/**
 * The control-SHM byte ring as a value: how entries are laid out, how one record
 * is read back, and which queue of entries the bytes between the two positions
 * stand for.
 */
module RingSpec {
  import opened Bytes
  import Modular

  const HDR: nat := 16
  const KIND_PAD: U32 := 255

  datatype Entry = Entry(kind: U32, tag: U64, payload: seq<Byte>)

  datatype Header = Header(kind: U32, len: U32, tag: U64)

  /** Rounding up to the 16-byte entry alignment. */
  function AlignUp(n: nat): (r: nat)
    ensures r % 16 == 0 && n <= r < n + 16
  {
    (n + 15) / 16 * 16
  }

  function EntryTotal(len: nat): (r: nat)
    ensures r % 16 == 0 && 16 + len <= r < 32 + len
  {
    HDR + AlignUp(len)
  }

  /** The 16 header bytes; `len` is cut to 32 bits as the source's cast does. */
  function HeaderBytes(kind: U32, len: nat, tag: U64): (b: seq<Byte>)
    ensures |b| == HDR
  {
    ToLe(kind, 4) + ToLe(len, 4) + ToLe(tag, 8)
  }

  function ParseHeader(b: seq<Byte>): Header
    requires |b| == HDR
  {
    Header(U32At(b, 0), U32At(b, 4), U64At(b, 8))
  }

  lemma HeaderRoundTrip(kind: U32, len: U32, tag: U64)
    ensures ParseHeader(HeaderBytes(kind, len, tag)) == Header(kind, len, tag)
  {
    var b := HeaderBytes(kind, len, tag);
    Widths();
    assert b[0..4] == ToLe(kind, 4);
    assert b[4..8] == ToLe(len, 4);
    assert b[8..16] == ToLe(tag, 8);
    LeRoundTrip(kind, 4);
    LeRoundTrip(len, 4);
    LeRoundTrip(tag, 8);
  }

  function EntryBytes(e: Entry): (b: seq<Byte>)
    ensures |b| == HDR + |e.payload|
  {
    HeaderBytes(e.kind, |e.payload|, e.tag) + e.payload
  }

  /** An entry on the ring: kind, payload length and tag as little-endian words, then the payload. */
  lemma EntryLayout(e: Entry)
    ensures var b := EntryBytes(e);
            && |b| == 16 + |e.payload| && b[16..] == e.payload
            && U32At(b, 0) == e.kind && U32At(b, 4) == |e.payload| % 0x1_0000_0000 && U64At(b, 8) == e.tag
  {
    hide ToLe, FromLe;
    var b := EntryBytes(e);
    Widths();
    LeRoundTrip(e.kind, 4);
    LeCut(|e.payload|, 4);
    LeRoundTrip(e.tag, 8);
    assert b[0..4] == ToLe(e.kind, 4) && b[4..8] == ToLe(|e.payload|, 4) && b[8..16] == ToLe(e.tag, 8);
  }

  /** A pad on the ring: kind 255 and the length of what is skipped after it. */
  lemma PadLayout(n: U32)
    ensures var b := HeaderBytes(KIND_PAD, n, 0); U32At(b, 0) == 255 && U32At(b, 4) == n && U64At(b, 8) == 0
  {
    hide U32At, U64At, HeaderBytes;
    HeaderRoundTrip(255, n, 0);
  }

  /** Entries that survive the trip: not mistaken for a pad, and with a length that 32 bits can hold. */
  predicate Sendable(e: Entry) {
    e.kind != KIND_PAD && |e.payload| < 0x1_0000_0000
  }

  // ---------------------------------------------------------------- reading

  /** The byte a logical position stands for. */
  function Cell(mem: seq<Byte>, pos: nat): Byte
    requires 0 < |mem|
  {
    mem[pos % |mem|]
  }

  /** Both memories hold the same bytes at the positions in `[lo, hi)`. */
  ghost predicate Agree(m1: seq<Byte>, m2: seq<Byte>, lo: nat, hi: nat) {
    && 0 < |m1| == |m2|
    && forall p: nat :: lo <= p < hi ==> Cell(m1, p) == Cell(m2, p)
  }

  /** A record read by the consumer: how far it moves on, and the entry it delivers, if any. */
  datatype Step = Bad | Skip(advance: nat) | Take(entry: Entry, advance: nat)

  /** A pad contributes nothing to the queue. */
  function Entries(s: Step): seq<Entry> {
    if s.Take? then [s.entry] else []
  }

  /** What the consumer makes of the record at ring offset `h`. */
  function RecordAt(mem: seq<Byte>, h: nat): (s: Step)
    requires h < |mem|
    ensures !s.Bad? ==> HDR <= s.advance && h + s.advance <= |mem|
  {
    if h + HDR > |mem| then
      Bad
    else
      var hdr := ParseHeader(mem[h..h + HDR]);
      if hdr.kind == KIND_PAD then
        Skip(|mem| - h)
      else if h + EntryTotal(hdr.len) > |mem| then
        Bad
      else
        Take(Entry(hdr.kind, hdr.tag, mem[h + HDR..h + HDR + hdr.len]), EntryTotal(hdr.len))
  }

  /** What the consumer makes of the record at logical position `pos`. */
  function ReadAt(mem: seq<Byte>, pos: nat): (s: Step)
    requires 0 < |mem|
    ensures !s.Bad? ==> HDR <= s.advance
  {
    RecordAt(mem, pos % |mem|)
  }

  /** The queue that the bytes between the two positions stand for, if they stand for one. */
  function Decode(mem: seq<Byte>, cons: nat, prod: nat): (q: Option<seq<Entry>>)
    requires 0 < |mem| && cons <= prod
    decreases prod - cons
  {
    if cons == prod then
      Some([])
    else
      var s := ReadAt(mem, cons);
      if s.Bad? || cons + s.advance > prod then
        None
      else
        match Decode(mem, cons + s.advance, prod)
        case None => None
        case Some(q) => Some(Entries(s) + q)
  }

  lemma CellAt(mem: seq<Byte>, pos: nat, j: nat)
    requires 0 < |mem| && pos % |mem| + j < |mem|
    ensures Cell(mem, pos + j) == mem[pos % |mem| + j]
  {
    Modular.Shift(pos, j, |mem|);
  }

  lemma SliceAgree(m1: seq<Byte>, m2: seq<Byte>, pos: nat, hi: nat, k: nat, n: nat)
    requires Agree(m1, m2, pos, hi)
    requires pos % |m1| + k + n <= |m1| && pos + k + n <= hi
    ensures m1[pos % |m1| + k..pos % |m1| + k + n] == m2[pos % |m2| + k..pos % |m2| + k + n]
  {
    hide Cell;
    var h := pos % |m1|;
    var s1, s2 := m1[h + k..h + k + n], m2[h + k..h + k + n];
    forall i | 0 <= i < n
      ensures s1[i] == s2[i]
    {
      CellAt(m1, pos, k + i);
      CellAt(m2, pos, k + i);
    }
  }

  /** Reading a record touches only the positions it spans. */
  lemma RecordFrame(m1: seq<Byte>, m2: seq<Byte>, pos: nat, hi: nat)
    requires Agree(m1, m2, pos, hi)
    requires var s := ReadAt(m1, pos); !s.Bad? && pos + s.advance <= hi
    ensures ReadAt(m2, pos) == ReadAt(m1, pos)
  {
    SliceAgree(m1, m2, pos, hi, 0, HDR);
    var s := ReadAt(m1, pos);
    if s.Take? {
      SliceAgree(m1, m2, pos, hi, HDR, |s.entry.payload|);
    }
  }

  /** The queue depends only on the bytes between the two positions. */
  lemma {:induction false} DecodeFrame(m1: seq<Byte>, m2: seq<Byte>, cons: nat, prod: nat)
    requires 0 < |m1| && cons <= prod
    requires Agree(m1, m2, cons, prod) && Decode(m1, cons, prod).Some?
    ensures Decode(m2, cons, prod) == Decode(m1, cons, prod)
    decreases prod - cons
  {
    hide ReadAt, Cell, Entries;
    if cons < prod {
      RecordFrame(m1, m2, cons, prod);
      DecodeFrame(m1, m2, cons + ReadAt(m1, cons).advance, prod);
    }
  }

  /** Queues of adjacent stretches are concatenated. */
  lemma {:induction false} DecodeConcat(mem: seq<Byte>, a: nat, b: nat, c: nat)
    requires 0 < |mem| && a <= b <= c
    requires Decode(mem, a, b).Some? && Decode(mem, b, c).Some?
    ensures Decode(mem, a, c) == Some(Decode(mem, a, b).value + Decode(mem, b, c).value)
    decreases b - a
  {
    hide ReadAt, Entries;
    if a < b {
      var s := ReadAt(mem, a);
      DecodeConcat(mem, a + s.advance, b, c);
      var q, r := Decode(mem, a + s.advance, b).value, Decode(mem, b, c).value;
      assert Entries(s) + (q + r) == (Entries(s) + q) + r;
    } else {
      assert [] + Decode(mem, b, c).value == Decode(mem, b, c).value;
    }
  }

  // ---------------------------------------------------------------- writing

  /** The producer's decision for an entry of `total` bytes, from the positions it loaded. */
  datatype Placement =
    | TooLarge
    | FullWithPad(free: nat, need: nat, pad: nat)
    | Full(free: nat, need: nat)
    | Direct(head: nat)
    | Padded(head: nat, pad: nat)
  {
    predicate Accepted() {
      Direct? || Padded?
    }
  }

  function Place(len: nat, prod: nat, cons: nat, total: nat): (p: Placement)
    requires 0 < len && cons <= prod && 0 < total
    ensures p.Direct? ==> p.head == prod % len && p.head + total <= len && prod + total <= cons + len
    ensures p.Padded? ==>
              && p.head == prod % len && p.head + p.pad == len && p.pad < total <= len
              && prod + p.pad + total <= cons + len
  {
    if total > len then
      TooLarge
    else
      var used := prod - cons;
      var free := if used <= len then len - used else 0;
      var head := prod % len;
      var tail := len - head;
      if total > tail then
        if tail + total > free then FullWithPad(free, tail + total, tail) else Padded(head, tail)
      else
        if total > free then Full(free, total) else Direct(head)
  }

  /**
   * An entry of `total` bytes fits: in one piece behind the producer position, or, if the ring's end is in the way,
   * at the start of the next lap, without reaching the consumer position one lap on.
   */
  predicate HasRoom(len: nat, prod: nat, cons: nat, total: nat)
    requires 0 < len
  {
    && total <= len
    && prod + (if prod % len + total <= len then 0 else len - prod % len) + total <= cons + len
  }

  /** What a refusal reports: an entry no ring of this size can hold, or the free bytes and what was needed. */
  predicate RefusedFor(p: Placement, len: nat, prod: nat, cons: nat, total: nat)
    requires 0 < len && cons <= prod
  {
    var free, tail := if prod - cons <= len then len - (prod - cons) else 0, len - prod % len;
    if total > len then p == TooLarge
    else if total > tail then p == FullWithPad(free, tail + total, tail)
    else p == Full(free, total)
  }

  /** A push is accepted exactly when its entry fits; otherwise the refusal says by how much it does not. */
  lemma PlacedIffRoom(len: nat, prod: nat, cons: nat, total: nat)
    requires 0 < len && cons <= prod && 0 < total
    ensures var p := Place(len, prod, cons, total);
            && (p.Accepted() <==> HasRoom(len, prod, cons, total))
            && (!p.Accepted() ==> RefusedFor(p, len, prod, cons, total))
  {
  }

  function Advance(p: Placement, total: nat): nat
    requires p.Accepted()
  {
    if p.Padded? then p.pad + total else total
  }

  /** The accepted placement stays inside a ring of `len` bytes, with room for the pad's own header. */
  predicate Inside(p: Placement, len: nat, e: Entry) {
    if p.Padded? then
      HDR <= p.pad && p.head + p.pad == len && HDR + |e.payload| <= len
    else
      p.Direct? && p.head + HDR + |e.payload| <= len
  }

  /** The ring bytes after the producer's stores: the pad header, if any, then the entry. */
  function Written(mem: seq<Byte>, p: Placement, e: Entry): (m: seq<Byte>)
    requires Inside(p, |mem|, e)
    ensures |m| == |mem|
  {
    if p.Padded? then
      Store(Store(mem, p.head, HeaderBytes(KIND_PAD, p.pad - HDR, 0)), 0, EntryBytes(e))
    else
      Store(mem, p.head, EntryBytes(e))
  }

  /** Bytes stored at positions past `hi` and less than one lap past `lo` leave `[lo, hi)` alone. */
  lemma StoreKeeps(mem: seq<Byte>, pos: nat, bs: seq<Byte>, lo: nat, hi: nat)
    requires 0 < |mem| && pos % |mem| + |bs| <= |mem|
    requires lo <= hi <= pos && pos + |bs| <= lo + |mem|
    ensures Agree(mem, Store(mem, pos % |mem|, bs), lo, hi)
  {
    var h := pos % |mem|;
    var m := Store(mem, h, bs);
    forall p: nat | lo <= p < hi
      ensures Cell(mem, p) == Cell(m, p)
    {
      if h <= p % |mem| < h + |bs| {
        var j := p % |mem| - h;
        Modular.Shift(pos, j, |mem|);
        Modular.Distinct(p, pos + j, |mem|);
      }
    }
  }

  lemma ReadEntry(mem: seq<Byte>, h: nat, e: Entry)
    requires Sendable(e) && h + EntryTotal(|e.payload|) <= |mem|
    requires mem[h..h + HDR + |e.payload|] == EntryBytes(e)
    ensures RecordAt(mem, h) == Take(e, EntryTotal(|e.payload|))
  {
    var b := mem[h..h + HDR + |e.payload|];
    assert mem[h..h + HDR] == b[..HDR] == HeaderBytes(e.kind, |e.payload|, e.tag);
    assert mem[h + HDR..h + HDR + |e.payload|] == b[HDR..] == e.payload;
    HeaderRoundTrip(e.kind, |e.payload|, e.tag);
  }

  lemma ReadPad(mem: seq<Byte>, h: nat, n: nat)
    requires h + HDR <= |mem|
    requires mem[h..h + HDR] == HeaderBytes(KIND_PAD, n, 0)
    ensures RecordAt(mem, h) == Skip(|mem| - h)
  {
    var b := HeaderBytes(KIND_PAD, n, 0);
    assert b[0..4] == ToLe(KIND_PAD, 4);
    Widths();
    LeRoundTrip(KIND_PAD, 4);
  }

  /** The entry's record, after the pad record if there is one, is what the bytes from `prod` on read as. */
  ghost predicate Laid(mem: seq<Byte>, prod: nat, p: Placement, e: Entry)
    requires 0 < |mem| && p.Accepted()
  {
    var total := EntryTotal(|e.payload|);
    if p.Padded? then
      ReadAt(mem, prod) == Skip(p.pad) && ReadAt(mem, prod + p.pad) == Take(e, total)
    else
      ReadAt(mem, prod) == Take(e, total)
  }

  lemma DecodeOne(mem: seq<Byte>, pos: nat)
    requires 0 < |mem| && !ReadAt(mem, pos).Bad?
    ensures var s := ReadAt(mem, pos); Decode(mem, pos, pos + s.advance) == Some(Entries(s))
  {
    hide ReadAt;
    var s := ReadAt(mem, pos);
    assert Decode(mem, pos + s.advance, pos + s.advance) == Some([]);
    assert Entries(s) + [] == Entries(s);
  }

  /** Moving the producer position over a laid entry appends exactly that entry to the queue. */
  lemma PublishAppends(mem: seq<Byte>, cons: nat, prod: nat, p: Placement, e: Entry)
    requires 0 < |mem| && cons <= prod && Decode(mem, cons, prod).Some?
    requires p.Accepted() && Laid(mem, prod, p, e)
    ensures var next := prod + Advance(p, EntryTotal(|e.payload|));
            Decode(mem, cons, next) == Some(Decode(mem, cons, prod).value + [e])
  {
    hide ReadAt;
    var total := EntryTotal(|e.payload|);
    DecodeOne(mem, prod);
    if p.Padded? {
      DecodeOne(mem, prod + p.pad);
      DecodeConcat(mem, prod, prod + p.pad, prod + p.pad + total);
      assert [] + [e] == [e];
    }
    assert Decode(mem, prod, prod + Advance(p, total)) == Some([e]);
    DecodeConcat(mem, cons, prod, prod + Advance(p, total));
  }
}
