/** Exactly when the walk over a data ring reads a flag word outside the mapping. */
module DataRingEdge {
  import opened Bytes
  import opened DataRing
  import Modular

  /** On a ring that is not wholly mapped the walk looks once: outside exactly when that flag word is. */
  lemma UncoveredOutsideIff(m: Mapping, pos: U64, end: U64, limit: nat)
    requires 0 < m.len && !Covered(m) && pos != end && limit > 0
    ensures Walk(m, pos, end, limit).outside <==> m.off + pos % m.len + 8 > |m.region|
    ensures Walk(m, pos, end, limit).records == []
  {
    hide U32At, Next;
  }

  /** A position that is no multiple of eight, four bytes before the end of the ring and of the mapping. */
  lemma UnalignedOutside(region: seq<Byte>)
    requires |region| == 16
    ensures Between(Mapping(region, 0, 16), 12, 16, 1) == Walked([], true)
  {
  }

  /** A mapping four bytes shorter than the ring it is said to hold. */
  lemma ShortMappingOutside(region: seq<Byte>)
    requires |region| == 12
    ensures Between(Mapping(region, 0, 16), 8, 16, 1) == Walked([], true)
  {
  }

  // ---------------------------------------------------------------- contents that lead to the edge

  /** Published records, one every eight bytes from ring offset `r` on, the `i`-th announcing `sizes(i)` bytes. */
  function Lattice(n: nat, off: nat, r: nat, sizes: nat -> Byte): (region: seq<Byte>)
    ensures |region| == n
  {
    seq<Byte>(n, k => LatticeByte(k - off - r, sizes))
  }

  function LatticeByte(q: int, sizes: nat -> Byte): Byte {
    if q % 8 == 4 then 1 else if q >= 0 && q % 8 == 0 then sizes(q / 8) else 0
  }

  lemma LatticeByteAt(i: nat, k: nat, sizes: nat -> Byte)
    requires k < 8
    ensures LatticeByte(8 * i + k, sizes) == if k == 4 then 1 else if k == 0 then sizes(i) else 0
  {
    Modular.Unique(8 * i + k, i, k, 8);
  }

  lemma LatticeHeader(n: nat, off: nat, r: nat, sizes: nat -> Byte, i: nat)
    requires off + r + 8 * i + 8 <= n
    ensures var at, region := off + r + 8 * i, Lattice(n, off, r, sizes);
            region[at..at + 4] == [sizes(i), 0, 0, 0] && region[at + 4..at + 8] == [1, 0, 0, 0]
  {
    hide LatticeByte;
    var at, region := off + r + 8 * i, Lattice(n, off, r, sizes);
    var size, flags := region[at..at + 4], region[at + 4..at + 8];
    forall k | 0 <= k < 4
      ensures size[k] == (if k == 0 then sizes(i) else 0) && flags[k] == if k == 0 then 1 else 0
    {
      LatticeByteAt(i, k, sizes);
      LatticeByteAt(i, 4 + k, sizes);
    }
  }

  /** The mapping holds such a lattice for positions like `pos`. */
  ghost predicate Latticed(m: Mapping, r: nat, sizes: nat -> Byte) {
    Covered(m) && m.len % 8 == 0 && m.len < TWO64 && r < 8 && m.region == Lattice(|m.region|, m.off, r, sizes)
  }

  /** Position `pos` is the `i`-th place of the lattice. */
  ghost predicate AtPlace(m: Mapping, r: nat, pos: nat, i: nat) {
    0 < m.len && pos % m.len == r + 8 * i
  }

  lemma PlaceLooks(m: Mapping, r: nat, sizes: nat -> Byte, pos: U64, i: nat)
    requires Latticed(m, r, sizes) && AtPlace(m, r, pos, i) && r + 8 * i + 8 <= m.len
    ensures Look(m, pos).Got? && Look(m, pos).record.size == sizes(i)
  {
    hide FromLe, Lattice, DecodeHead;
    var rel := pos % m.len;
    LatticeHeader(|m.region|, m.off, r, sizes, i);
    ReadsStraight(m, rel, 8);
    var hdr := ReadRing(m, rel, 8).value;
    SliceInside(m.region, m.off + rel, hdr, 0, 4);
    assert hdr[0..4] == [sizes(i), 0, 0, 0];
    SmallWord(sizes(i));
    SmallWord(1);
  }

  lemma SmallAdvance(size: nat)
    requires size % 8 == 0
    ensures Advance(size) == 8 + size
  {
  }

  lemma RecordStep(m: Mapping, pos: U64, end: U64, size: U32, limit: nat)
    requires 0 < m.len && Look(m, pos).Got? && Look(m, pos).record.size == size && size % 8 == 0 && 8 + size <= m.len
    requires pos != end && (pos + 8 + size) % TWO64 <= end && limit > 0
    ensures Walk(m, pos, end, limit).outside == Walk(m, (pos + 8 + size) % TWO64, end, limit - 1).outside
  {
    hide Look, Advance;
    SmallAdvance(size);
  }

  lemma EdgeIsOutside(m: Mapping, pos: U64, end: U64)
    requires 0 < m.len && m.off + pos % m.len + 8 > |m.region| && pos != end
    ensures Walk(m, pos, end, 1).outside
  {
    hide ReadRing, U32At;
  }

  /** Whether the walk from `pos` towards `end` leaves the mapping, with as many records as it takes. */
  ghost predicate Leaves(m: Mapping, pos: U64, end: U64)
    requires 0 < m.len
  {
    exists limit: nat :: Walk(m, pos, end, limit).outside
  }

  /** One record on: within the lap, or over its end, or over the top of the 64-bit space. */
  lemma StepLeaves(m: Mapping, r: nat, sizes: nat -> Byte, pos: U64, i: nat, end: U64)
    requires Latticed(m, r, sizes) && AtPlace(m, r, pos, i) && r + 8 * i + 8 <= m.len
    requires sizes(i) % 8 == 0 && 8 + sizes(i) <= m.len && pos != end && (pos + 8 + sizes(i)) % TWO64 <= end
    requires Leaves(m, (pos + 8 + sizes(i)) % TWO64, end)
    ensures Leaves(m, pos, end)
  {
    hide Walk, Look, Latticed;
    LatticedMeaning(m, r, sizes);
    PlaceLooks(m, r, sizes, pos, i);
    var limit: nat :| Walk(m, (pos + 8 + sizes(i)) % TWO64, end, limit).outside;
    RecordStep(m, pos, end, sizes(i), limit + 1);
    assert Walk(m, pos, end, limit + 1).outside;
  }

  lemma LatticedMeaning(m: Mapping, r: nat, sizes: nat -> Byte)
    requires Latticed(m, r, sizes)
    ensures 0 < m.len < TWO64 && m.len % 8 == 0 && r < 8 && 8 <= m.len
  {
  }

  lemma EdgeLeaves(m: Mapping, r: nat, sizes: nat -> Byte, pos: U64, end: U64)
    requires Latticed(m, r, sizes) && AtPlace(m, r, pos, m.len / 8 - 1) && pos != end
    requires m.off + m.len + r > |m.region|
    ensures Leaves(m, pos, end)
  {
    EdgeIsOutside(m, pos, end);
  }

  lemma SmallMod(x: nat, n: nat)
    requires x < n
    ensures x % n == x
  {
    Modular.Unique(x, 0, x, n);
  }

  /** One record of `8 * w` bytes on, inside the lap and below the top. */
  lemma StepUp(m: Mapping, r: nat, sizes: nat -> Byte, pos: U64, i: nat, w: nat, end: U64)
    requires Latticed(m, r, sizes) && AtPlace(m, r, pos, i)
    requires 1 <= w && i + w < m.len / 8 && sizes(i) == 8 * (w - 1)
    requires pos + 8 * w < TWO64 && pos + 8 * w <= end
    ensures AtPlace(m, r, pos + 8 * w, i + w)
    ensures Leaves(m, pos + 8 * w, end) ==> Leaves(m, pos, end)
  {
    hide Latticed, Leaves, Lattice;
    LatticedMeaning(m, r, sizes);
    Modular.Shift(pos, 8 * w, m.len);
    SmallMod(pos + 8 * w, TWO64);
    if Leaves(m, pos + 8 * w, end) {
      StepLeaves(m, r, sizes, pos, i, end);
    }
  }

  /** From place `i` on, every `w`-th record before place `j` leads to the next one of them. */
  ghost predicate Strides(sizes: nat -> Byte, i: nat, j: nat, w: nat)
    decreases j - i
  {
    i == j || (i < j && 1 <= w && sizes(i) == 8 * (w - 1) && i + w <= j && Strides(sizes, i + w, j, w))
  }

  /** Records of the same size from place `i` to place `j`, before the ring's end and before the top. */
  lemma {:induction false} Climb(m: Mapping, r: nat, sizes: nat -> Byte, pos: U64, i: nat, j: nat, w: nat, end: U64)
    requires Latticed(m, r, sizes) && AtPlace(m, r, pos, i) && i <= j < m.len / 8 && Strides(sizes, i, j, w)
    requires pos + 8 * (j - i) < TWO64 && pos + 8 * (j - i) <= end
    ensures AtPlace(m, r, pos + 8 * (j - i), j)
    ensures Leaves(m, pos + 8 * (j - i), end) ==> Leaves(m, pos, end)
    decreases j - i
  {
    hide Latticed, Leaves, AtPlace;
    LatticedMeaning(m, r, sizes);
    if i < j {
      StepUp(m, r, sizes, pos, i, w, end);
      Climb(m, r, sizes, pos + 8 * w, i + w, j, w, end);
    }
  }

  /** One record over the end of the lap and over the top of the 64-bit space. */
  lemma StepOverTop(m: Mapping, r: nat, sizes: nat -> Byte, pos: U64, i: nat, w: nat, j: nat, end: U64)
    requires Latticed(m, r, sizes) && AtPlace(m, r, pos, i) && i < m.len / 8 - 1
    requires 1 <= w <= m.len / 8 && sizes(i) == 8 * (w - 1)
    requires pos + 8 * w == TWO64 + r + 8 * j && j < m.len / 8 && pos != end && r + 8 * j <= end
    ensures AtPlace(m, r, r + 8 * j, j)
    ensures Leaves(m, r + 8 * j, end) ==> Leaves(m, pos, end)
  {
    hide Latticed, Leaves, Lattice;
    LatticedMeaning(m, r, sizes);
    Modular.Unique(pos + 8 * w, 1, r + 8 * j, TWO64);
    SmallMod(r + 8 * j, m.len);
    if Leaves(m, r + 8 * j, end) {
      StepLeaves(m, r, sizes, pos, i, end);
    }
  }

  lemma {:induction false} Ones(sizes: nat -> Byte, i: nat, j: nat)
    requires i <= j && forall k: nat :: i <= k < j ==> sizes(k) == 0
    ensures Strides(sizes, i, j, 1)
    decreases j - i
  {
    if i < j {
      Ones(sizes, i + 1, j);
    }
  }

  lemma {:induction false} Twos(sizes: nat -> Byte, i: nat, j: nat)
    requires i <= j && (j - i) % 2 == 0 && forall k: nat :: i <= k < j && (k - i) % 2 == 0 ==> sizes(k) == 8
    ensures Strides(sizes, i, j, 2)
    decreases j - i
  {
    if i < j {
      Twos(sizes, i + 2, j);
    }
  }

  // ---------------------------------------------------------------- from every position to the edge

  /** The last place, where the flag word reaches past the mapping. */
  ghost function Edge(m: Mapping): int {
    m.len / 8 - 1
  }

  /** Positions of this kind start on a lattice whose last place reaches past the mapping. */
  ghost predicate Short(m: Mapping, r: nat, sizes: nat -> Byte) {
    Latticed(m, r, sizes) && m.off + m.len + r > |m.region|
  }

  /** From place `i` by strides of `w` to the edge. */
  lemma ToEdge(m: Mapping, r: nat, sizes: nat -> Byte, pos: U64, i: nat, w: nat, end: U64)
    requires Short(m, r, sizes) && AtPlace(m, r, pos, i) && i <= Edge(m) && Strides(sizes, i, Edge(m), w)
    requires pos + 8 * (Edge(m) - i) < end
    ensures Leaves(m, pos, end)
  {
    hide Latticed, Leaves, AtPlace, Strides;
    LatticedMeaning(m, r, sizes);
    Climb(m, r, sizes, pos, i, Edge(m), w, end);
    EdgeLeaves(m, r, sizes, pos + 8 * (Edge(m) - i), end);
  }

  /** From the first lap's place `j` by strides of `w` to the edge. */
  lemma FirstLap(m: Mapping, r: nat, sizes: nat -> Byte, j: nat, w: nat, end: U64)
    requires Short(m, r, sizes) && j <= Edge(m) && Strides(sizes, j, Edge(m), w) && end >= TWO64 - 2
    ensures r + 8 * j < TWO64 && Leaves(m, r + 8 * j, end)
  {
    hide Latticed, Leaves, Strides;
    LatticedMeaning(m, r, sizes);
    SmallMod(r + 8 * j, m.len);
    ToEdge(m, r, sizes, r + 8 * j, j, w, end);
  }

  /** Empty records: up to the top, over it, and up the first lap. */
  lemma OverTop(m: Mapping, r: nat, sizes: nat -> Byte, pos: U64, i: nat, tp: nat, end: U64)
    requires Short(m, r, sizes) && AtPlace(m, r, pos, i) && (forall k: nat :: sizes(k) == 0)
    requires pos + 8 * tp == TWO64 - 8 + r && i + tp < Edge(m)
    requires (r != 7 && end == TWO64 - 1) || (r == 7 && tp == 0 && end == TWO64 - 2)
    ensures Leaves(m, pos, end)
  {
    hide Latticed, Leaves, Strides, AtPlace;
    LatticedMeaning(m, r, sizes);
    Ones(sizes, 0, Edge(m));
    Ones(sizes, i, i + tp);
    FirstLap(m, r, sizes, 0, 1, end);
    if tp == 0 {
      StepOverTop(m, r, sizes, pos, i, 1, 0, end);
    } else {
      Climb(m, r, sizes, pos, i, i + tp, 1, end);
      StepOverTop(m, r, sizes, pos + 8 * tp, i + tp, 1, 0, end);
    }
  }

  /** The last position is `2^64 - 1`, where no walk goes on: the record before it is made long enough to skip it. */
  lemma SkipTop(m: Mapping, sizes: nat -> Byte, pos: U64, i: nat, tp: nat, end: U64)
    requires Short(m, 7, sizes) && AtPlace(m, 7, pos, i) && 0 < tp && end == TWO64 - 2
    requires pos + 8 * tp == TWO64 - 1 && i + tp < Edge(m)
    requires forall k: nat :: sizes(k) == if k == i + tp - 1 then 8 else 0
    ensures Leaves(m, pos, end)
  {
    hide Latticed, Leaves, Strides, AtPlace;
    LatticedMeaning(m, 7, sizes);
    var j := i + tp - 1;
    SkipFirstLap(m, sizes, j, end);
    Ones(sizes, i, j);
    Climb(m, 7, sizes, pos, i, j, 1, end);
    StepOverTop(m, 7, sizes, pos + 8 * (tp - 1), j, 2, 0, end);
  }

  lemma SkipFirstLap(m: Mapping, sizes: nat -> Byte, j: nat, end: U64)
    requires Short(m, 7, sizes) && j + 2 <= Edge(m) && end == TWO64 - 2
    requires forall k: nat :: sizes(k) == if k == j then 8 else 0
    ensures Leaves(m, 7, end)
  {
    hide Latticed, Leaves, Strides;
    LatticedMeaning(m, 7, sizes);
    SmallMod(7, m.len);
    Ones(sizes, 0, j);
    Ones(sizes, j + 2, Edge(m));
    FirstLap(m, 7, sizes, j + 2, 1, end);
    Climb(m, 7, sizes, 7, 0, j, 1, end);
    StepUp(m, 7, sizes, 7 + 8 * j, j, 2, end);
  }

  /**
   * The edge of the last lap is at `2^64 - 1` itself, so only a lap after the top can reach it. The first lap keeps to
   * every second place, changes over to the others when it crosses the top, and so does not meet itself again.
   */
  lemma ChangeOver(m: Mapping, sizes: nat -> Byte, pos: U64, i: nat, tp: nat, end: U64)
    requires Short(m, 7, sizes) && AtPlace(m, 7, pos, i) && 0 < tp && end == TWO64 - 2
    requires pos + 8 * tp == TWO64 - 1 && i + tp == Edge(m) && Edge(m) >= 3
    requires forall k: nat :: sizes(k) == CrossSize(i, tp, k)
    ensures Leaves(m, pos, end)
  {
    hide Latticed, Leaves, Strides, AtPlace;
    LatticedMeaning(m, 7, sizes);
    var last, y := LastPlace(i, tp), (i + 1) % 2;
    OtherPlaces(m, sizes, i, tp, end);
    Twos(sizes, i, last);
    Climb(m, 7, sizes, pos, i, last, 2, end);
    StepOverTop(m, 7, sizes, pos + 8 * (last - i), last, i + tp + 1 + y - last, y, end);
  }

  /** The last place before the edge that is a whole number of double steps from `i`. */
  function LastPlace(i: nat, tp: nat): nat
    requires 0 < tp
  {
    if tp % 2 == 0 then i + tp - 2 else i + tp - 1
  }

  function CrossSize(i: nat, tp: nat, k: nat): Byte
    requires 0 < tp
  {
    if k == LastPlace(i, tp) then 8 * (i + tp + (i + 1) % 2 - LastPlace(i, tp))
    else if tp % 2 == 0 && k == i + tp - 1 then 0
    else 8
  }

  lemma OtherPlaces(m: Mapping, sizes: nat -> Byte, i: nat, tp: nat, end: U64)
    requires Short(m, 7, sizes) && 0 < tp && i + tp == Edge(m) && Edge(m) >= 3 && end == TWO64 - 2
    requires forall k: nat :: sizes(k) == CrossSize(i, tp, k)
    ensures Leaves(m, 7 + 8 * ((i + 1) % 2), end)
  {
    hide Latticed, Leaves, Strides;
    LatticedMeaning(m, 7, sizes);
    var y, k := (i + 1) % 2, Edge(m);
    if tp % 2 == 1 {
      Twos(sizes, y, k);
      FirstLap(m, 7, sizes, y, 2, end);
    } else {
      Twos(sizes, y, k - 1);
      Ones(sizes, k - 1, k);
      FirstLap(m, 7, sizes, k - 1, 1, end);
      SmallMod(7 + 8 * y, m.len);
      Climb(m, 7, sizes, 7 + 8 * y, y, k - 1, 2, end);
    }
  }

  // ---------------------------------------------------------------- exactly when

  /** Whatever bytes are mapped, and wherever the walk is told to end, it reads no flag word outside. */
  ghost predicate NeverLeaves(m: Mapping, pos: U64)
    requires 0 < m.len
  {
    forall region: seq<Byte>, end: U64, limit: nat ::
      |region| == |m.region| ==> !Walk(m.(region := region), pos, end, limit).outside
  }

  lemma SomeLeave(m: Mapping, pos: U64, region: seq<Byte>, end: U64)
    requires 0 < m.len && |region| == |m.region| && Leaves(m.(region := region), pos, end)
    ensures !NeverLeaves(m, pos)
  {
    hide Walk;
    var limit: nat :| Walk(m.(region := region), pos, end, limit).outside;
  }

  /** On a ring of 16 bytes whose record at offset 7 takes the whole ring, the walk stays at offset 7. */
  lemma {:induction false} StaysAtSeven(m: Mapping, pos: U64, end: U64, limit: nat)
    requires Covered(m) && m.len == 16 && pos % 16 == 7
    requires Look(m, pos).Got? ==> Advance(Look(m, pos).record.size) >= 16
    ensures !Walk(m, pos, end, limit).outside
    decreases limit
  {
    hide ReadRing, U32At, Advance, DecodeHead;
    if pos != end && limit > 0 && Look(m, pos).Got? {
      var next := Next(16, pos, Look(m, pos).record.size, end);
      if next.Some? {
        Modular.Residue(pos + 16, TWO64, 16);
        StaysAtSeven(m, next.value, end, limit - 1);
      }
    }
  }

  /** On a ring of 16 bytes, from nine bytes before the top: the edge is the very last position, or out of reach. */
  lemma SixteenNeverLeaves(m: Mapping)
    requires Covered(m) && m.len == 16
    ensures NeverLeaves(m, TWO64 - 9)
  {
    hide Walk;
    var pos: U64 := TWO64 - 9;
    forall region: seq<Byte>, end: U64, limit: nat | |region| == |m.region|
      ensures !Walk(m.(region := region), pos, end, limit).outside
    {
      SixteenInside(m.(region := region), end, limit);
    }
  }

  lemma SixteenInside(m: Mapping, end: U64, limit: nat)
    requires Covered(m) && m.len == 16
    ensures !Walk(m, TWO64 - 9, end, limit).outside
  {
    hide ReadRing, U32At, Advance, DecodeHead;
    var pos: U64 := TWO64 - 9;
    assert pos % 16 == 7;
    if Look(m, pos).Got? && Advance(Look(m, pos).record.size) < 16 {
      assert Advance(Look(m, pos).record.size) == 8;
    } else {
      StaysAtSeven(m, pos, end, limit);
    }
  }

  /** Some contents lead from `pos` past the mapping. */
  lemma SomeContentsLeave(m: Mapping, pos: U64)
    requires Covered(m) && m.len % 8 == 0 && m.len < TWO64 && m.off + m.len + pos % 8 > |m.region|
    requires !(m.len == 16 && pos == TWO64 - 9)
    ensures !NeverLeaves(m, pos)
  {
    hide Leaves, NeverLeaves, Covered;
    var r, i, tp := Places(m, pos);
    if i + tp > Edge(m) || (i + tp == Edge(m) && r != 7) || i == Edge(m) {
      StraightLeaves(m, pos, r, i, tp);
    } else if i + tp < Edge(m) && (r != 7 || tp == 0) {
      OverTopLeaves(m, pos, r, i, tp);
    } else if i + tp < Edge(m) {
      SkipTopLeaves(m, pos, i, tp);
    } else {
      ChangeOverLeaves(m, pos, i, tp);
    }
  }

  /** Where `pos` is on the lattice, and how many places are left below the top. */
  lemma Places(m: Mapping, pos: U64) returns (r: nat, i: nat, tp: nat)
    requires Covered(m) && m.len % 8 == 0
    ensures r == pos % 8 && AtPlace(m, r, pos, i) && i <= Edge(m) && pos + 8 * tp == TWO64 - 8 + r
  {
    r := pos % 8;
    HeaderFits(m.len, pos);
    Modular.Residue(pos, m.len, 8);
    i := pos % m.len / 8;
    tp := (TWO64 - 8 + r - pos) / 8;
  }

  lemma Filled(m: Mapping, r: nat, sizes: nat -> Byte) returns (f: Mapping)
    requires Covered(m) && m.len % 8 == 0 && m.len < TWO64 && r < 8 && m.off + m.len + r > |m.region|
    ensures |f.region| == |m.region| && f == m.(region := f.region) && Short(f, r, sizes)
  {
    f := m.(region := Lattice(|m.region|, m.off, r, sizes));
  }

  lemma StraightLeaves(m: Mapping, pos: U64, r: nat, i: nat, tp: nat)
    requires Covered(m) && m.len % 8 == 0 && m.len < TWO64 && r < 8 && m.off + m.len + r > |m.region|
    requires AtPlace(m, r, pos, i) && i <= Edge(m) && pos + 8 * tp == TWO64 - 8 + r
    requires i + tp > Edge(m) || (i + tp == Edge(m) && r != 7) || i == Edge(m)
    ensures !NeverLeaves(m, pos)
  {
    hide Leaves, NeverLeaves, Latticed, Strides, Covered;
    var sizes: nat -> Byte := _ => 0;
    var f := Filled(m, r, sizes);
    if i == Edge(m) {
      var end: U64 := if pos == 0 then 1 else 0;
      EdgeLeaves(f, r, sizes, pos, end);
      SomeLeave(m, pos, f.region, end);
    } else {
      var end: U64 := if r == 7 then TWO64 - 2 else TWO64 - 1;
      Ones(sizes, i, Edge(m));
      ToEdge(f, r, sizes, pos, i, 1, end);
      SomeLeave(m, pos, f.region, end);
    }
  }

  lemma OverTopLeaves(m: Mapping, pos: U64, r: nat, i: nat, tp: nat)
    requires Covered(m) && m.len % 8 == 0 && m.len < TWO64 && r < 8 && m.off + m.len + r > |m.region|
    requires AtPlace(m, r, pos, i) && pos + 8 * tp == TWO64 - 8 + r && i + tp < Edge(m) && (r != 7 || tp == 0)
    ensures !NeverLeaves(m, pos)
  {
    hide Leaves, NeverLeaves, Latticed, Covered;
    var sizes: nat -> Byte := _ => 0;
    var f := Filled(m, r, sizes);
    var end: U64 := if r == 7 then TWO64 - 2 else TWO64 - 1;
    OverTop(f, r, sizes, pos, i, tp, end);
    SomeLeave(m, pos, f.region, end);
  }

  lemma SkipTopLeaves(m: Mapping, pos: U64, i: nat, tp: nat)
    requires Covered(m) && m.len % 8 == 0 && m.len < TWO64 && m.off + m.len + 7 > |m.region|
    requires AtPlace(m, 7, pos, i) && pos + 8 * tp == TWO64 - 1 && i + tp < Edge(m) && 0 < tp
    ensures !NeverLeaves(m, pos)
  {
    hide Leaves, NeverLeaves, Latticed, Covered;
    var sizes: nat -> Byte := k => if k == i + tp - 1 then 8 else 0;
    var f := Filled(m, 7, sizes);
    SkipTop(f, sizes, pos, i, tp, TWO64 - 2);
    SomeLeave(m, pos, f.region, TWO64 - 2);
  }

  lemma ChangeOverLeaves(m: Mapping, pos: U64, i: nat, tp: nat)
    requires Covered(m) && m.len % 8 == 0 && m.len < TWO64 && m.off + m.len + 7 > |m.region|
    requires AtPlace(m, 7, pos, i) && pos + 8 * tp == TWO64 - 1 && i + tp == Edge(m) && 0 < tp
    requires !(m.len == 16 && pos == TWO64 - 9)
    ensures !NeverLeaves(m, pos)
  {
    hide Leaves, NeverLeaves, Latticed, Covered, CrossSize;
    NotTwo(m, pos, i, tp);
    var sizes: nat -> Byte := k => CrossSize(i, tp, k);
    var f := Filled(m, 7, sizes);
    ChangeOver(f, sizes, pos, i, tp, TWO64 - 2);
    SomeLeave(m, pos, f.region, TWO64 - 2);
  }

  /** 24 does not divide 2^64. */
  lemma NotTwo(m: Mapping, pos: U64, i: nat, tp: nat)
    requires Covered(m) && m.len % 8 == 0 && AtPlace(m, 7, pos, i)
    requires pos + 8 * tp == TWO64 - 1 && i + tp == Edge(m) && 0 < tp && !(m.len == 16 && pos == TWO64 - 9)
    ensures Edge(m) >= 3
  {
    if m.len == 24 {
      assert false;
    }
  }

  /**
   * A mapped ring whose length is a multiple of eight is read inside the mapping, whatever it contains, exactly when
   * as many bytes after it are mapped as the position is off a multiple of eight. There is one exception: from nine
   * bytes below 2^64 a ring of 16 bytes is always read inside, because there the only way to the edge is barred.
   */
  lemma NeverLeavesIff(m: Mapping, pos: U64)
    requires Covered(m) && m.len % 8 == 0 && m.len < TWO64
    ensures NeverLeaves(m, pos) <==>
            m.off + m.len + pos % 8 <= |m.region| || (m.len == 16 && pos == TWO64 - 9)
  {
    if m.off + m.len + pos % 8 <= |m.region| {
      hide Walk;
      forall region: seq<Byte>, end: U64, limit: nat | |region| == |m.region|
        ensures !Walk(m.(region := region), pos, end, limit).outside
      {
        NeverOutside(m.(region := region), pos, end, limit);
      }
    } else {
      hide NeverLeaves;
      if m.len == 16 && pos == TWO64 - 9 {
        SixteenNeverLeaves(m);
      } else {
        SomeContentsLeave(m, pos);
      }
    }
  }
}
