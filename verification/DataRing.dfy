/** The reader of a per-CPU data ring: a walk over records whose bytes may wrap around the ring's end. */
module DataRing {
  import opened Bytes
  import Modular

  const TWO64 := 0x1_0000_0000_0000_0000

  datatype Head = Head(vmid: U32, probeId: U32, gns: U64, word3: U64)

  datatype Record = Record(pos: U64, rel: nat, size: U32, flags: U32, head: Option<Head>, payload: seq<Byte>)

  /** A mapped region and where in it the ring is said to be. */
  datatype Mapping = Mapping(region: seq<Byte>, off: nat, len: nat)

  ghost predicate Covered(m: Mapping) {
    0 < m.len && m.off + m.len <= |m.region|
  }

  /** The byte at a logical position. */
  function ByteAt(m: Mapping, pos: nat): Byte
    requires 0 < m.len && m.off + m.len <= |m.region|
  {
    m.region[m.off + pos % m.len]
  }

  /** `n` bytes from a logical position on, wrapping; nothing if the ring is not mapped or too short. */
  function ReadRing(m: Mapping, pos: nat, n: nat): (r: Option<seq<Byte>>)
    ensures r.Some? <==> Covered(m) && n <= m.len
    ensures r.Some? ==> |r.value| == n && forall i :: 0 <= i < n ==> r.value[i] == ByteAt(m, pos + i)
  {
    if m.len == 0 || n > m.len || m.off + m.len > |m.region| then None
    else Some(seq<Byte>(n, i requires 0 <= i < n => ByteAt(m, pos + i)))
  }

  lemma WrapOnce(rel: nat, i: nat, len: nat)
    requires rel < len && i <= len
    ensures (rel + i) % len == if rel + i < len then rel + i else rel + i - len
  {
    if rel + i < len {
      Modular.Unique(rel + i, 0, rel + i, len);
    } else if rel + i - len < len {
      Modular.Unique(rel + i, 1, rel + i - len, len);
    }
  }

  /** `read_ring_bytes`: one copy up to the ring's end and, if that is not enough, one from its start. */
  method ReadRingBytes(m: Mapping, pos: nat, n: nat) returns (r: Option<seq<Byte>>)
    ensures r == ReadRing(m, pos, n)
  {
    if m.len == 0 || n > m.len || m.off + m.len > |m.region| {
      return None;
    }
    var rel := pos % m.len;
    var first := if n <= m.len - rel then n else m.len - rel;
    var out := m.region[m.off + rel..m.off + rel + first];
    if first < n {
      out := out + m.region[m.off..m.off + (n - first)];
    }
    forall i | 0 <= i < n
      ensures out[i] == ByteAt(m, pos + i)
    {
      WrapOnce(rel, i, m.len);
      Modular.AddMod(pos, i, m.len);
    }
    assert out == ReadRing(m, pos, n).value;
    return Some(out);
  }

  function Align8(n: nat): (r: nat)
    ensures r % 8 == 0 && n <= r < n + 8
  {
    (n + 7) / 8 * 8
  }

  /** How far a record of this payload size moves the position. */
  function Advance(size: nat): (r: nat)
    ensures r % 8 == 0 && 8 + size <= r < 16 + size
  {
    Align8(8 + size)
  }

  function DecodeHead(b: seq<Byte>): Head
    requires |b| == 24
  {
    Head(U32At(b, 0), U32At(b, 4), U64At(b, 8), U64At(b, 16))
  }

  /** The payload head is two 32-bit and two 64-bit words in this order. */
  lemma HeadReads(h: Head)
    ensures DecodeHead(ToLe(h.vmid, 4) + ToLe(h.probeId, 4) + ToLe(h.gns, 8) + ToLe(h.word3, 8)) == h
  {
    hide ToLe, FromLe;
    var b := ToLe(h.vmid, 4) + ToLe(h.probeId, 4) + ToLe(h.gns, 8) + ToLe(h.word3, 8);
    assert b[0..4] == ToLe(h.vmid, 4) && b[4..8] == ToLe(h.probeId, 4);
    assert b[8..16] == ToLe(h.gns, 8) && b[16..24] == ToLe(h.word3, 8);
    Widths();
    LeRoundTrip(h.vmid, 4);
    LeRoundTrip(h.probeId, 4);
    LeRoundTrip(h.gns, 8);
    LeRoundTrip(h.word3, 8);
  }

  /** What is found at a position: a flag word outside the mapping, nothing to read yet, or a record. */
  datatype Found = Outside | Nothing | Got(record: Record)

  /** The flag word is read where it lies, without wrapping; size and payload wrap. */
  function Look(m: Mapping, pos: U64): Found
    requires 0 < m.len
  {
    var rel := pos % m.len;
    if m.off + rel + 8 > |m.region| then Outside
    else
      var flags := U32At(m.region, m.off + rel + 4);
      var hdr := ReadRing(m, rel, 8);
      if flags == 0 || hdr.None? then Nothing
      else
        var size := U32At(hdr.value, 0);
        var head := if size >= 24 then ReadRing(m, rel + 8, 24) else None;
        var payload := ReadRing(m, rel + 8, size);
        Got(Record(pos, rel, size, flags,
                   if head.Some? then Some(DecodeHead(head.value)) else None,
                   if payload.Some? then payload.value else []))
  }

  /** Where the walk goes after a record, unless it stops there. */
  function Next(len: nat, pos: U64, size: U32, end: U64): Option<U64> {
    if Advance(size) > len then None
    else
      var next := (pos + Advance(size)) % TWO64;
      if next > end then None else Some(next)
  }

  /** The records found, and whether the walk ended on a flag word outside the mapping. */
  datatype Walked = Walked(records: seq<Record>, outside: bool)

  function Prepend(r: Record, w: Walked): Walked {
    w.(records := [r] + w.records)
  }

  function Walk(m: Mapping, pos: U64, end: U64, limit: nat): Walked
    requires 0 < m.len
    decreases limit
  {
    if pos == end || limit == 0 then Walked([], false)
    else
      match Look(m, pos)
      case Outside => Walked([], true)
      case Nothing => Walked([], false)
      case Got(r) =>
        match Next(m.len, pos, r.size, end)
        case None => Walked([r], false)
        case Some(next) => Prepend(r, Walk(m, next, end, limit - 1))
  }

  /** A reader that fell more than a ring behind starts one ring before the end. */
  function Clamp(start: U64, end: U64, len: nat): U64 {
    if end - start > len then end - len else start
  }

  function Between(m: Mapping, start: U64, end: U64, limit: nat): Walked {
    if start == end || m.len == 0 || m.off >= |m.region| then Walked([], false)
    else Walk(m, Clamp(start, end, m.len), end, limit)
  }

  /** What has been found, and what the walk goes on to find. */
  function SoFar(out: seq<Record>, w: Walked): Walked {
    Walked(out + w.records, w.outside)
  }

  lemma WalkDone(m: Mapping, pos: U64, end: U64, limit: nat, out: seq<Record>)
    requires 0 < m.len && (pos == end || limit == 0)
    ensures SoFar(out, Walk(m, pos, end, limit)) == Walked(out, false)
  {
  }

  lemma WalkOn(m: Mapping, pos: U64, end: U64, limit: nat, out: seq<Record>)
    requires 0 < m.len && pos != end && limit > 0
    ensures var w, found := SoFar(out, Walk(m, pos, end, limit)), Look(m, pos);
            if !found.Got? then w == Walked(out, found.Outside?)
            else
              var r := found.record;
              var next := Next(m.len, pos, r.size, end);
              if next.None? then w == Walked(out + [r], false)
              else w == SoFar(out + [r], Walk(m, next.value, end, limit - 1))
  {
    hide Look, Next;
    var found := Look(m, pos);
    assert out + [] == out;
    if found.Got? && Next(m.len, pos, found.record.size, end).Some? {
      var rest := Walk(m, Next(m.len, pos, found.record.size, end).value, end, limit - 1).records;
      assert out + ([found.record] + rest) == out + [found.record] + rest;
    }
  }

  // ---------------------------------------------------------------- staying inside the mapping

  /** Records move the walk by multiples of eight, also where positions wrap at 64 bits. */
  lemma NextAligned(len: nat, pos: U64, size: U32, end: U64)
    ensures Next(len, pos, size, end).Some? ==> Next(len, pos, size, end).value % 8 == pos % 8
  {
    hide Advance;
    var a := Advance(size);
    Modular.Residue(pos + a, TWO64, 8);
    Modular.Unique(pos + a, pos / 8 + a / 8, pos % 8, 8);
  }

  /** How far past the ring's end the size and flag words at such a position can reach. */
  lemma HeaderFits(len: nat, pos: nat)
    requires 0 < len && len % 8 == 0
    ensures pos % len + 8 <= len + pos % 8
  {
    Modular.Residue(pos, len, 8);
  }

  /** The ring is mapped, and so are as many bytes after it as the positions are off a multiple of eight. */
  ghost predicate SafeAt(m: Mapping, pos: nat) {
    Covered(m) && m.off + m.len + (if m.len % 8 == 0 then pos % 8 else 7) <= |m.region|
  }

  lemma NextSafe(m: Mapping, pos: U64, size: U32, end: U64)
    requires SafeAt(m, pos) && Next(m.len, pos, size, end).Some?
    ensures SafeAt(m, Next(m.len, pos, size, end).value)
  {
    hide Next;
    NextAligned(m.len, pos, size, end);
  }

  lemma LooksInside(m: Mapping, pos: U64)
    requires SafeAt(m, pos)
    ensures 0 < m.len && !Look(m, pos).Outside?
  {
    hide ReadRing, U32At;
    if m.len % 8 == 0 {
      HeaderFits(m.len, pos);
    }
  }

  /** From a safe position the walk never leaves the mapping. */
  lemma {:induction false} NeverOutside(m: Mapping, pos: U64, end: U64, limit: nat)
    requires SafeAt(m, pos)
    ensures 0 < m.len && !Walk(m, pos, end, limit).outside
    decreases limit
  {
    hide Next, Look, SafeAt;
    LooksInside(m, pos);
    if pos != end && limit > 0 {
      var found := Look(m, pos);
      if found.Got? {
        var next := Next(m.len, pos, found.record.size, end);
        if next.Some? {
          NextSafe(m, pos, found.record.size, end);
          NeverOutside(m, next.value, end, limit - 1);
        }
      }
    }
  }

  // ---------------------------------------------------------------- rings that hold records

  /** One claimed record; its flags stay zero until its producer publishes it. */
  datatype Slot = Slot(flags: U32, payload: seq<Byte>)

  function Span(slots: seq<Slot>): nat {
    if |slots| == 0 then 0 else Advance(|slots[0].payload|) + Span(slots[1..])
  }

  /** The record's words and payload are the ring's bytes at its position. */
  ghost predicate Holds(m: Mapping, pos: nat, s: Slot)
    requires Covered(m)
  {
    var rel := pos % m.len;
    && 8 <= m.len && m.off + rel + 8 <= |m.region| && Advance(|s.payload|) <= m.len && |s.payload| < 0x1_0000_0000
    && U32At(ReadRing(m, rel, 8).value, 0) == |s.payload| && U32At(m.region, m.off + rel + 4) == s.flags
    && ReadRing(m, rel + 8, |s.payload|) == Some(s.payload)
  }

  /** The records lie one after another from `pos` on, wherever the ring's end falls. */
  ghost predicate Laid(m: Mapping, pos: nat, slots: seq<Slot>)
    requires Covered(m)
    decreases |slots|
  {
    |slots| == 0 || (Holds(m, pos, slots[0]) && Laid(m, pos + Advance(|slots[0].payload|), slots[1..]))
  }

  /** What a published record reads as. */
  function Published(len: nat, pos: U64, s: Slot): Record
    requires 0 < len && |s.payload| < 0x1_0000_0000
  {
    Record(pos, pos % len, |s.payload|, s.flags,
           if |s.payload| >= 24 then Some(DecodeHead(s.payload[..24])) else None, s.payload)
  }

  ghost predicate Sized(slots: seq<Slot>) {
    forall s :: s in slots ==> |s.payload| < 0x1_0000_0000
  }

  /** The published records up to the first busy one or the limit, at running positions. */
  ghost function Prefix(len: nat, pos: U64, slots: seq<Slot>, limit: nat): seq<Record>
    requires 0 < len && pos + Span(slots) < TWO64 && Sized(slots)
    decreases |slots|
  {
    if |slots| == 0 || limit == 0 || slots[0].flags == 0 then []
    else [Published(len, pos, slots[0])] + Prefix(len, pos + Advance(|slots[0].payload|), slots[1..], limit - 1)
  }

  lemma HeadInPayload(m: Mapping, pos: nat, payload: seq<Byte>)
    requires ReadRing(m, pos, |payload|) == Some(payload) && |payload| >= 24
    ensures ReadRing(m, pos, 24) == Some(payload[..24])
  {
    assert ReadRing(m, pos, 24).value == payload[..24];
  }

  lemma HeldReads(m: Mapping, pos: U64, s: Slot)
    requires Covered(m) && Holds(m, pos, s)
    ensures Look(m, pos) == if s.flags == 0 then Nothing else Got(Published(m.len, pos, s))
  {
    hide DecodeHead, ReadRing, U32At, Advance;
    if |s.payload| >= 24 {
      HeadInPayload(m, pos % m.len + 8, s.payload);
    }
  }

  lemma {:induction false} LaidSizes(m: Mapping, pos: nat, slots: seq<Slot>)
    requires Covered(m) && Laid(m, pos, slots)
    ensures Sized(slots)
    decreases |slots|
  {
    hide Advance;
    if |slots| > 0 {
      LaidSizes(m, pos + Advance(|slots[0].payload|), slots[1..]);
    }
  }

  /**
   * On a ring that holds these records the walk returns exactly the published ones before the first busy
   * record or the limit, each with the payload and flags its producer wrote and its own logical position.
   */
  lemma {:induction false} WalkReturnsPrefix(m: Mapping, pos: U64, slots: seq<Slot>, limit: nat)
    requires Covered(m) && Laid(m, pos, slots) && pos + Span(slots) < TWO64
    ensures Sized(slots)
    ensures Walk(m, pos, pos + Span(slots), limit) == Walked(Prefix(m.len, pos, slots, limit), false)
    decreases |slots|
  {
    hide Look, Published, Holds, Advance, Next, Sized, Covered;
    LaidSizes(m, pos, slots);
    if |slots| > 0 && limit > 0 {
      var s, end := slots[0], pos + Span(slots);
      var a := Advance(|s.payload|);
      HeldReads(m, pos, s);
      HeldFields(m, pos, s);
      if s.flags != 0 {
        assert end == pos + a + Span(slots[1..]);
        NextInside(m.len, pos, |s.payload|, end);
        WalkReturnsPrefix(m, pos + a, slots[1..], limit - 1);
      }
    }
  }

  lemma NextInside(len: nat, pos: U64, size: U32, end: U64)
    requires Advance(size) <= len && pos + Advance(size) <= end
    ensures Next(len, pos, size, end) == Some(pos + Advance(size))
  {
    hide Advance;
  }

  lemma HeldFields(m: Mapping, pos: U64, s: Slot)
    requires Covered(m) && Holds(m, pos, s)
    ensures |s.payload| < 0x1_0000_0000 && Advance(|s.payload|) <= m.len
    ensures Published(m.len, pos, s).flags == s.flags && Published(m.len, pos, s).size == |s.payload|
  {
    hide Advance, U32At, DecodeHead;
  }

  /** How many records the prefix has, and where each of them is. */
  lemma {:induction false} PrefixMeaning(len: nat, pos: U64, slots: seq<Slot>, limit: nat, k: nat)
    requires 0 < len && pos + Span(slots) < TWO64 && Sized(slots) && k <= |slots|
    ensures k < |Prefix(len, pos, slots, limit)| <==>
            k < |slots| && k < limit && forall j :: 0 <= j <= k ==> slots[j].flags != 0
    ensures k < |Prefix(len, pos, slots, limit)| ==>
              var r := Prefix(len, pos, slots, limit)[k];
              r.pos == pos + Span(slots[..k]) && r.payload == slots[k].payload && r.flags == slots[k].flags
    decreases k
  {
    hide Advance, DecodeHead;
    if |slots| > 0 && limit > 0 && slots[0].flags != 0 && k > 0 {
      PrefixMeaning(len, pos + Advance(|slots[0].payload|), slots[1..], limit - 1, k - 1);
      assert slots[..k][1..] == slots[1..][..k - 1];
      assert forall j :: 1 <= j <= k && k < |slots| ==> slots[j] == slots[1..][j - 1];
      assert forall j :: 0 <= j <= k - 1 && k < |slots| ==> slots[1..][j] == slots[j + 1];
    }
  }

  // ---------------------------------------------------------------- what a walk is, step by step

  /** The bytes at `n` positions from `pos` on. */
  ghost function Wrapped(m: Mapping, pos: nat, n: nat): (bs: seq<Byte>)
    requires Covered(m)
    ensures |bs| == n && forall i :: 0 <= i < n ==> bs[i] == ByteAt(m, pos + i)
  {
    seq<Byte>(n, i requires 0 <= i < n => ByteAt(m, pos + i))
  }

  /** A published record is at its position: the size word, the flag word, and as much payload as the ring can hold. */
  ghost predicate IsRecord(m: Mapping, r: Record) {
    && Covered(m) && 8 <= m.len && r.rel == r.pos % m.len && m.off + r.rel + 8 <= |m.region|
    && r.flags == U32At(m.region, m.off + r.rel + 4) != 0
    && r.size == FromLe(Wrapped(m, r.pos, 4))
    && r.payload == (if r.size <= m.len then Wrapped(m, r.pos + 8, r.size) else [])
    && r.head == if r.size >= 24 && 24 <= m.len then Some(DecodeHead(Wrapped(m, r.pos + 8, 24))) else None
  }

  /** No record can be taken from this position: its flag word is outside, not set, or in a ring that is not mapped. */
  ghost predicate NoRecord(m: Mapping, pos: nat, outside: bool)
    requires 0 < m.len
  {
    var at := m.off + pos % m.len;
    if at + 8 > |m.region| then outside else !outside && (!Covered(m) || m.len < 8 || U32At(m.region, at + 4) == 0)
  }

  ghost predicate EndsAt(m: Mapping, pos: U64, end: U64, outside: bool)
    requires 0 < m.len
  {
    if pos == end then !outside else NoRecord(m, pos, outside)
  }

  /** The position after a record is still within the ring's length and not past the end. */
  ghost predicate GoesOn(m: Mapping, r: Record, end: U64) {
    Advance(r.size) <= m.len && (r.pos + Advance(r.size)) % TWO64 <= end
  }

  /**
   * These are the records from `from` on: each is at its position, each position follows from the record before it,
   * and the list stops at the limit, after a record the walk cannot go on from, or where there is no record.
   */
  ghost predicate IsWalk(m: Mapping, from: U64, end: U64, limit: nat, out: seq<Record>, outside: bool)
    requires 0 < m.len
  {
    var n := |out|;
    && n <= limit && (n == limit ==> !outside)
    && (forall i :: 0 <= i < n ==> IsRecord(m, out[i]) && out[i].pos != end)
    && (forall i :: 1 <= i < n ==> Follows(m, out[i - 1], out[i], end))
    && (n > 0 ==> out[0].pos == from)
    && (n < limit ==>
          if n == 0 then EndsAt(m, from, end, outside)
          else if !GoesOn(m, out[n - 1], end) then !outside
          else EndsAt(m, (out[n - 1].pos + Advance(out[n - 1].size)) % TWO64, end, outside))
  }

  ghost predicate Follows(m: Mapping, r: Record, next: Record, end: U64) {
    GoesOn(m, r, end) && next.pos == (r.pos + Advance(r.size)) % TWO64
  }

  lemma WrappedReads(m: Mapping, pos: nat, k: nat, n: nat)
    requires Covered(m) && n <= m.len
    ensures ReadRing(m, pos % m.len + k, n) == Some(Wrapped(m, pos + k, n))
  {
    var r, w := ReadRing(m, pos % m.len + k, n).value, Wrapped(m, pos + k, n);
    forall i | 0 <= i < n
      ensures r[i] == w[i]
    {
      Modular.AddMod(pos, k + i, m.len);
    }
    assert r == w;
  }

  lemma SizeWord(m: Mapping, pos: nat)
    requires Covered(m) && 8 <= m.len
    ensures U32At(ReadRing(m, pos % m.len, 8).value, 0) == FromLe(Wrapped(m, pos, 4))
  {
    hide FromLe, ReadRing;
    WrappedReads(m, pos, 0, 8);
    assert Wrapped(m, pos, 8)[0..4] == Wrapped(m, pos, 4);
  }

  lemma LookMeaning(m: Mapping, pos: U64)
    requires 0 < m.len
    ensures var found := Look(m, pos);
            if found.Got? then IsRecord(m, found.record) && found.record.pos == pos
            else NoRecord(m, pos, found.Outside?)
  {
    hide FromLe, U32At, DecodeHead, Wrapped, ByteAt;
    if Look(m, pos).Got? {
      var r := Look(m, pos).record;
      SizeWord(m, pos);
      if r.size <= m.len {
        WrappedReads(m, pos, 8, r.size);
      }
      if 24 <= m.len {
        WrappedReads(m, pos, 8, 24);
      }
    }
  }

  lemma ConsWalk(m: Mapping, r: Record, next: U64, end: U64, limit: nat, out: seq<Record>, outside: bool)
    requires 0 < m.len && IsRecord(m, r) && r.pos != end && GoesOn(m, r, end)
    requires next == (r.pos + Advance(r.size)) % TWO64 && IsWalk(m, next, end, limit, out, outside)
    ensures IsWalk(m, r.pos, end, limit + 1, [r] + out, outside)
  {
    hide IsRecord, EndsAt, GoesOn, Advance;
    var all := [r] + out;
    forall i | 1 <= i < |all|
      ensures Follows(m, all[i - 1], all[i], end)
    {
      if i > 1 {
        assert all[i - 1] == out[i - 2] && all[i] == out[i - 1];
        assert Follows(m, out[i - 2], out[i - 1], end);
      }
    }
    assert forall i :: 0 <= i < |all| ==> all[i] == if i == 0 then r else out[i - 1];
  }

  lemma LastWalk(m: Mapping, r: Record, end: U64, limit: nat)
    requires 0 < m.len && IsRecord(m, r) && r.pos != end && !GoesOn(m, r, end) && limit > 0
    ensures IsWalk(m, r.pos, end, limit, [r], false)
  {
    hide IsRecord, EndsAt, GoesOn, Advance;
  }

  /** The walk finds exactly those records. */
  lemma {:induction false} WalkMeaning(m: Mapping, pos: U64, end: U64, limit: nat)
    requires 0 < m.len
    ensures var w := Walk(m, pos, end, limit); IsWalk(m, pos, end, limit, w.records, w.outside)
    decreases limit
  {
    hide Look, IsRecord, NoRecord, Advance;
    if pos != end && limit > 0 {
      LookMeaning(m, pos);
      var found := Look(m, pos);
      if found.Got? {
        var r := found.record;
        var next := Next(m.len, pos, r.size, end);
        if next.None? {
          LastWalk(m, r, end, limit);
        } else {
          hide IsWalk;
          WalkMeaning(m, next.value, end, limit - 1);
          var w := Walk(m, next.value, end, limit - 1);
          ConsWalk(m, r, next.value, end, limit - 1, w.records, w.outside);
        }
      }
    }
  }

  /** Below the last lap of the 64-bit space positions ascend from the start and stay below the end. */
  lemma {:induction false} PositionsAscend(m: Mapping, from: U64, end: U64, limit: nat, out: seq<Record>, outside: bool,
      i: nat)
    requires 0 < m.len && IsWalk(m, from, end, limit, out, outside) && i < |out|
    requires from <= end && end + m.len <= TWO64
    ensures from <= out[i].pos < end && (i > 0 ==> out[i - 1].pos < out[i].pos)
    decreases i
  {
    hide IsRecord, EndsAt, Advance;
    if i > 0 {
      PositionsAscend(m, from, end, limit, out, outside, i - 1);
      assert Follows(m, out[i - 1], out[i], end);
    }
  }

  lemma ClampMeaning(start: U64, end: U64, len: nat)
    ensures Clamp(start, end, len) == if end - start > len then end - len else start
  {
  }

  /** What is returned for a reader that is up to date, and for one that has fallen more than a ring behind. */
  lemma BetweenMeaning(m: Mapping, start: U64, end: U64, limit: nat)
    ensures var w := Between(m, start, end, limit);
            && (start == end || m.len == 0 || m.off >= |m.region| ==> w == Walked([], false))
            && (start != end && 0 < m.len && m.off < |m.region| ==>
                  IsWalk(m, if end - start > m.len then end - m.len else start, end, limit, w.records, w.outside))
            && (start <= end && end + m.len <= TWO64 ==>
                  forall r :: r in w.records ==> start <= r.pos < end && end - m.len <= r.pos)
    ensures forall slots {:trigger Sized(slots)} ::
              var from := if end - start > m.len then end - m.len else start;
              Covered(m) && Laid(m, from, slots) && Sized(slots) && end == from + Span(slots) ==>
                Between(m, start, end, limit) == Walked(Prefix(m.len, from, slots, limit), false)
  {
    hide Walk, IsWalk, Clamp, Laid, Prefix, Sized;
    ClampMeaning(start, end, m.len);
    var w, from := Between(m, start, end, limit), if end - start > m.len then end - m.len else start;
    if start != end && 0 < m.len && m.off < |m.region| {
      WalkMeaning(m, from, end, limit);
      if start <= end && end + m.len <= TWO64 {
        forall r | r in w.records
          ensures start <= r.pos < end && end - m.len <= r.pos
        {
          var i :| 0 <= i < |w.records| && w.records[i] == r;
          PositionsAscend(m, from, end, limit, w.records, w.outside, i);
        }
      }
    }
    forall slots {:trigger Sized(slots)} |
      Covered(m) && Laid(m, from, slots) && Sized(slots) && end == from + Span(slots)
      ensures w == Walked(Prefix(m.len, from, slots, limit), false)
    {
      WalkReturnsPrefix(m, from, slots, limit);
      if start == end {
        NothingBetween(m, from, slots, limit);
      }
    }
  }

  lemma NothingBetween(m: Mapping, from: U64, slots: seq<Slot>, limit: nat)
    requires Covered(m) && Span(slots) == 0 && Sized(slots)
    ensures Prefix(m.len, from, slots, limit) == []
  {
  }

  /** `records_between_in_ring` on bytes that do not change while they are read. */
  method RecordsBetween(m: Mapping, start: U64, end: U64, limit: nat) returns (out: seq<Record>, outside: bool)
    ensures Walked(out, outside) == Between(m, start, end, limit)
    ensures start == end || m.len == 0 || m.off >= |m.region| ==> out == [] && !outside
    ensures start != end && 0 < m.len && m.off < |m.region| ==>
              IsWalk(m, if end - start > m.len then end - m.len else start, end, limit, out, outside)
    ensures start <= end && end + m.len <= TWO64 ==>
              forall r :: r in out ==> start <= r.pos < end && end - m.len <= r.pos
    ensures forall slots {:trigger Sized(slots)} ::
              var from := if end - start > m.len then end - m.len else start;
              Covered(m) && Laid(m, from, slots) && Sized(slots) && end == from + Span(slots) ==>
                out == Prefix(m.len, from, slots, limit) && !outside
  {
    hide Look, Next, Clamp, Walk, SoFar, IsWalk, Laid, Prefix, Sized;
    BetweenMeaning(m, start, end, limit);
    out, outside := [], false;
    if start == end || m.len == 0 || m.off >= |m.region| {
      return;
    }
    var pos := Clamp(start, end, m.len);
    ghost var from := pos;
    FoundNothing(Walk(m, from, end, limit));
    while pos != end && |out| < limit
      invariant |out| <= limit && !outside
      invariant SoFar(out, Walk(m, pos, end, limit - |out|)) == Walk(m, from, end, limit)
      decreases limit - |out|
    {
      var found := Look(m, pos);
      WalkOn(m, pos, end, limit - |out|, out);
      if found.Outside? {
        return out, true;
      }
      if found.Nothing? {
        return;
      }
      var r := found.record;
      var next := Next(m.len, pos, r.size, end);
      if next.None? {
        return out + [r], false;
      }
      out, pos := out + [r], next.value;
    }
    WalkDone(m, pos, end, limit - |out|, out);
  }

  lemma FoundNothing(w: Walked)
    ensures SoFar([], w) == w
  {
    assert [] + w.records == w.records;
  }

  // ---------------------------------------------------------------- arbitrary bytes

  /** How far the walk can get: to the end, or, from past the end, once around the 64-bit space and to the end. */
  function Reach(len: nat, pos: U64, end: U64): nat {
    if pos <= end then end - pos else if pos + len < TWO64 then 0 else end
  }

  /**
   * On arbitrary bytes the walk yields no more than the limit and, except within a ring's length of the top of the
   * 64-bit space, at most one record per eight bytes it can get over, and one more.
   */
  lemma {:induction false} WalkBounded(m: Mapping, pos: U64, end: U64, limit: nat)
    requires 0 < m.len
    ensures |Walk(m, pos, end, limit).records| <= limit
    ensures end + m.len <= TWO64 ==>
              |Walk(m, pos, end, limit).records| * 8 <= Reach(m.len, pos, end) + if pos <= end then 7 else 15
    decreases limit
  {
    hide Look, Advance;
    if pos != end && limit > 0 {
      var found := Look(m, pos);
      if found.Got? {
        var next := Next(m.len, pos, found.record.size, end);
        if next.Some? {
          if end + m.len <= TWO64 {
            NextReaches(m.len, pos, found.record.size, end);
          }
          WalkBounded(m, next.value, end, limit - 1);
        }
      }
    }
  }

  lemma NextReaches(len: nat, pos: U64, size: U32, end: U64)
    requires 0 < len && end + len <= TWO64 && pos != end && Next(len, pos, size, end).Some?
    ensures var n := Next(len, pos, size, end).value;
            n <= end && (if pos <= end then n >= pos + 8 else pos + len >= TWO64)
  {
    hide Advance;
  }

  /** A ring of one record of eight payload bytes, read towards an end the positions step over. */
  const OVER: Mapping := Mapping([8, 0, 0, 0, 1, 0, 0, 0, 0, 0, 0, 0, 0, 0, 0, 0], 0, 16)

  /** Bytes that do not reach the ring's end are read as they lie. */
  lemma ReadsStraight(m: Mapping, rel: nat, n: nat)
    requires Covered(m) && rel + n <= m.len && rel < m.len
    ensures ReadRing(m, rel, n) == Some(m.region[m.off + rel..m.off + rel + n])
  {
    var r, s := ReadRing(m, rel, n).value, m.region[m.off + rel..m.off + rel + n];
    forall i | 0 <= i < n
      ensures r[i] == s[i]
    {
      WrapOnce(rel, i, m.len);
    }
    assert r == s;
  }

  lemma OverHeader()
    ensures ReadRing(OVER, 0, 8).Some? && U32At(ReadRing(OVER, 0, 8).value, 0) == 8 && U32At(OVER.region, 4) == 1
  {
    hide FromLe, ReadRing;
    ReadsStraight(OVER, 0, 8);
    var hdr := ReadRing(OVER, 0, 8).value;
    assert hdr[0..4] == [8, 0, 0, 0] && OVER.region[4..8] == [1, 0, 0, 0];
    SmallWord(8);
    SmallWord(1);
  }

  lemma OverLooks(pos: U64)
    requires pos % 16 == 0
    ensures Look(OVER, pos).Got? && Look(OVER, pos).record.size == 8
  {
    hide U32At, ReadRing, DecodeHead;
    OverHeader();
  }

  lemma SmallWord(v: Byte)
    ensures FromLe([v, 0, 0, 0]) == v
  {
    var s: seq<Byte> := [v, 0, 0, 0];
    assert s[1..] == [0, 0, 0] && s[1..][1..] == [0, 0] && s[1..][1..][1..] == [0];
    assert FromLe(s[1..][1..][1..]) == 0;
    assert FromLe(s[1..][1..]) == 0;
    assert FromLe(s[1..]) == 0;
  }

  /** Within a ring's length of the top of the 64-bit space there is no such bound: only the limit ends this walk. */
  lemma {:induction false} WalkRunsOver(pos: U64, limit: nat)
    requires pos % 16 == 0
    ensures |Walk(OVER, pos, TWO64 - 8, limit).records| == limit
    decreases limit
  {
    hide Look;
    if limit > 0 {
      OverLooks(pos);
      assert Advance(8) == 16;
      var next := (pos + 16) % TWO64;
      assert next % 16 == 0 && next <= TWO64 - 16;
      WalkRunsOver(next, limit - 1);
    }
  }
}
