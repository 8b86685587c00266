/**
 * Producer and consumer of one ring as two threads. Every shared load and store is a step of its own:
 * the position counters whole, the ring bytes one at a time. A loaded position is kept and may be stale
 * by the time it is used.
 */
module RingConcurrent {
  import opened Bytes
  import opened RingSpec
  import RingQueue
  import Modular

  datatype Producer =
    | PIdle
    | PLoaded(entry: Entry, seen: nat)
    | PWriting(entry: Entry, seen: nat, k: nat)

  datatype Consumer =
    | CIdle
    | CHeader(got: seq<Byte>)
    | CPayload(hdr: Header, got: seq<Byte>)
    | COverrun

  /** `pushed` and `out` record what was published and what was taken, in order. */
  datatype World = World(mem: seq<Byte>, prod: nat, cons: nat, p: Producer, c: Consumer,
                         pushed: seq<Entry>, out: seq<Entry>)

  datatype Action =
    | BeginPush(entry: Entry)   // too large, or load the consumer position
    | Decide                    // refuse, or start storing
    | StoreByte
    | PublishProd
    | Look                      // load the producer position
    | LoadHeaderByte
    | JudgeHeader               // skip a pad, detect an overrun, or go on to the payload
    | LoadPayloadByte
    | PublishCons

  predicate Aligned(n: nat) {
    n % 16 == 0
  }

  function Head(pos: nat, len: nat): (h: nat)
    requires 0 < len
    ensures h < len
  {
    pos % len
  }

  function Total(e: Entry): (t: nat)
    ensures 0 < t && t % 16 == 0
  {
    EntryTotal(|e.payload|)
  }

  function Plan(len: nat, prod: nat, seen: nat, e: Entry): (p: Placement)
    requires 0 < len && seen <= prod
    ensures p == Place(len, prod, seen, Total(e))
  {
    Place(len, prod, seen, Total(e))
  }

  /** The bytes an accepted push stores, in order: a pad header if needed, then header and payload. */
  function PadBytes(p: Placement): (b: seq<Byte>)
    requires p.Padded? ==> HDR <= p.pad
    ensures |b| == if p.Padded? then HDR else 0
  {
    if p.Padded? then HeaderBytes(KIND_PAD, p.pad - HDR, 0) else []
  }

  function Stores(p: Placement, e: Entry): (b: seq<Byte>)
    requires p.Padded? ==> HDR <= p.pad
    ensures |b| == (if p.Padded? then HDR else 0) + HDR + |e.payload|
  {
    PadBytes(p) + EntryBytes(e)
  }

  /** Ring offset of the `k`-th stored byte. */
  function StoreOffset(p: Placement, k: nat): nat
    requires p.Accepted()
  {
    if p.Direct? then p.head + k else if k < HDR then p.head + k else k - HDR
  }

  predicate Enabled(w: World, a: Action) {
    0 < |w.mem| &&
    match a
    case BeginPush(e) => w.p.PIdle? && Sendable(e)
    case Decide => w.p.PLoaded? && w.p.seen <= w.prod
    case StoreByte =>
      && w.p.PWriting? && w.p.seen <= w.prod
      && var p := Plan(|w.mem|, w.prod, w.p.seen, w.p.entry);
         Inside(p, |w.mem|, w.p.entry) && w.p.k < |Stores(p, w.p.entry)|
    case PublishProd =>
      && w.p.PWriting? && w.p.seen <= w.prod
      && var p := Plan(|w.mem|, w.prod, w.p.seen, w.p.entry);
         Inside(p, |w.mem|, w.p.entry) && w.p.k == |Stores(p, w.p.entry)|
    case Look => w.c.CIdle?
    case LoadHeaderByte => w.c.CHeader? && |w.c.got| < HDR && Head(w.cons, |w.mem|) + |w.c.got| < |w.mem|
    case JudgeHeader => w.c.CHeader? && |w.c.got| == HDR
    case LoadPayloadByte =>
      w.c.CPayload? && |w.c.got| < w.c.hdr.len && Head(w.cons, |w.mem|) + HDR + |w.c.got| < |w.mem|
    case PublishCons => w.c.CPayload? && |w.c.got| == w.c.hdr.len
  }

  function Do(w: World, a: Action): World
    requires Enabled(w, a)
  {
    match a
    case BeginPush(e) =>
      if Total(e) > |w.mem| then w else w.(p := PLoaded(e, w.cons))
    case Decide =>
      if Plan(|w.mem|, w.prod, w.p.seen, w.p.entry).Accepted() then
        w.(p := PWriting(w.p.entry, w.p.seen, 0))
      else
        w.(p := PIdle)
    case StoreByte =>
      var p := Plan(|w.mem|, w.prod, w.p.seen, w.p.entry);
      w.(mem := Store(w.mem, StoreOffset(p, w.p.k), [Stores(p, w.p.entry)[w.p.k]]),
         p := w.p.(k := w.p.k + 1))
    case PublishProd =>
      w.(prod := w.prod + Advance(Plan(|w.mem|, w.prod, w.p.seen, w.p.entry), Total(w.p.entry)),
         p := PIdle, pushed := w.pushed + [w.p.entry])
    case Look =>
      if w.prod == w.cons then w else w.(c := CHeader([]))
    case LoadHeaderByte =>
      w.(c := CHeader(w.c.got + [w.mem[Head(w.cons, |w.mem|) + |w.c.got|]]))
    case JudgeHeader =>
      var hdr := ParseHeader(w.c.got);
      var head := Head(w.cons, |w.mem|);
      if hdr.kind == KIND_PAD then
        w.(cons := w.cons + (|w.mem| - head), c := CIdle)
      else if head + EntryTotal(hdr.len) > |w.mem| then
        w.(c := COverrun)
      else
        w.(c := CPayload(hdr, []))
    case LoadPayloadByte =>
      w.(c := w.c.(got := w.c.got + [w.mem[Head(w.cons, |w.mem|) + HDR + |w.c.got|]]))
    case PublishCons =>
      w.(cons := w.cons + EntryTotal(w.c.hdr.len), c := CIdle,
         out := w.out + [Entry(w.c.hdr.kind, w.c.hdr.tag, w.c.got)])
  }

  // ---------------------------------------------------------------- invariant

  /** What is taken plus what the bytes between the positions read as is what was published. */
  ghost predicate QueueInv(mem: seq<Byte>, prod: nat, cons: nat, pushed: seq<Entry>, out: seq<Entry>) {
    && 0 < |mem| && Aligned(|mem|) && Aligned(prod)
    && cons <= prod <= cons + |mem|
    && Decode(mem, cons, prod).Some?
    && out + Decode(mem, cons, prod).value == pushed
  }

  /** The first `n` bytes of the plan are in memory. */
  ghost predicate Stored(mem: seq<Byte>, p: Placement, e: Entry, n: nat)
    requires Inside(p, |mem|, e)
  {
    n <= |Stores(p, e)| && forall j :: 0 <= j < n ==> mem[StoreOffset(p, j)] == Stores(p, e)[j]
  }

  /** A producer that has decided still has room for all its stores past every unconsumed byte. */
  ghost predicate ProducerInv(mem: seq<Byte>, prod: nat, cons: nat, p: Producer)
    requires 0 < |mem|
  {
    match p
    case PIdle => true
    case PLoaded(e, seen) => Sendable(e) && seen <= cons <= prod
    case PWriting(e, seen, k) =>
      && Sendable(e) && seen <= cons <= prod
      && var plan := Plan(|mem|, prod, seen, e); Inside(plan, |mem|, e) && Stored(mem, plan, e, k)
  }

  /** What the consumer has loaded so far is still what the memory holds, and it never saw an overrun. */
  ghost predicate ConsumerInv(mem: seq<Byte>, prod: nat, cons: nat, c: Consumer)
    requires 0 < |mem|
  {
    var h := Head(cons, |mem|);
    match c
    case CIdle => true
    case CHeader(got) =>
      cons < prod && h + HDR <= |mem| && |got| <= HDR && got == mem[h..h + |got|]
    case CPayload(hdr, got) =>
      && cons < prod && h + EntryTotal(hdr.len) <= |mem| && |got| <= hdr.len
      && hdr == ParseHeader(mem[h..h + HDR]) && hdr.kind != KIND_PAD
      && got == mem[h + HDR..h + HDR + |got|]
    case COverrun => false
  }

  ghost predicate Inv(w: World) {
    && QueueInv(w.mem, w.prod, w.cons, w.pushed, w.out)
    && ProducerInv(w.mem, w.prod, w.cons, w.p)
    && ConsumerInv(w.mem, w.prod, w.cons, w.c)
  }

  // ---------------------------------------------------------------- the producer's stores

  /** Logical position of the `k`-th stored byte. */
  function StorePos(p: Placement, prod: nat, k: nat): nat
    requires p.Accepted()
  {
    if p.Padded? && k >= HDR then prod + p.pad + (k - HDR) else prod + k
  }

  /** Every store lands past the producer position and within one lap of the position the producer saw. */
  lemma StoreAhead(len: nat, prod: nat, seen: nat, e: Entry, k: nat)
    requires 0 < len && seen <= prod
    requires Inside(Plan(len, prod, seen, e), len, e)
    requires k < |Stores(Plan(len, prod, seen, e), e)|
    ensures var p := Plan(len, prod, seen, e);
            var pos := StorePos(p, prod, k);
            pos % len == StoreOffset(p, k) && prod <= pos < seen + len
  {
    hide Plan, Stores;
    var p := Plan(len, prod, seen, e);
    if p.Padded? && k >= HDR {
      Modular.NextBoundary(prod, len);
      Modular.Shift(prod + p.pad, k - HDR, len);
    } else {
      Modular.Shift(prod, k, len);
    }
  }

  /** No two stores of one push go to the same offset. */
  lemma StoresApart(len: nat, prod: nat, seen: nat, e: Entry, j: nat, k: nat)
    requires 0 < len && seen <= prod
    requires Inside(Plan(len, prod, seen, e), len, e)
    requires j < k < |Stores(Plan(len, prod, seen, e), e)|
    ensures var p := Plan(len, prod, seen, e); StoreOffset(p, j) != StoreOffset(p, k)
  {
    hide Plan, Stores;
    StoreAhead(len, prod, seen, e, j);
    StoreAhead(len, prod, seen, e, k);
    var p := Plan(len, prod, seen, e);
    Modular.Distinct(StorePos(p, prod, j), StorePos(p, prod, k), len);
  }

  lemma StoreKeepsQueue(w: World)
    requires Inv(w) && Enabled(w, StoreByte)
    ensures Agree(w.mem, Do(w, StoreByte).mem, w.cons, w.prod)
  {
    hide Decode, Stores, Aligned, ConsumerInv, Plan, Stored, Agree;
    var e, k := w.p.entry, w.p.k;
    var p := Plan(|w.mem|, w.prod, w.p.seen, e);
    StoreAhead(|w.mem|, w.prod, w.p.seen, e, k);
    StoreKeeps(w.mem, StorePos(p, w.prod, k), [Stores(p, e)[k]], w.cons, w.prod);
  }

  lemma StoreExtends(w: World)
    requires Inv(w) && Enabled(w, StoreByte)
    ensures var w' := Do(w, StoreByte); ProducerInv(w'.mem, w'.prod, w'.cons, w'.p)
  {
    hide Stores, QueueInv, ConsumerInv, Plan;
    var e, k := w.p.entry, w.p.k;
    var p := Plan(|w.mem|, w.prod, w.p.seen, e);
    var m := Do(w, StoreByte).mem;
    forall j | 0 <= j < k + 1
      ensures m[StoreOffset(p, j)] == Stores(p, e)[j]
    {
      if j < k {
        StoresApart(|w.mem|, w.prod, w.p.seen, e, j, k);
      }
    }
  }

  lemma EntryStored(mem: seq<Byte>, p: Placement, e: Entry)
    requires Inside(p, |mem|, e) && Stored(mem, p, e, |Stores(p, e)|)
    ensures var at := if p.Padded? then 0 else p.head;
            mem[at..at + HDR + |e.payload|] == EntryBytes(e)
  {
    hide EntryBytes, PadBytes;
    var at, n, q := if p.Padded? then 0 else p.head, |EntryBytes(e)|, |PadBytes(p)|;
    var got := mem[at..at + n];
    forall j | 0 <= j < n
      ensures got[j] == EntryBytes(e)[j]
    {
      assert StoreOffset(p, q + j) == at + j;
      assert Stores(p, e)[q + j] == EntryBytes(e)[j];
    }
  }

  lemma PadStored(mem: seq<Byte>, p: Placement, e: Entry)
    requires Inside(p, |mem|, e) && Stored(mem, p, e, |Stores(p, e)|) && p.Padded?
    ensures mem[p.head..p.head + HDR] == PadBytes(p)
  {
    hide EntryBytes, PadBytes;
    var got := mem[p.head..p.head + HDR];
    forall j | 0 <= j < HDR
      ensures got[j] == PadBytes(p)[j]
    {
      assert StoreOffset(p, j) == p.head + j;
      assert Stores(p, e)[j] == PadBytes(p)[j];
    }
  }

  /** Once every byte is stored, the positions ahead of the producer read as the pad, if any, and the entry. */
  lemma AllStored(mem: seq<Byte>, prod: nat, seen: nat, e: Entry)
    requires 0 < |mem| && seen <= prod && Sendable(e)
    requires var p := Plan(|mem|, prod, seen, e); Inside(p, |mem|, e) && Stored(mem, p, e, |Stores(p, e)|)
    ensures Laid(mem, prod, Plan(|mem|, prod, seen, e), e)
  {
    hide Place, RecordAt, EntryBytes, HeaderBytes, Stored, Stores, EntryTotal, Sendable;
    var p := Plan(|mem|, prod, seen, e);
    EntryStored(mem, p, e);
    if p.Padded? {
      PadStored(mem, p, e);
      ReadPad(mem, p.head, p.pad - HDR);
      ReadEntry(mem, 0, e);
      Modular.NextBoundary(prod, |mem|);
    } else {
      ReadEntry(mem, p.head, e);
    }
  }

  lemma PublishQueue(w: World)
    requires Inv(w) && Enabled(w, PublishProd)
    ensures var w' := Do(w, PublishProd); QueueInv(w'.mem, w'.prod, w'.cons, w'.pushed, w'.out)
  {
    hide Stored, Stores, Place, Laid, Decode, ConsumerInv, EntryTotal;
    var e := w.p.entry;
    var p := Plan(|w.mem|, w.prod, w.p.seen, e);
    AllStored(w.mem, w.prod, w.p.seen, e);
    RingQueue.AdvanceAligned(|w.mem|, w.prod, w.p.seen, Total(e));
    hide Aligned;
    PublishAppends(w.mem, w.cons, w.prod, p, e);
    assert w.out + (Decode(w.mem, w.cons, w.prod).value + [e]) == w.out + Decode(w.mem, w.cons, w.prod).value + [e];
  }

  // ---------------------------------------------------------------- the consumer's loads

  /** An unconsumed record never reaches past the producer position, and never past the ring's end. */
  lemma Pending(mem: seq<Byte>, prod: nat, cons: nat)
    requires 0 < |mem| && cons < prod && Decode(mem, cons, prod).Some?
    ensures var s := ReadAt(mem, cons); !s.Bad? && cons + s.advance <= prod
    ensures Head(cons, |mem|) + HDR <= |mem|
  {
  }

  lemma HeaderKept(mem: seq<Byte>, m: seq<Byte>, prod: nat, cons: nat)
    requires 0 < |mem| && cons < prod && Decode(mem, cons, prod).Some? && Agree(mem, m, cons, prod)
    ensures var h := Head(cons, |mem|); |m| == |mem| && h + HDR <= |mem| && mem[h..h + HDR] == m[h..h + HDR]
  {
    Pending(mem, prod, cons);
    SliceAgree(mem, m, cons, prod, 0, HDR);
  }

  lemma PayloadKept(mem: seq<Byte>, m: seq<Byte>, prod: nat, cons: nat, c: Consumer)
    requires 0 < |mem| && cons <= prod && Decode(mem, cons, prod).Some? && Agree(mem, m, cons, prod)
    requires ConsumerInv(mem, prod, cons, c) && c.CPayload?
    ensures var h, n := Head(cons, |mem|) + HDR, |c.got|; mem[h..h + n] == m[h..h + n]
  {
    hide Decode, ReadAt, Cell, ParseHeader;
    Pending(mem, prod, cons);
    PendingPayload(mem, cons, c.hdr);
    SliceAgree(mem, m, cons, prod, HDR, |c.got|);
  }

  lemma PendingPayload(mem: seq<Byte>, cons: nat, hdr: Header)
    requires 0 < |mem| && Head(cons, |mem|) + HDR <= |mem| && !ReadAt(mem, cons).Bad?
    requires var h := Head(cons, |mem|); hdr == ParseHeader(mem[h..h + HDR]) && hdr.kind != KIND_PAD
    ensures ReadAt(mem, cons).advance == EntryTotal(hdr.len)
  {
    hide ParseHeader, EntryTotal;
  }

  /** Changing bytes outside the unconsumed stretch does not disturb what the consumer has loaded. */
  lemma LoadedKept(mem: seq<Byte>, m: seq<Byte>, prod: nat, cons: nat, c: Consumer)
    requires 0 < |mem| && cons <= prod && Decode(mem, cons, prod).Some? && Agree(mem, m, cons, prod)
    requires ConsumerInv(mem, prod, cons, c)
    ensures ConsumerInv(m, prod, cons, c)
  {
    hide Decode, ParseHeader, EntryTotal, Head, Cell;
    match c
    case CHeader(got) =>
      HeaderKept(mem, m, prod, cons);
      hide Agree;
      var h := Head(cons, |mem|);
      assert got == mem[h..h + HDR][..|got|];
      assert m[h..h + |got|] == m[h..h + HDR][..|got|];
    case CPayload(hdr, got) =>
      HeaderKept(mem, m, prod, cons);
      PayloadKept(mem, m, prod, cons, c);
    case _ =>
  }

  /** Moving the consumer over the pending record takes its entry, if it has one, off the queue. */
  lemma TakePending(mem: seq<Byte>, prod: nat, cons: nat, pushed: seq<Entry>, out: seq<Entry>)
    requires QueueInv(mem, prod, cons, pushed, out) && cons < prod
    ensures var s := ReadAt(mem, cons); !s.Bad? && QueueInv(mem, prod, cons + s.advance, pushed, out + Entries(s))
  {
    hide ReadAt, Aligned, Entries;
    var s := ReadAt(mem, cons);
    var rest := Decode(mem, cons + s.advance, prod).value;
    assert out + (Entries(s) + rest) == out + Entries(s) + rest;
  }

  // ---------------------------------------------------------------- every step keeps the invariant

  lemma DecideKeeps(w: World)
    requires Inv(w) && Enabled(w, Decide)
    ensures Inv(Do(w, Decide))
  {
    hide Decode, ConsumerInv, Stores, Place;
    if Plan(|w.mem|, w.prod, w.p.seen, w.p.entry).Accepted() {
      RingQueue.PlacedInside(|w.mem|, w.prod, w.p.seen, w.p.entry);
    }
  }

  lemma StoreKeepsInv(w: World)
    requires Inv(w) && Enabled(w, StoreByte)
    ensures Inv(Do(w, StoreByte)) && Agree(w.mem, Do(w, StoreByte).mem, w.cons, w.prod)
  {
    hide ConsumerInv, ProducerInv, Aligned, Agree;
    StoreKeepsQueue(w);
    StoreExtends(w);
    var m := Do(w, StoreByte).mem;
    DecodeFrame(w.mem, m, w.cons, w.prod);
    LoadedKept(w.mem, m, w.prod, w.cons, w.c);
  }

  lemma ProducedKeepsConsumer(mem: seq<Byte>, prod: nat, later: nat, cons: nat, c: Consumer)
    requires 0 < |mem| && ConsumerInv(mem, prod, cons, c) && prod <= later
    ensures ConsumerInv(mem, later, cons, c)
  {
    hide Head, ParseHeader, EntryTotal;
  }

  lemma PublishKeeps(w: World)
    requires Inv(w) && Enabled(w, PublishProd)
    ensures Inv(Do(w, PublishProd))
  {
    hide QueueInv, ConsumerInv, Stores, Stored, Plan;
    var w' := Do(w, PublishProd);
    PublishQueue(w);
    ProducedKeepsConsumer(w.mem, w.prod, w'.prod, w.cons, w.c);
  }

  lemma LookKeeps(w: World)
    requires Inv(w) && Enabled(w, Look)
    ensures Inv(Do(w, Look))
  {
    hide Decode, ProducerInv, Head, Aligned;
    if w.cons < w.prod {
      Pending(w.mem, w.prod, w.cons);
    }
  }

  lemma LoadHeaderKeeps(w: World)
    requires Inv(w) && Enabled(w, LoadHeaderByte)
    ensures Inv(Do(w, LoadHeaderByte))
  {
    hide QueueInv, ProducerInv, Head;
    var h, n := Head(w.cons, |w.mem|), |w.c.got|;
    SliceSnoc(w.mem, h, n);
  }

  lemma LoadPayloadKeeps(w: World)
    requires Inv(w) && Enabled(w, LoadPayloadByte)
    ensures Inv(Do(w, LoadPayloadByte))
  {
    hide QueueInv, ProducerInv, Head, ParseHeader, EntryTotal;
    var h, n := Head(w.cons, |w.mem|) + HDR, |w.c.got|;
    SliceSnoc(w.mem, h, n);
  }

  lemma ConsumedKeepsProducer(mem: seq<Byte>, prod: nat, cons: nat, later: nat, p: Producer)
    requires 0 < |mem| && ProducerInv(mem, prod, cons, p) && cons <= later <= prod
    ensures ProducerInv(mem, prod, later, p)
  {
  }

  /** A complete header is the pending record's header, so it announces no overrun. */
  lemma JudgeKeeps(w: World)
    requires Inv(w) && Enabled(w, JudgeHeader)
    ensures Inv(Do(w, JudgeHeader))
  {
    hide ProducerInv, ParseHeader, EntryTotal, Aligned, Decode;
    var w' := Do(w, JudgeHeader);
    TakePending(w.mem, w.prod, w.cons, w.pushed, w.out);
    var h := Head(w.cons, |w.mem|);
    assert w.c.got == w.mem[h..h + HDR];
    assert w.out + [] == w.out;
    ConsumedKeepsProducer(w.mem, w.prod, w.cons, w'.cons, w.p);
  }

  /** What the consumer hands out is the pending record's entry. */
  lemma PublishConsKeeps(w: World)
    requires Inv(w) && Enabled(w, PublishCons)
    ensures Inv(Do(w, PublishCons))
  {
    hide ProducerInv, ParseHeader, EntryTotal, Aligned, Decode;
    var w' := Do(w, PublishCons);
    TakePending(w.mem, w.prod, w.cons, w.pushed, w.out);
    ConsumedKeepsProducer(w.mem, w.prod, w.cons, w'.cons, w.p);
  }

  /**
   * Every step, from any state the invariant allows and with whatever stale positions the threads hold,
   * keeps the invariant and writes no byte between the consumer and the producer position.
   */
  lemma StepIsSafe(w: World, a: Action)
    requires Inv(w) && Enabled(w, a)
    ensures Inv(Do(w, a)) && Agree(w.mem, Do(w, a).mem, w.cons, w.prod)
  {
    match a
    case BeginPush(e) => hide QueueInv, ConsumerInv;
    case Decide => DecideKeeps(w); hide Inv;
    case StoreByte => StoreKeepsInv(w);
    case PublishProd => PublishKeeps(w); hide Inv;
    case Look => LookKeeps(w); hide Inv;
    case LoadHeaderByte => LoadHeaderKeeps(w); hide Inv;
    case JudgeHeader => JudgeKeeps(w); hide Inv;
    case LoadPayloadByte => LoadPayloadKeeps(w); hide Inv;
    case PublishCons => PublishConsKeeps(w); hide Inv;
  }

  /** Where each thread stands in its code, without the bounds that make its accesses legal. */
  predicate AtPoint(w: World, a: Action) {
    match a
    case BeginPush(e) => w.p.PIdle? && Sendable(e)
    case Decide => w.p.PLoaded?
    case StoreByte => w.p.PWriting?
    case PublishProd => w.p.PWriting?
    case Look => w.c.CIdle?
    case LoadHeaderByte => w.c.CHeader? && |w.c.got| < HDR
    case JudgeHeader => w.c.CHeader? && |w.c.got| == HDR
    case LoadPayloadByte => w.c.CPayload? && |w.c.got| < w.c.hdr.len
    case PublishCons => w.c.CPayload? && |w.c.got| == w.c.hdr.len
  }

  /** Every access a thread is about to make is in bounds: neither thread is ever stuck on a bad offset. */
  lemma NeverBlocked(w: World, a: Action)
    requires Inv(w) && AtPoint(w, a)
    ensures if a.StoreByte? || a.PublishProd? then Enabled(w, StoreByte) || Enabled(w, PublishProd) else Enabled(w, a)
  {
    hide Decode, Aligned, Head, Plan, Stores, ParseHeader;
  }

  /**
   * A push goes on to its stores exactly when its entry fits the ring, judged by the producer position and by the
   * consumer position it loaded; a stale consumer position can only refuse it.
   */
  lemma StoresIffRoom(w: World, a: Action)
    requires Enabled(w, a) && (a.BeginPush? || a.Decide?)
    ensures a.BeginPush? ==>
              Do(w, a).p == if EntryTotal(|a.entry.payload|) <= |w.mem| then PLoaded(a.entry, w.cons) else PIdle
    ensures a.Decide? ==>
              var fits := HasRoom(|w.mem|, w.prod, w.p.seen, EntryTotal(|w.p.entry.payload|));
              Do(w, a).p == if fits then PWriting(w.p.entry, w.p.seen, 0) else PIdle
  {
    hide Place, HasRoom;
    if a.Decide? {
      PlacedIffRoom(|w.mem|, w.prod, w.p.seen, Total(w.p.entry));
    }
  }

  function Start(mem: seq<Byte>): World {
    World(mem, 0, 0, PIdle, CIdle, [], [])
  }

  ghost predicate Interleaving(w: World, actions: seq<Action>, last: World)
    decreases |actions|
  {
    if |actions| == 0 then w == last else Enabled(w, actions[0]) && Interleaving(Do(w, actions[0]), actions[1..], last)
  }

  lemma {:induction false} InterleavingKeepsInv(w: World, actions: seq<Action>, last: World)
    requires Inv(w) && Interleaving(w, actions, last)
    ensures Inv(last)
    decreases |actions|
  {
    hide Inv, Enabled, Do;
    if |actions| > 0 {
      StepIsSafe(w, actions[0]);
      InterleavingKeepsInv(Do(w, actions[0]), actions[1..], last);
    }
  }

  /**
   * In every interleaving from empty rings of any contents, the entries taken are a prefix of the entries
   * published, the rest is what the bytes in between read as, and no overrun is ever seen.
   */
  lemma EveryInterleavingIsFifo(mem: seq<Byte>, actions: seq<Action>, last: World)
    requires 0 < |mem| && |mem| % 16 == 0 && Interleaving(Start(mem), actions, last)
    ensures last.cons <= last.prod
    ensures last.out <= last.pushed && !last.c.COverrun?
    ensures 0 < |last.mem| && Decode(last.mem, last.cons, last.prod) == Some(last.pushed[|last.out|..])
  {
    InterleavingKeepsInv(Start(mem), actions, last);
    hide Decode, ProducerInv, Interleaving;
    assert last.pushed[|last.out|..] == Decode(last.mem, last.cons, last.prod).value;
  }
}
