/**
 * Pushing to and consuming from one ring, as functions on its state, and the
 * queue of entries that any run of them behaves like.
 */
module RingQueue {
  import opened Bytes
  import opened RingSpec
  import Modular

  datatype RingState = RingState(mem: seq<Byte>, prod: nat, cons: nat)

  /** Positions stay within one lap, the producer stays aligned, and the bytes in between read as a queue. */
  ghost predicate Valid(s: RingState) {
    && 0 < |s.mem| && |s.mem| % 16 == 0 && s.prod % 16 == 0
    && s.cons <= s.prod <= s.cons + |s.mem|
    && Decode(s.mem, s.cons, s.prod).Some?
  }

  ghost function Queue(s: RingState): seq<Entry>
    requires Valid(s)
  {
    Decode(s.mem, s.cons, s.prod).value
  }

  ghost function Placing(s: RingState, e: Entry): Placement
    requires Valid(s)
  {
    Place(|s.mem|, s.prod, s.cons, EntryTotal(|e.payload|))
  }

  /** An aligned producer always has a whole header's room before the ring's end. */
  lemma HeadRoom(len: nat, pos: nat)
    requires 0 < len && len % 16 == 0 && pos % 16 == 0
    ensures (pos % len) % 16 == 0 && pos % len + HDR <= len
  {
    Modular.Aligned(pos, len, 16);
    Modular.Room(pos % len, len, 16);
  }

  /** No accepted entry crosses the ring's end, and a needed pad has room for its own header. */
  lemma PlacedInside(len: nat, prod: nat, cons: nat, e: Entry)
    requires 0 < len && len % 16 == 0 && prod % 16 == 0 && cons <= prod
    requires Place(len, prod, cons, EntryTotal(|e.payload|)).Accepted()
    ensures Inside(Place(len, prod, cons, EntryTotal(|e.payload|)), len, e)
  {
    hide Place;
    HeadRoom(len, prod);
  }

  ghost function Pushed(s: RingState, e: Entry): (r: RingState)
    requires Valid(s) && Placing(s, e).Accepted()
  {
    var total := EntryTotal(|e.payload|);
    var p := Placing(s, e);
    PlacedInside(|s.mem|, s.prod, s.cons, e);
    RingState(Written(s.mem, p, e), s.prod + Advance(p, total), s.cons)
  }

  lemma LaidDirect(mem: seq<Byte>, h: nat, e: Entry)
    requires Sendable(e) && h + EntryTotal(|e.payload|) <= |mem|
    ensures RecordAt(Store(mem, h, EntryBytes(e)), h) == Take(e, EntryTotal(|e.payload|))
  {
    var m := Store(mem, h, EntryBytes(e));
    assert m[h..h + |EntryBytes(e)|] == EntryBytes(e);
    ReadEntry(m, h, e);
  }

  lemma LaidPad(mem: seq<Byte>, h: nat, e: Entry)
    requires |EntryBytes(e)| <= h && h + HDR <= |mem|
    ensures var hdr := HeaderBytes(KIND_PAD, |mem| - h - HDR, 0);
            RecordAt(Store(Store(mem, h, hdr), 0, EntryBytes(e)), h) == Skip(|mem| - h)
  {
    hide Store, EntryBytes, HeaderBytes, RecordAt;
    var hdr := HeaderBytes(KIND_PAD, |mem| - h - HDR, 0);
    StoreSlice(mem, h, hdr, 0, 0);
    StoreSlice(Store(mem, h, hdr), 0, EntryBytes(e), h, h + HDR);
    ReadPad(Store(Store(mem, h, hdr), 0, EntryBytes(e)), h, |mem| - h - HDR);
  }

  lemma WrittenLaid(s: RingState, e: Entry)
    requires Valid(s) && Sendable(e) && Placing(s, e).Accepted()
    ensures Laid(Pushed(s, e).mem, s.prod, Placing(s, e), e)
  {
    hide Decode, RecordAt, Store, EntryBytes, HeaderBytes;
    HeadRoom(|s.mem|, s.prod);
    var p := Placing(s, e);
    if p.Padded? {
      LaidPad(s.mem, p.head, e);
      Modular.NextBoundary(s.prod, |s.mem|);
      LaidDirect(Store(s.mem, p.head, HeaderBytes(KIND_PAD, p.pad - HDR, 0)), 0, e);
    } else {
      LaidDirect(s.mem, p.head, e);
    }
  }

  lemma WrittenKeeps(s: RingState, e: Entry)
    requires Valid(s) && Placing(s, e).Accepted()
    ensures Agree(s.mem, Pushed(s, e).mem, s.cons, s.prod)
  {
    hide Decode, Store, Cell, HeaderBytes, EntryBytes;
    HeadRoom(|s.mem|, s.prod);
    var p := Placing(s, e);
    if p.Padded? {
      var hdr := HeaderBytes(KIND_PAD, p.pad - HDR, 0);
      StoreKeeps(s.mem, s.prod, hdr, s.cons, s.prod);
      Modular.NextBoundary(s.prod, |s.mem|);
      StoreKeeps(Store(s.mem, p.head, hdr), s.prod + p.pad, EntryBytes(e), s.cons, s.prod);
    } else {
      StoreKeeps(s.mem, s.prod, EntryBytes(e), s.cons, s.prod);
    }
  }

  lemma AdvanceAligned(len: nat, prod: nat, cons: nat, total: nat)
    requires 0 < len && len % 16 == 0 && prod % 16 == 0 && cons <= prod && 0 < total && total % 16 == 0
    requires Place(len, prod, cons, total).Accepted()
    ensures (prod + Advance(Place(len, prod, cons, total), total)) % 16 == 0
  {
    var p := Place(len, prod, cons, total);
    if p.Padded? {
      var lap := prod + (len - prod % len);
      Modular.LapAligned(prod, len, 16);
      assert prod + Advance(p, total) == lap + total;
      hide Place;
      Modular.Sum(lap, total, 16);
    } else {
      Modular.Sum(prod, total, 16);
    }
  }

  /** An accepted push appends its entry to the queue and leaves every pending byte alone. */
  lemma PushAppends(s: RingState, e: Entry)
    requires Valid(s) && Sendable(e) && Placing(s, e).Accepted()
    ensures Valid(Pushed(s, e)) && Queue(Pushed(s, e)) == Queue(s) + [e]
  {
    hide Place, Written, Laid, Agree, Decode;
    var r, p := Pushed(s, e), Placing(s, e);
    AdvanceAligned(|s.mem|, s.prod, s.cons, EntryTotal(|e.payload|));
    WrittenKeeps(s, e);
    WrittenLaid(s, e);
    DecodeFrame(s.mem, r.mem, s.cons, s.prod);
    PublishAppends(r.mem, s.cons, s.prod, p, e);
  }

  lemma {:induction false} DecodedSendable(mem: seq<Byte>, cons: nat, prod: nat)
    requires 0 < |mem| && cons <= prod && Decode(mem, cons, prod).Some?
    ensures forall e :: e in Decode(mem, cons, prod).value ==> Sendable(e)
    decreases prod - cons
  {
    if cons < prod {
      DecodedSendable(mem, cons + ReadAt(mem, cons).advance, prod);
    }
  }

  /** An accepted push delivers its entry exactly when the kind is not the pad kind and 32 bits hold the length. */
  lemma PushDeliversIff(s: RingState, e: Entry)
    requires Valid(s) && Placing(s, e).Accepted()
    ensures Sendable(e) <==> Valid(Pushed(s, e)) && Queue(Pushed(s, e)) == Queue(s) + [e]
  {
    var r := Pushed(s, e);
    if Sendable(e) {
      PushAppends(s, e);
    } else if Valid(r) {
      hide Pushed;
      DecodedSendable(r.mem, r.cons, r.prod);
      assert e in Queue(s) + [e];
    }
  }

  lemma PadKindSkipped(mem: seq<Byte>, n: nat, tag: U64)
    requires HDR <= |mem| && mem[0..HDR] == HeaderBytes(KIND_PAD, n, tag)
    ensures RecordAt(mem, 0) == Skip(|mem|)
  {
    hide ToLe, FromLe;
    var b := HeaderBytes(KIND_PAD, n, tag);
    assert b[0..4] == ToLe(KIND_PAD, 4);
    Widths();
    LeRoundTrip(KIND_PAD, 4);
  }

  /** An entry of the pad kind that fills a fresh ring is accepted and never seen again. */
  lemma PadKindVanishes(mem: seq<Byte>, tag: U64, payload: seq<Byte>)
    requires |mem| % 16 == 0 && HDR + |payload| == |mem|
    ensures var s, e := RingState(mem, 0, 0), Entry(KIND_PAD, tag, payload);
            && Valid(s) && Placing(s, e).Accepted()
            && Valid(Pushed(s, e)) && Queue(Pushed(s, e)) == [] && Pushed(s, e).prod == |mem|
  {
    hide HeaderBytes, RecordAt;
    var s, e := RingState(mem, 0, 0), Entry(KIND_PAD, tag, payload);
    assert EntryTotal(|payload|) == |mem| && 0 % |mem| == 0;
    assert Placing(s, e) == Direct(0);
    var m := Pushed(s, e).mem;
    assert m == Store(mem, 0, EntryBytes(e));
    StoreSlice(mem, 0, EntryBytes(e), 0, 0);
    assert m[0..HDR] == HeaderBytes(KIND_PAD, |payload|, tag);
    PadKindSkipped(m, |payload|, tag);
    assert Decode(m, |mem|, |mem|) == Some([]);
  }

  // ---------------------------------------------------------------- consuming

  ghost function Consumed(s: RingState): RingState
    requires Valid(s) && s.cons < s.prod
  {
    s.(cons := s.cons + ReadAt(s.mem, s.cons).advance)
  }

  /** On a valid ring the consumer's overrun check never fires, and one record is one queue step. */
  lemma ConsumeOne(s: RingState)
    requires Valid(s) && s.cons < s.prod
    ensures var r := ReadAt(s.mem, s.cons);
            !r.Bad? && Valid(Consumed(s)) && Queue(s) == Entries(r) + Queue(Consumed(s))
  {
    hide ReadAt, Entries;
  }

  lemma EmptyQueue(s: RingState)
    requires Valid(s) && s.cons == s.prod
    ensures Queue(s) == []
  {
  }

  predicate Matches(wanted: Option<U64>, e: Entry) {
    wanted.None? || wanted.value == e.tag
  }

  datatype Polled = Polled(state: RingState, dropped: seq<Entry>, found: Option<Entry>)

  /** `poll_rsp` with its deadline as a bound on loop rounds: pads and foreign entries are consumed on the way. */
  ghost function Poll(s: RingState, wanted: Option<U64>, budget: nat): Polled
    requires Valid(s)
    decreases budget
  {
    if budget == 0 || s.cons == s.prod then
      Polled(s, [], None)
    else
      ConsumeOne(s);
      var r := ReadAt(s.mem, s.cons);
      if r.Take? && Matches(wanted, r.entry) then
        Polled(Consumed(s), [], Some(r.entry))
      else
        var rest := Poll(Consumed(s), wanted, budget - 1);
        rest.(dropped := Entries(r) + rest.dropped)
  }

  function Opt(o: Option<Entry>): seq<Entry> {
    if o.Some? then [o.value] else []
  }

  /** Polling removes a prefix of the queue: entries of other requests, then the wanted one. */
  lemma {:induction false} PollMeaning(s: RingState, wanted: Option<U64>, budget: nat)
    requires Valid(s)
    ensures var r := Poll(s, wanted, budget);
            && Valid(r.state)
            && Queue(s) == r.dropped + Opt(r.found) + Queue(r.state)
            && (forall e :: e in r.dropped ==> wanted.Some? && e.tag != wanted.value)
            && (r.found.Some? && wanted.Some? ==> r.found.value.tag == wanted.value)
            && (r.found.None? && s.prod - s.cons <= 16 * budget ==> Queue(r.state) == [])
    decreases budget
  {
    hide ReadAt;
    if budget == 0 || s.cons == s.prod {
      assert [] + [] + Queue(s) == Queue(s);
    } else {
      ConsumeOne(s);
      hide Valid, Queue, Entries;
      var r := ReadAt(s.mem, s.cons);
      if r.Take? && Matches(wanted, r.entry) {
        assert [] + [r.entry] + Queue(Consumed(s)) == Entries(r) + Queue(Consumed(s)) by { EntriesOf(r); }
      } else {
        PollMeaning(Consumed(s), wanted, budget - 1);
        var rest := Poll(Consumed(s), wanted, budget - 1);
        PollStep(Entries(r), rest.dropped, Opt(rest.found), Queue(rest.state));
        EntriesOf(r);
      }
    }
  }

  lemma EntriesOf(r: Step)
    ensures Entries(r) == if r.Take? then [r.entry] else []
  {
  }

  lemma PollStep(a: seq<Entry>, b: seq<Entry>, c: seq<Entry>, d: seq<Entry>)
    ensures a + (b + c + d) == (a + b) + c + d
  {
  }

  // ---------------------------------------------------------------- runs

  datatype Op = Push(entry: Entry) | Drain | PollFor(wanted: Option<U64>, budget: nat)

  predicate Allowed(op: Op) {
    op.Push? ==> Sendable(op.entry)
  }

  /** A ring together with the entries that went in and the entries that came out so far. */
  datatype History = History(state: RingState, accepted: seq<Entry>, removed: seq<Entry>)

  ghost function Apply(h: History, op: Op): History
    requires Valid(h.state)
  {
    match op
    case Push(e) =>
      if Placing(h.state, e).Accepted() then
        h.(state := Pushed(h.state, e), accepted := h.accepted + [e])
      else
        h
    case Drain =>
      h.(state := h.state.(cons := h.state.prod), removed := h.removed + Queue(h.state))
    case PollFor(wanted, budget) =>
      var r := Poll(h.state, wanted, budget);
      h.(state := r.state, removed := h.removed + r.dropped + Opt(r.found))
  }

  ghost predicate Fifo(h: History) {
    Valid(h.state) && h.removed + Queue(h.state) == h.accepted
  }

  lemma ApplyKeepsFifo(h: History, op: Op)
    requires Fifo(h) && Allowed(op)
    ensures Fifo(Apply(h, op))
  {
    hide Pushed, Placing, Poll;
    match op
    case Push(e) =>
      if Placing(h.state, e).Accepted() {
        PushAppends(h.state, e);
        hide Valid, Queue;
        assert h.removed + (Queue(h.state) + [e]) == h.removed + Queue(h.state) + [e];
      }
    case Drain =>
      assert h.removed + Queue(h.state) + [] == h.accepted;
    case PollFor(wanted, budget) =>
      PollMeaning(h.state, wanted, budget);
      hide Valid, Queue;
      var r := Poll(h.state, wanted, budget);
      assert h.removed + (r.dropped + Opt(r.found) + Queue(r.state))
          == h.removed + r.dropped + Opt(r.found) + Queue(r.state);
  }

  ghost predicate Runs(h: History, ops: seq<Op>, last: History)
    decreases |ops|
  {
    if |ops| == 0 then h == last else Valid(h.state) && Runs(Apply(h, ops[0]), ops[1..], last)
  }

  /** Over any run, what came out followed by what is still queued is what was accepted, in order. */
  lemma {:induction false} RunIsFifo(h: History, ops: seq<Op>, last: History)
    requires Fifo(h) && Runs(h, ops, last)
    requires forall i :: 0 <= i < |ops| ==> Allowed(ops[i])
    ensures Fifo(last)
    decreases |ops|
  {
    if |ops| > 0 {
      ApplyKeepsFifo(h, ops[0]);
      hide Apply, Fifo;
      RunIsFifo(Apply(h, ops[0]), ops[1..], last);
    }
  }
}
