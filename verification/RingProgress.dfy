/** When a push can make progress, and what the 64-bit counters may wrap over. */
module RingProgress {
  import opened Bytes
  import opened RingSpec
  import opened RingQueue
  import Modular

  /** On a drained ring only the larger of the two stretches around the head counts. */
  lemma DrainedAccepts(len: nat, pos: nat, total: nat)
    requires 0 < len && 0 < total
    ensures Place(len, pos, pos, total).Accepted() <==> total <= len - pos % len || total <= pos % len
  {
  }

  ghost predicate AlwaysAccepted(len: nat, total: nat)
    requires 0 < len && 0 < total
  {
    forall pos: nat :: pos % 16 == 0 ==> Place(len, pos, pos, total).Accepted()
  }

  /** The head offset at which an entry of more than half the ring is refused. */
  function StuckHead(len: nat, total: nat): nat {
    if total <= len then len - total + 16 else 0
  }

  /** Sixteen-byte steps leave no total between half the ring and half the ring plus one step. */
  lemma StuckRange(len: nat, total: nat)
    requires len % 32 == 0 && total % 16 == 0 && len < 2 * total && total <= len
    ensures var pos := len - total + 16; pos % 16 == 0 && pos < len && pos < total && len - pos < total
  {
    var h, t := len / 32, total / 16;
    assert len == 32 * h && total == 16 * t;
    assert len - total + 16 == 16 * (2 * h - t + 1);
  }

  lemma LargeRefused(len: nat, total: nat)
    requires 0 < len && len % 32 == 0 && total % 16 == 0 && len < 2 * total
    ensures var pos := StuckHead(len, total); pos % 16 == 0 && !Place(len, pos, pos, total).Accepted()
  {
    hide Place;
    var pos := StuckHead(len, total);
    if total <= len {
      StuckRange(len, total);
    }
    Modular.Unique(pos, 0, pos, len);
    DrainedAccepts(len, pos, total);
  }

  /**
   * A drained ring accepts an entry at every head offset exactly when the entry takes at most half the ring.
   */
  lemma HalfRingBound(len: nat, total: nat)
    requires 0 < len && len % 32 == 0 && 0 < total && total % 16 == 0
    ensures AlwaysAccepted(len, total) <==> 2 * total <= len
  {
    hide Place;
    if 2 * total <= len {
      forall pos: nat | pos % 16 == 0
        ensures Place(len, pos, pos, total).Accepted()
      {
        DrainedAccepts(len, pos, total);
      }
    } else {
      LargeRefused(len, total);
    }
  }

  // ---------------------------------------------------------------- reachability

  function Fresh(mem: seq<Byte>): History {
    History(RingState(mem, 0, 0), [], [])
  }

  lemma {:induction false} RunsSnoc(h: History, ops: seq<Op>, mid: History, op: Op)
    requires Runs(h, ops, mid) && Valid(mid.state)
    ensures Runs(h, ops + [op], Apply(mid, op))
    decreases |ops|
  {
    hide Apply, Valid;
    var all := ops + [op];
    if |ops| == 0 {
      assert all == [op] && all[1..] == [];
    } else {
      RunsSnoc(Apply(h, ops[0]), ops[1..], mid, op);
      assert all[0] == ops[0] && all[1..] == ops[1..] + [op];
    }
  }

  /** An empty entry is accepted on a drained ring, and draining again moves the head by 16 bytes. */
  lemma NudgeHead(h: History, e: Entry)
    requires Fifo(h) && h.state.prod == h.state.cons && Sendable(e) && e.payload == []
    ensures Fifo(Apply(h, Push(e)))
    ensures var g := Apply(Apply(h, Push(e)), Drain);
            Fifo(g) && |g.state.mem| == |h.state.mem| && g.state.prod == g.state.cons == h.state.prod + 16
  {
    hide Decode;
    HeadRoom(|h.state.mem|, h.state.prod);
    DrainedAccepts(|h.state.mem|, h.state.prod, 16);
    ApplyKeepsFifo(h, Push(e));
    ApplyKeepsFifo(Apply(h, Push(e)), Drain);
  }

  lemma FreshRuns(mem: seq<Byte>)
    requires 0 < |mem| && |mem| % 16 == 0
    ensures Runs(Fresh(mem), [], Fresh(mem)) && Fifo(Fresh(mem))
  {
  }

  lemma FifoValid(h: History)
    requires Fifo(h)
    ensures Valid(h.state)
  {
  }

  /** Every aligned head offset of an empty ring is reached by some run. */
  lemma {:induction false} ReachHead(mem: seq<Byte>, k: nat) returns (ops: seq<Op>, last: History)
    requires 0 < |mem| && |mem| % 16 == 0
    ensures Runs(Fresh(mem), ops, last) && Fifo(last)
    ensures forall i :: 0 <= i < |ops| ==> Allowed(ops[i])
    ensures |last.state.mem| == |mem| && last.state.prod == last.state.cons == 16 * k
    decreases k
  {
    hide Apply, Valid, Runs, Fifo, Queue;
    if k == 0 {
      ops, last := [], Fresh(mem);
      FreshRuns(mem);
    } else {
      var before, mid := ReachHead(mem, k - 1);
      var e := Entry(1, 0, []);
      NudgeHead(mid, e);
      FifoValid(mid);
      FifoValid(Apply(mid, Push(e)));
      RunsSnoc(Fresh(mem), before, mid, Push(e));
      RunsSnoc(Fresh(mem), before + [Push(e)], Apply(mid, Push(e)), Drain);
      ops, last := before + [Push(e)] + [Drain], Apply(Apply(mid, Push(e)), Drain);
    }
  }

  /** Retrying a refused push, any number of times, changes nothing. */
  lemma {:induction false} RetryIsFutile(h: History, e: Entry, ops: seq<Op>, last: History)
    requires Valid(h.state) && !Placing(h.state, e).Accepted()
    requires forall i :: 0 <= i < |ops| ==> ops[i] == Push(e)
    requires Runs(h, ops, last)
    ensures last == h
    decreases |ops|
  {
    if |ops| > 0 {
      assert Apply(h, ops[0]) == h;
      hide Valid, Placing;
      RetryIsFutile(h, e, ops[1..], last);
    }
  }

  lemma Sixteenths(n: nat)
    requires n % 16 == 0
    ensures 16 * (n / 16) == n
  {
  }

  lemma StuckRun(mem: seq<Byte>, e: Entry) returns (ops: seq<Op>, last: History)
    requires 0 < |mem| && |mem| % 32 == 0 && |mem| < 2 * EntryTotal(|e.payload|)
    ensures Runs(Fresh(mem), ops, last) && Fifo(last) && Valid(last.state) && Queue(last.state) == []
    ensures forall i :: 0 <= i < |ops| ==> Allowed(ops[i])
    ensures !Placing(last.state, e).Accepted()
  {
    hide Place, Decode, Runs, Allowed, Apply, EntryTotal, StuckHead, Valid, Queue;
    var total := EntryTotal(|e.payload|);
    LargeRefused(|mem|, total);
    var pos := StuckHead(|mem|, total);
    Sixteenths(pos);
    ops, last := ReachHead(mem, pos / 16);
    EmptyQueue(last.state);
  }

  /**
   * For every entry of more than half the ring there is a run that leaves the ring empty and the entry
   * refused; no number of retries on their own ever gets it through.
   */
  lemma LargeEntryStarves(mem: seq<Byte>, e: Entry) returns (ops: seq<Op>, last: History)
    requires 0 < |mem| && |mem| % 32 == 0 && |mem| < 2 * EntryTotal(|e.payload|)
    ensures Runs(Fresh(mem), ops, last) && Fifo(last) && Queue(last.state) == []
    ensures forall i :: 0 <= i < |ops| ==> Allowed(ops[i])
    ensures !Placing(last.state, e).Accepted()
    ensures forall retries: seq<Op>, end: History ::
              (forall i :: 0 <= i < |retries| ==> retries[i] == Push(e)) && Runs(last, retries, end) ==> end == last
  {
    hide Place, EntryTotal, Decode, Valid, Placing, Runs, Allowed, Fifo;
    ops, last := StuckRun(mem, e);
    forall retries: seq<Op>, end: History |
        (forall i :: 0 <= i < |retries| ==> retries[i] == Push(e)) && Runs(last, retries, end)
      ensures end == last
    {
      RetryIsFutile(last, e, retries, end);
    }
  }

  // ---------------------------------------------------------------- counter wrap-around

  const WRAP: nat := 0x1_0000_0000_0000_0000

  function HeadOf(pos: nat, len: nat): nat
    requires 0 < len
  {
    pos % len
  }

  /** Wrapping the 64-bit counters keeps every head offset exactly when the ring length divides 2^64. */
  lemma WrapKeepsHeadsIff(len: nat)
    requires 0 < len
    ensures (forall pos: nat :: HeadOf(pos % WRAP, len) == HeadOf(pos, len)) <==> WRAP % len == 0
  {
    if WRAP % len == 0 {
      forall pos: nat
        ensures HeadOf(pos % WRAP, len) == HeadOf(pos, len)
      {
        var r, k := pos % WRAP, WRAP / len;
        assert pos == WRAP * (pos / WRAP) + r;
        assert WRAP * (pos / WRAP) == len * (k * (pos / WRAP));
        assert len * (k * (pos / WRAP)) + len * (r / len) == len * (k * (pos / WRAP) + r / len);
        Modular.Unique(pos, k * (pos / WRAP) + r / len, r % len, len);
      }
    } else {
      assert HeadOf(WRAP % WRAP, len) == 0;
      assert HeadOf(WRAP, len) != 0;
    }
  }

  /** No two positions less than a ring's length apart share an offset, so no pending byte is overwritten. */
  ghost predicate KeptApart(len: nat)
    requires 0 < len
  {
    forall p: nat, q: nat :: p < q < p + len ==> HeadOf(p % WRAP, len) != HeadOf(q % WRAP, len)
  }

  /**
   * Across the wrap of the 64-bit counters the bytes of a ring stay apart exactly when its length divides 2^64;
   * otherwise the first entry after the wrap is stored over one less than a ring's length before it.
   */
  lemma WrapKeepsApartIff(len: nat)
    requires 0 < len
    ensures KeptApart(len) <==> WRAP % len == 0
  {
    WrapKeepsHeadsIff(len);
    if WRAP % len == 0 {
      forall p: nat, q: nat | p < q < p + len
        ensures HeadOf(p % WRAP, len) != HeadOf(q % WRAP, len)
      {
        assert HeadOf(p % WRAP, len) == HeadOf(p, len) && HeadOf(q % WRAP, len) == HeadOf(q, len);
        Modular.Distinct(p, q, len);
      }
    } else {
      LastLap(len);
    }
  }

  /** The last position of the 64-bit space at offset zero, and the first one after the wrap. */
  lemma LastLap(len: nat)
    requires 0 < len && WRAP % len != 0
    ensures var p := WRAP - WRAP % len;
            0 <= p < WRAP < p + len && HeadOf(p % WRAP, len) == 0 == HeadOf(WRAP % WRAP, len)
  {
    var p := WRAP - WRAP % len;
    assert p == len * (WRAP / len);
    Modular.MulBounds(len, WRAP / len);
    Modular.Unique(p, WRAP / len, 0, len);
    Modular.Unique(p, 0, p, WRAP);
    Modular.Unique(WRAP, 1, 0, WRAP);
    Modular.Unique(0, 0, 0, len);
  }

  /** On a response ring of three pages, the first entry after the wrap and the one a page before it share offset 0. */
  lemma ThreePagesCollide()
    ensures var p := WRAP - 4096;
            p < WRAP < p + 3 * 4096 && HeadOf(p % WRAP, 3 * 4096) == HeadOf(WRAP % WRAP, 3 * 4096)
  {
    assert WRAP % (3 * 4096) == 4096;
    LastLap(3 * 4096);
  }
}
