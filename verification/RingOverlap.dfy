/**
 * What goes wrong when pushes overlap. A push may begin exactly when no other push that can still be accepted is
 * going on: begun at any other time, from any state, it can put its bytes in place of an accepted entry.
 */
module RingOverlap {
  import opened Bytes
  import opened RingSpec
  import opened RingConcurrent
  import opened RingSharedProducers
  import RingQueue

  // ---------------------------------------------------------------- putting runs together

  predicate NoBegins(moves: seq<Move>) {
    forall k :: 0 <= k < |moves| ==> !moves[k].Begin?
  }

  lemma {:induction false} RunsConcat(w: Shared, a: seq<Move>, mid: Shared, b: seq<Move>, last: Shared)
    requires Runs(w, a, mid) && Runs(mid, b, last)
    ensures Runs(w, a + b, last)
    decreases |a|
  {
    hide Allowed, Make;
    if |a| == 0 {
      assert a + b == b;
    } else {
      RunsConcat(Make(w, a[0]), a[1..], mid, b, last);
      assert (a + b)[0] == a[0] && (a + b)[1..] == a[1..] + b;
    }
  }

  lemma RunsOne(w: Shared, m: Move)
    requires Allowed(w, m)
    ensures Runs(w, [m], Make(w, m))
  {
    hide Allowed, Make;
    assert [m][1..] == [];
  }

  lemma RunsThen(w: Shared, a: seq<Move>, mid: Shared, m: Move, last: Shared)
    requires Runs(w, a, mid) && Allowed(mid, m) && last == Make(mid, m)
    ensures Runs(w, a + [m], last)
  {
    hide Allowed, Make, Runs;
    RunsOne(mid, m);
    RunsConcat(w, a, mid, [m], last);
  }

  lemma {:induction false} NoBeginsCareful(w: Shared, moves: seq<Move>, last: Shared)
    requires Runs(w, moves, last) && NoBegins(moves)
    ensures CarefulRun(w, moves, last)
    decreases |moves|
  {
    hide Allowed, Make, AllHarmless;
    if |moves| > 0 {
      NoBeginsCareful(Make(w, moves[0]), moves[1..], last);
    }
  }

  // ---------------------------------------------------------------- the consumer empties the ring

  function NextLoad(c: Consumer): Action {
    match c
    case CIdle => Look
    case CHeader(got) => if |got| < HDR then LoadHeaderByte else JudgeHeader
    case CPayload(hdr, got) => if |got| < hdr.len then LoadPayloadByte else PublishCons
    case COverrun => Look
  }

  function Phase(c: Consumer): nat {
    match c
    case CIdle => 2
    case CHeader(_) => 1
    case _ => 0
  }

  function LoadsLeft(c: Consumer): (n: nat)
  {
    match c
    case CHeader(got) => if |got| < HDR then HDR - |got| else 0
    case CPayload(hdr, got) => if |got| < hdr.len then hdr.len - |got| else 0
    case _ => 0
  }

  predicate Closer(v: Shared, w: Shared) {
    || w.cons < v.cons
    || (w.cons == v.cons && Phase(v.c) < Phase(w.c))
    || (w.cons == v.cons && Phase(v.c) == Phase(w.c) && LoadsLeft(v.c) < LoadsLeft(w.c))
  }

  /** One step of the consumer leads closer to an empty ring and touches nothing a producer holds. */
  lemma ConsumerStep(w: Shared, i: nat) returns (v: Shared)
    requires SoloInv(w, i) && w.cons < w.prod
    ensures var m := Consume(NextLoad(w.c)); Allowed(w, m) && v == Make(w, m) && SoloInv(v, i)
    ensures v == w.(cons := v.cons, c := v.c, out := v.out)
    ensures v.cons <= v.prod && Closer(v, w)
  {
    hide Inv, SoloInv, Total, ParseHeader, EntryTotal, Head, InOrder;
    var m := Consume(NextLoad(w.c));
    InvMeaning(w, i);
    ConsumerWaits(Solo(w, PIdle));
    NeverBlocked(Solo(w, PIdle), NextLoad(w.c));
    v := Make(w, m);
    ConsumeKeeps(w, i, m);
    InvMeaning(v, i);
  }

  lemma ConsumerWaits(w: World)
    requires Inv(w)
    ensures AtPoint(w, NextLoad(w.c)) && (!w.c.CIdle? ==> w.cons < w.prod)
  {
    hide QueueInv, ProducerInv, Head, ParseHeader, EntryTotal;
  }

  lemma {:induction false} Drain(w: Shared, i: nat) returns (moves: seq<Move>, last: Shared)
    requires SoloInv(w, i)
    ensures Runs(w, moves, last) && NoBegins(moves) && SoloInv(last, i) && last.cons == last.prod
    ensures last == w.(cons := last.cons, c := last.c, out := last.out)
    decreases w.prod - w.cons, Phase(w.c), LoadsLeft(w.c)
  {
    hide SoloInv, Allowed, Make, Phase, LoadsLeft, InOrder;
    InvMeaning(w, i);
    if w.cons == w.prod {
      moves, last := [], w;
    } else {
      var v := ConsumerStep(w, i);
      var rest;
      rest, last := Drain(v, i);
      moves := [Consume(NextLoad(w.c))] + rest;
      assert moves[1..] == rest;
    }
  }

  // ---------------------------------------------------------------- a push that can be accepted is

  lemma Accepts(w: Shared, i: nat)
    requires SoloInv(w, i) && w.pushers[i].Loaded? && !Harmless(|w.mem|, w.pushers[i])
    ensures Allowed(w, Settle(i)) && SoloInv(Make(w, Settle(i)), i)
    ensures var q := w.pushers[i];
            Make(w, Settle(i)) == w.(pushers := w.pushers[i := Writing(q.entry, q.at, q.seen, 0)])
  {
    hide Inv, PlanAt, Total, InOrder;
    InvMeaning(w, i);
    SettleKeeps(w, i);
  }

  /** From a drained ring a push that has begun loads, settles, and is accepted if it can be at all. */
  lemma LoadsAndSettles(w: Shared, i: nat) returns (last: Shared)
    requires SoloInv(w, i) && w.pushers[i].Started? && !Harmless(|w.mem|, w.pushers[i]) && w.cons == w.prod
    ensures Runs(w, [LoadCons(i), Settle(i)], last) && SoloInv(last, i)
    ensures last == w.(pushers := w.pushers[i := last.pushers[i]])
    ensures last.pushers[i].Writing? && last.pushers[i].entry == w.pushers[i].entry
  {
    hide Inv, Total, Plan;
    var q := w.pushers[i];
    var v := Make(w, LoadCons(i));
    LoadConsKeeps(w, i);
    Accepts(v, i);
    last := Make(v, Settle(i));
    assert v.pushers[i := last.pushers[i]] == w.pushers[i := last.pushers[i]];
    RunsOne(w, LoadCons(i));
    RunsThen(w, [LoadCons(i)], v, Settle(i), last);
    assert [LoadCons(i)] + [Settle(i)] == [LoadCons(i), Settle(i)];
  }

  /** Whatever it waits for, a push that is not harmless can be brought to its stores. */
  lemma ReachStores(w: Shared, i: nat) returns (moves: seq<Move>, last: Shared)
    requires SoloInv(w, i) && !Harmless(|w.mem|, w.pushers[i])
    ensures Runs(w, moves, last) && NoBegins(moves) && SoloInv(last, i)
    ensures last == w.(cons := last.cons, c := last.c, out := last.out, pushers := w.pushers[i := last.pushers[i]])
    ensures last.pushers[i].Writing? && last.pushers[i].entry == w.pushers[i].entry
  {
    hide Inv, Total, Plan, PlanAt, Runs, Allowed, Make;
    if w.pushers[i].Started? {
      var mid;
      moves, mid := Drain(w, i);
      last := LoadsAndSettles(mid, i);
      RunsConcat(w, moves, mid, [LoadCons(i), Settle(i)], last);
      moves := moves + [LoadCons(i), Settle(i)];
    } else if w.pushers[i].Loaded? {
      Accepts(w, i);
      moves, last := [Settle(i)], Make(w, Settle(i));
      RunsOne(w, Settle(i));
    } else {
      moves, last := [], w;
      RunsNothing(w);
      assert w.pushers[i := w.pushers[i]] == w.pushers;
    }
  }

  lemma RunsNothing(w: Shared)
    ensures Runs(w, [], w)
  {
  }

  // ---------------------------------------------------------------- it stores and publishes

  ghost function StoresLeft(w: Shared, i: nat): int
    requires 0 < |w.mem| && i < |w.pushers| && w.pushers[i].Writing?
  {
    var q := w.pushers[i];
    var p := PlanAt(|w.mem|, q.at, q.seen, q.entry);
    if Inside(p, |w.mem|, q.entry) then |Stores(p, q.entry)| - q.k else 0
  }

  lemma StoresOrPublishes(w: Shared, i: nat)
    requires SoloInv(w, i) && w.pushers[i].Writing?
    ensures Allowed(w, StoreNext(i)) || Allowed(w, PublishNext(i))
  {
    hide Inv, Total, Plan, Stores, Inside;
    LoadedInOrder(w, i);
    NeverBlocked(Solo(w, AsProducer(w.pushers[i])), StoreByte);
  }

  lemma StoreNextMeaning(w: Shared, i: nat)
    requires Allowed(w, StoreNext(i))
    ensures var v := Make(w, StoreNext(i));
            && v == w.(mem := v.mem, pushers := w.pushers[i := w.pushers[i].(k := w.pushers[i].k + 1)])
            && |v.mem| == |w.mem| && 0 <= StoresLeft(v, i) < StoresLeft(w, i)
  {
    hide PlanAt, Stores, Total;
  }

  lemma PublishNextMeaning(w: Shared, i: nat)
    requires Allowed(w, PublishNext(i))
    ensures var v := Make(w, PublishNext(i));
            && v == w.(prod := v.prod, pushers := w.pushers[i := Idle], pushed := w.pushed + [w.pushers[i].entry])
            && w.prod + HDR <= v.prod
  {
    hide PlanAt, Stores;
  }

  lemma AgreeChain(a: seq<Byte>, b: seq<Byte>, c: seq<Byte>, lo: nat, hi: nat)
    requires Agree(a, b, lo, hi) && Agree(b, c, lo, hi)
    ensures Agree(a, c, lo, hi)
  {
    hide Cell;
  }

  lemma {:induction false} Finish(w: Shared, i: nat) returns (moves: seq<Move>, last: Shared)
    requires SoloInv(w, i) && w.pushers[i].Writing?
    ensures Runs(w, moves, last) && NoBegins(moves) && SoloInv(last, i)
    ensures last == w.(mem := last.mem, prod := last.prod, pushers := w.pushers[i := Idle],
                       pushed := w.pushed + [w.pushers[i].entry])
    ensures |last.mem| == |w.mem| && Agree(w.mem, last.mem, w.cons, w.prod) && w.prod + HDR <= last.prod
    decreases StoresLeft(w, i)
  {
    hide Inv, Total, PlanAt, Plan, Allowed, Make, StoresLeft, Cell, InOrder;
    InvMeaning(w, i);
    StoresOrPublishes(w, i);
    if Allowed(w, PublishNext(i)) {
      PublishNextMeaning(w, i);
      PublishNextKeeps(w, i);
      moves, last := [PublishNext(i)], Make(w, PublishNext(i));
      RunsOne(w, PublishNext(i));
    } else {
      StoreNextMeaning(w, i);
      StoreNextKeeps(w, i);
      var v := Make(w, StoreNext(i));
      var rest;
      rest, last := Finish(v, i);
      AgreeChain(w.mem, v.mem, last.mem, w.cons, w.prod);
      moves := [StoreNext(i)] + rest;
      assert moves[1..] == rest;
      assert v.pushers[i := Idle] == w.pushers[i := Idle];
    }
  }

  // ---------------------------------------------------------------- the other push stores over it

  /** An entry of one header, different from `e`. */
  function Other(e: Entry): (o: Entry)
    ensures o != e && |o.payload| == 0 && Total(o) == HDR && (Sendable(e) ==> Sendable(o))
  {
    Entry(e.kind, if e.tag == 0 then 1 else 0, [])
  }

  /** A ring with room for any entry at an aligned position has room for a bare header there. */
  lemma HeaderPlaced(len: nat, at: nat, seen: nat, cons: nat, e: Entry, o: Entry)
    requires 0 < len && len % 16 == 0 && at % 16 == 0 && seen <= cons <= at && Total(o) == HDR
    requires Plan(len, at, seen, e).Accepted()
    ensures PlanAt(len, at, cons, o) == Direct(at % len) && at % len + HDR <= len && at + HDR <= cons + len
  {
    RingQueue.HeadRoom(len, at);
    assert HDR <= Total(e);
  }

  lemma JoinIn(w: Shared, i: nat, j: nat, o: Entry) returns (last: Shared)
    requires SoloInv(w, i) && w.pushers[i].Writing?
    requires j < |w.pushers| && j != i && w.pushers[j] == Started(o, w.prod) && Total(o) == HDR
    ensures Runs(w, [LoadCons(j), Settle(j)], last) && SoloInv(last, i)
    ensures last == w.(pushers := w.pushers[j := Writing(o, w.prod, w.cons, 0)])
    ensures var len := |w.mem|;
            && 0 < len && PlanAt(len, w.prod, w.cons, o) == Direct(w.prod % len) && w.prod % len + HDR <= len
            && w.cons <= w.prod && w.prod + HDR <= w.cons + len
  {
    hide Inv, Total, Plan, PlanAt, InOrder, Runs, Sendable, Stores, StoreOffset, Inside;
    var q := w.pushers[i];
    WritingAccepted(w, i);
    InvMeaning(w, i);
    HeaderPlaced(|w.mem|, w.prod, q.seen, w.cons, q.entry, o);
    var v := Make(w, LoadCons(j));
    last := Make(v, Settle(j));
    assert v.pushers[j := Writing(o, w.prod, w.cons, 0)] == w.pushers[j := Writing(o, w.prod, w.cons, 0)];
    RunsOne(w, LoadCons(j));
    RunsThen(w, [LoadCons(j)], v, Settle(j), last);
    assert [LoadCons(j)] + [Settle(j)] == [LoadCons(j), Settle(j)];
    SoloFrame(w, last, i);
  }

  lemma WritingAccepted(w: Shared, i: nat)
    requires SoloInv(w, i) && w.pushers[i].Writing?
    ensures var q := w.pushers[i];
            && q.seen <= w.cons <= w.prod == q.at && 0 < |w.mem| && Sendable(q.entry)
            && Plan(|w.mem|, w.prod, q.seen, q.entry).Accepted()
  {
    hide Decode, Stores, Stored, Plan, ConsumerInv;
  }

  lemma StoreNothing(mem: seq<Byte>, k: nat)
    requires k <= |mem|
    ensures Store(mem, k, []) == mem
  {
  }

  lemma StoreStep(mem: seq<Byte>, at: nat, k: nat, bs: seq<Byte>)
    requires k < |bs| && at + |bs| <= |mem|
    ensures Store(Store(mem, at + k, [bs[k]]), at + k + 1, bs[k + 1..]) == Store(mem, at + k, bs[k..])
  {
  }

  lemma DirectStores(h: nat, e: Entry)
    ensures Stores(Direct(h), e) == EntryBytes(e)
  {
    hide EntryBytes;
    assert [] + EntryBytes(e) == EntryBytes(e);
  }

  /** A producer that placed its entry without a pad stores all of it, byte by byte. */
  lemma {:induction false} StoreAll(w: Shared, i: nat) returns (moves: seq<Move>)
    requires 0 < |w.mem| && i < |w.pushers| && w.pushers[i].Writing?
    requires var q := w.pushers[i];
             var p := PlanAt(|w.mem|, q.at, q.seen, q.entry);
             p.Direct? && p.head + |EntryBytes(q.entry)| <= |w.mem| && q.k <= |EntryBytes(q.entry)|
    ensures NoBegins(moves)
    ensures var q := w.pushers[i];
            var h, bs := PlanAt(|w.mem|, q.at, q.seen, q.entry).head, EntryBytes(q.entry);
            Runs(w, moves, w.(mem := Store(w.mem, h + q.k, bs[q.k..]), pushers := w.pushers[i := q.(k := |bs|)]))
    decreases |EntryBytes(w.pushers[i].entry)| - w.pushers[i].k
  {
    hide EntryBytes, Total, PlanAt, Stores, Store;
    var q := w.pushers[i];
    var h, bs := PlanAt(|w.mem|, q.at, q.seen, q.entry).head, EntryBytes(q.entry);
    DirectStores(h, q.entry);
    if q.k == |bs| {
      moves := [];
      StoreNothing(w.mem, h + q.k);
      assert bs[q.k..] == [];
      assert w.pushers[i := q] == w.pushers;
    } else {
      var next := Make(w, StoreNext(i));
      var rest := StoreAll(next, i);
      StoreStep(w.mem, h, q.k, bs);
      moves := [StoreNext(i)] + rest;
      assert moves[1..] == rest;
      assert next.pushers[i := q.(k := |bs|)] == w.pushers[i := q.(k := |bs|)];
    }
  }

  // ---------------------------------------------------------------- what the consumer then finds

  /** A longer stretch's queue begins with the queue of its first part. */
  lemma {:induction false} DecodeSplit(mem: seq<Byte>, a: nat, b: nat, c: nat)
    requires 0 < |mem| && a <= b <= c
    requires Decode(mem, a, b).Some? && Decode(mem, a, c).Some?
    ensures Decode(mem, b, c).Some?
    ensures Decode(mem, a, c).value == Decode(mem, a, b).value + Decode(mem, b, c).value
    decreases b - a
  {
    hide ReadAt, Entries;
    if a < b {
      var s := ReadAt(mem, a);
      DecodeSplit(mem, a + s.advance, b, c);
      var q, r := Decode(mem, a + s.advance, b).value, Decode(mem, b, c).value;
      assert Entries(s) + (q + r) == (Entries(s) + q) + r;
    } else {
      assert [] + Decode(mem, b, c).value == Decode(mem, b, c).value;
    }
  }

  /** If the record at `b` is another entry, the queue up to a later position does not go on with `e`. */
  lemma NotNext(mem: seq<Byte>, a: nat, b: nat, c: nat, o: Entry, e: Entry)
    requires 0 < |mem| && a <= b < c && Decode(mem, a, b).Some? && o != e
    requires ReadAt(mem, b).Take? && ReadAt(mem, b).entry == o
    ensures Decode(mem, a, c) != Some(Decode(mem, a, b).value + [e])
  {
    if Decode(mem, a, c).Some? {
      DecodeSplit(mem, a, b, c);
      var q, r := Decode(mem, a, b).value, Decode(mem, b, c).value;
      hide ReadAt;
      assert r[0] == o;
      assert (q + r)[|q|] == o && (q + [e])[|q|] == e;
    }
  }

  /** Storing a header at the old producer position leaves the older queue and puts `o` in front of the rest. */
  lemma StoredOver(mem: seq<Byte>, cons: nat, prod: nat, later: nat, o: Entry, e: Entry)
    requires 0 < |mem| && cons <= prod < later && Decode(mem, cons, prod).Some?
    requires Sendable(o) && Total(o) == HDR == |EntryBytes(o)| && o != e
    requires prod % |mem| + HDR <= |mem| && prod + HDR <= cons + |mem|
    ensures var m := Store(mem, prod % |mem|, EntryBytes(o));
            && Decode(m, cons, later) != Some(Decode(mem, cons, prod).value + [e])
            && ReadAt(m, prod) == Take(o, HDR)
  {
    hide RecordAt, EntryBytes, Store, Cell, Decode;
    var m := Store(mem, prod % |mem|, EntryBytes(o));
    RingQueue.LaidDirect(mem, prod % |mem|, o);
    StoreKeeps(mem, prod, EntryBytes(o), cons, prod);
    DecodeFrame(mem, m, cons, prod);
    NotNext(m, cons, prod, later, o, e);
  }

  // ---------------------------------------------------------------- the theorem

  /** While `i` stores and `j` has begun at the same position: `i` publishes, then `j` stores over its entry. */
  lemma StoreOverRuns(w: Shared, i: nat, j: nat) returns (moves: seq<Move>, done: Shared, last: Shared)
    requires i < |w.pushers| && SoloInv(w, i) && w.pushers[i].Writing? && j < |w.pushers| && j != i
    requires w.pushers[j] == Started(Other(w.pushers[i].entry), w.prod)
    ensures Runs(w, moves, last) && NoBegins(moves)
    ensures 0 < |w.mem| == |done.mem| && Agree(w.mem, done.mem, w.cons, w.prod)
    ensures w.cons <= w.prod && w.prod % |w.mem| + HDR <= |w.mem| && w.prod + HDR <= w.cons + |w.mem|
    ensures last.mem == Store(done.mem, w.prod % |w.mem|, EntryBytes(Other(w.pushers[i].entry)))
    ensures w.prod < last.prod && last.cons == w.cons
    ensures last.pushed == w.pushed + [w.pushers[i].entry] && last.out == w.out
  {
    hide Inv, Total, Plan, PlanAt, Runs, Allowed, Make, EntryBytes, Store, Other, SoloInv, Agree;
    var o := Other(w.pushers[i].entry);
    var joined := JoinIn(w, i, j, o);
    var m1;
    m1, done := Finish(joined, i);
    var over := StoreAll(done, j);
    moves := [LoadCons(j), Settle(j)] + m1;
    RunsConcat(w, [LoadCons(j), Settle(j)], joined, m1, done);
    var q := done.pushers[j];
    var bs := EntryBytes(o);
    assert bs[0..] == bs;
    last := done.(mem := Store(done.mem, w.prod % |w.mem|, bs), pushers := done.pushers[j := q.(k := |bs|)]);
    RunsConcat(w, moves, done, over, last);
    moves := moves + over;
  }

  lemma StoreOver(w: Shared, i: nat, j: nat) returns (moves: seq<Move>, last: Shared)
    requires i < |w.pushers| && SoloInv(w, i) && w.pushers[i].Writing? && j < |w.pushers| && j != i
    requires w.pushers[j] == Started(Other(w.pushers[i].entry), w.prod)
    ensures Runs(w, moves, last) && NoBegins(moves)
    ensures last.pushed == w.pushed + [w.pushers[i].entry] && last.out == w.out
    ensures Broken(last, w.prod, Other(w.pushers[i].entry))
  {
    hide Total, Plan, PlanAt, Runs, EntryBytes, Store, Decode, ReadAt, Other, SoloInv, InOrder, Agree, NoBegins;
    WritingAccepted(w, i);
    InvMeaning(w, i);
    InOrderMeaning(w);
    var e := w.pushers[i].entry;
    var done;
    moves, done, last := StoreOverRuns(w, i, j);
    DecodeFrame(w.mem, done.mem, w.cons, w.prod);
    StoredOver(done.mem, w.cons, w.prod, last.prod, Other(e), e);
    AppendedRest(w.pushed, w.out, e);
  }

  lemma InOrderMeaning(w: Shared)
    requires InOrder(w)
    ensures 0 < |w.mem| && w.cons <= w.prod && w.out <= w.pushed
    ensures Decode(w.mem, w.cons, w.prod) == Some(w.pushed[|w.out|..])
  {
  }

  lemma AppendedRest(pushed: seq<Entry>, out: seq<Entry>, e: Entry)
    requires out <= pushed
    ensures out <= pushed + [e] && (pushed + [e])[|out|..] == pushed[|out|..] + [e]
  {
  }

  /** The queue is not what was published: at position `at` the consumer finds `o`, which nobody published. */
  ghost predicate Broken(w: Shared, at: nat, o: Entry) {
    && 0 < |w.mem| && w.cons <= at < w.prod && w.out <= w.pushed
    && Decode(w.mem, w.cons, w.prod) != Some(w.pushed[|w.out|..])
    && ReadAt(w.mem, at) == Take(o, HDR)
  }

  /**
   * A push that begins while another can still be accepted can destroy that other one's entry: the other push is
   * accepted and published, and the consumer finds the newcomer's entry in its place.
   */
  lemma OverlapBreaks(w: Shared, i: nat, j: nat) returns (o: Entry, moves: seq<Move>, last: Shared)
    requires SoloInv(w, i) && !Harmless(|w.mem|, w.pushers[i]) && j < |w.pushers| && w.pushers[j].Idle?
    ensures o != w.pushers[i].entry && Allowed(w, Begin(j, o))
    ensures Runs(Make(w, Begin(j, o)), moves, last) && NoBegins(moves)
    ensures last.pushed == w.pushed + [w.pushers[i].entry] && Broken(last, w.prod, o)
  {
    BusySendable(w, i);
    var e := w.pushers[i].entry;
    o := Other(e);
    InvMeaning(w, i);
    hide Inv, Total, Plan, PlanAt, Runs, Other, InOrder, Broken;
    var begun := Make(w, Begin(j, o));
    SoloFrame(w, begun, i);
    var m1, mid := ReachStores(begun, i);
    var m2;
    m2, last := StoreOver(mid, i, j);
    RunsConcat(begun, m1, mid, m2, last);
    moves := m1 + m2;
  }

  lemma BusySendable(w: Shared, i: nat)
    requires SoloInv(w, i) && !w.pushers[i].Idle?
    ensures Sendable(w.pushers[i].entry)
  {
    hide Decode, Stores, Stored, Plan, ConsumerInv, Total;
  }

  /** However the run goes on, as long as later pushes begin with care, the ring stays first-in first-out. */
  ghost predicate MayBegin(w: Shared, j: nat) {
    forall e, moves, last ::
      Allowed(w, Begin(j, e)) && CarefulRun(Make(w, Begin(j, e)), moves, last) ==> InOrder(last)
  }

  /**
   * In every state that careful pushes lead to, another push may begin exactly when no push that can still be
   * accepted is going on.
   */
  lemma MayBeginIff(mem: seq<Byte>, n: nat, before: seq<Move>, w: Shared, j: nat)
    requires 0 < n && 0 < |mem| && |mem| % 16 == 0 && CarefulRun(Fresh(mem, n), before, w)
    requires j < |w.pushers| && w.pushers[j].Idle?
    ensures MayBegin(w, j) <==> AllHarmless(w)
  {
    assert SharedInv(Fresh(mem, n), 0);
    var i := CarefulKeepsInv(Fresh(mem, n), before, w, 0);
    hide SoloInv, Allowed, Make, InOrder, Harmless, CarefulRun, Broken;
    if AllHarmless(w) {
      forall e, moves, last | Allowed(w, Begin(j, e)) && CarefulRun(Make(w, Begin(j, e)), moves, last)
        ensures InOrder(last)
      {
        BeginKeeps(w, i, Begin(j, e));
        var k := CarefulKeepsInv(Make(w, Begin(j, e)), moves, last, j);
        InvMeaning(last, k);
      }
    } else {
      InvMeaning(w, i);
      SoloBound(w, i);
      assert !Harmless(|w.mem|, w.pushers[i]);
      var o, moves, last := OverlapBreaks(w, i, j);
      NoBeginsCareful(Make(w, Begin(j, o)), moves, last);
      BrokenIsOutOfOrder(last, w.prod, o);
    }
  }

  lemma SoloBound(w: Shared, i: nat)
    requires SoloInv(w, i)
    ensures i < |w.pushers|
  {
  }

  lemma BrokenIsOutOfOrder(w: Shared, at: nat, o: Entry)
    requires Broken(w, at, o)
    ensures !InOrder(w)
  {
  }

  // ---------------------------------------------------------------- one schedule, on an empty ring

  /** Two producers on a ring nothing was taken from. */
  function Pair(mem: seq<Byte>, prod: nat, p: Pusher, q: Pusher, pushed: seq<Entry>): Shared {
    Shared(mem, prod, 0, [p, q], CIdle, pushed, [])
  }

  lemma PlacedFirst(len: nat, e: Entry)
    requires 0 < len && Total(e) <= len
    ensures PlanAt(len, 0, 0, e) == Direct(0) && Inside(PlanAt(len, 0, 0, e), len, e)
    ensures Stores(PlanAt(len, 0, 0, e), e) == EntryBytes(e)
  {
    hide EntryBytes;
    assert 0 % len == 0;
    assert [] + EntryBytes(e) == EntryBytes(e);
  }

  lemma EntryFits(e: Entry)
    ensures HDR <= |EntryBytes(e)| <= Total(e)
  {
  }

  /** Both producers load the empty ring's producer position before either goes on. */
  lemma BothStarted(mem: seq<Byte>, a: Entry, b: Entry) returns (moves: seq<Move>)
    requires 0 < |mem| && Sendable(a) && Sendable(b) && Total(a) <= |mem| && Total(b) <= |mem|
    ensures Runs(Fresh(mem, 2), moves, Pair(mem, 0, Started(a, 0), Started(b, 0), []))
  {
    hide Total, PlanAt, Stores, Inside, EntryBytes, Runs, Sendable;
    var w0 := Pair(mem, 0, Idle, Idle, []);
    assert Fresh(mem, 2) == w0;
    RunsOne(w0, Begin(0, a));
    var w1 := Pair(mem, 0, Started(a, 0), Idle, []);
    assert Make(w0, Begin(0, a)) == w1;
    RunsThen(w0, [Begin(0, a)], w1, Begin(1, b), Pair(mem, 0, Started(a, 0), Started(b, 0), []));
    moves := [Begin(0, a)] + [Begin(1, b)];
  }

  lemma BothLoaded(mem: seq<Byte>, a: Entry, b: Entry) returns (moves: seq<Move>)
    requires 0 < |mem| && Sendable(a) && Sendable(b) && Total(a) <= |mem| && Total(b) <= |mem|
    ensures Runs(Fresh(mem, 2), moves, Pair(mem, 0, Loaded(a, 0, 0), Loaded(b, 0, 0), []))
  {
    hide Total, PlanAt, Stores, Inside, EntryBytes, Runs, Sendable;
    var w0, w2 := Fresh(mem, 2), Pair(mem, 0, Started(a, 0), Started(b, 0), []);
    moves := BothStarted(mem, a, b);
    var w3 := Pair(mem, 0, Loaded(a, 0, 0), Started(b, 0), []);
    RunsThen(w0, moves, w2, LoadCons(0), w3);
    moves := moves + [LoadCons(0)];
    RunsThen(w0, moves, w3, LoadCons(1), Pair(mem, 0, Loaded(a, 0, 0), Loaded(b, 0, 0), []));
    moves := moves + [LoadCons(1)];
  }

  /** Both find room, at the same place. */
  lemma BothAccepted(mem: seq<Byte>, a: Entry, b: Entry) returns (moves: seq<Move>)
    requires 0 < |mem| && Sendable(a) && Sendable(b) && Total(a) <= |mem| && Total(b) <= |mem|
    ensures Runs(Fresh(mem, 2), moves, Pair(mem, 0, Writing(a, 0, 0, 0), Writing(b, 0, 0, 0), []))
  {
    hide Total, PlanAt, Stores, Inside, EntryBytes, Runs, Sendable;
    PlacedFirst(|mem|, a);
    PlacedFirst(|mem|, b);
    var w0, w4 := Fresh(mem, 2), Pair(mem, 0, Loaded(a, 0, 0), Loaded(b, 0, 0), []);
    moves := BothLoaded(mem, a, b);
    var w5 := Pair(mem, 0, Writing(a, 0, 0, 0), Loaded(b, 0, 0), []);
    RunsThen(w0, moves, w4, Settle(0), w5);
    moves := moves + [Settle(0)];
    RunsThen(w0, moves, w5, Settle(1), Pair(mem, 0, Writing(a, 0, 0, 0), Writing(b, 0, 0, 0), []));
    moves := moves + [Settle(1)];
  }

  /** What the ring's bytes are after both stored their entries at its start, the second one last. */
  function Overwritten(mem: seq<Byte>, a: Entry, b: Entry): (m: seq<Byte>)
    requires |EntryBytes(a)| <= |mem| && |EntryBytes(b)| <= |mem|
    ensures |m| == |mem|
  {
    Store(Store(mem, 0, EntryBytes(a)), 0, EntryBytes(b))
  }

  lemma BothStored(mem: seq<Byte>, a: Entry, b: Entry) returns (moves: seq<Move>)
    requires 0 < |mem| && Sendable(a) && Sendable(b) && Total(a) <= |mem| && Total(b) <= |mem|
    ensures |EntryBytes(a)| <= |mem| && |EntryBytes(b)| <= |mem|
    ensures Runs(Fresh(mem, 2), moves, Pair(Overwritten(mem, a, b), 0, Writing(a, 0, 0, |EntryBytes(a)|),
                                            Writing(b, 0, 0, |EntryBytes(b)|), []))
  {
    EntryFits(a);
    EntryFits(b);
    hide Total, PlanAt, Stores, Inside, EntryBytes, Runs, Sendable, Store, Fresh;
    var w0, na, nb := Fresh(mem, 2), |EntryBytes(a)|, |EntryBytes(b)|;
    moves := BothAccepted(mem, a, b);
    var w6 := Pair(mem, 0, Writing(a, 0, 0, 0), Writing(b, 0, 0, 0), []);
    var w7 := Pair(Store(mem, 0, EntryBytes(a)), 0, Writing(a, 0, 0, na), Writing(b, 0, 0, 0), []);
    PlacedFirst(|mem|, a);
    PlacedFirst(|mem|, b);
    assert EntryBytes(a)[0..] == EntryBytes(a) && EntryBytes(b)[0..] == EntryBytes(b);
    var sa := StoreAll(w6, 0);
    assert w6.pushers[0 := Writing(a, 0, 0, na)] == w7.pushers;
    RunsConcat(w0, moves, w6, sa, w7);
    moves := moves + sa;
    var w8 := Pair(Overwritten(mem, a, b), 0, Writing(a, 0, 0, na), Writing(b, 0, 0, nb), []);
    var sb := StoreAll(w7, 1);
    assert w7.pushers[1 := Writing(b, 0, 0, nb)] == w8.pushers;
    RunsConcat(w0, moves, w7, sb, w8);
    moves := moves + sb;
  }

  /** The overlap in full: both load, both store, both publish. */
  lemma OverlapRuns(mem: seq<Byte>, a: Entry, b: Entry) returns (moves: seq<Move>)
    requires 0 < |mem| && Sendable(a) && Sendable(b) && Total(a) <= |mem| && Total(b) <= |mem|
    ensures |EntryBytes(a)| <= |mem| && |EntryBytes(b)| <= |mem|
    ensures Runs(Fresh(mem, 2), moves, Pair(Overwritten(mem, a, b), Total(a) + Total(b), Idle, Idle, [a, b]))
  {
    hide Total, PlanAt, Stores, Inside, EntryBytes, Runs, Sendable, Overwritten, Fresh;
    moves := BothStored(mem, a, b);
    PlacedFirst(|mem|, a);
    PlacedFirst(|mem|, b);
    var w0, na, nb, m := Fresh(mem, 2), |EntryBytes(a)|, |EntryBytes(b)|, Overwritten(mem, a, b);
    var w8 := Pair(m, 0, Writing(a, 0, 0, na), Writing(b, 0, 0, nb), []);
    var w9 := Pair(m, Total(a), Idle, Writing(b, 0, 0, nb), [a]);
    RunsThen(w0, moves, w8, PublishNext(0), w9);
    moves := moves + [PublishNext(0)];
    assert [a] + [b] == [a, b];
    RunsThen(w0, moves, w9, PublishNext(1), Pair(m, Total(a) + Total(b), Idle, Idle, [a, b]));
    moves := moves + [PublishNext(1)];
  }

  lemma SecondReadsFirst(mem: seq<Byte>, a: Entry, b: Entry)
    requires 0 < |mem| && Sendable(b) && Total(a) <= |mem| && Total(b) <= |mem|
    ensures |EntryBytes(a)| <= |mem| && |EntryBytes(b)| <= |mem|
    ensures RecordAt(Overwritten(mem, a, b), 0) == Take(b, Total(b))
  {
    EntryFits(a);
    EntryFits(b);
    RingQueue.LaidDirect(Store(mem, 0, EntryBytes(a)), 0, b);
  }

  lemma BeyondUntouched(mem: seq<Byte>, b: Entry)
    requires 0 < |mem| && Total(b) + Total(b) <= |mem|
    ensures |EntryBytes(b)| <= |mem|
    ensures RecordAt(Overwritten(mem, b, b), Total(b)) == RecordAt(mem, Total(b))
  {
    EntryFits(b);
    hide EntryBytes, Total, ParseHeader, EntryTotal;
    var n, h, m := |EntryBytes(b)|, Total(b), Overwritten(mem, b, b);
    forall i, j | h <= i <= j <= |mem|
      ensures m[i..j] == mem[i..j]
    {
      StoreSlice(mem, 0, EntryBytes(b), i, j);
      StoreSlice(Store(mem, 0, EntryBytes(b)), 0, EntryBytes(b), i, j);
    }
  }

  /** The queue of a stretch, from its first record and the queue of what is left. */
  function Cons(s: Step, rest: Option<seq<Entry>>): Option<seq<Entry>> {
    if rest.None? then None else Some(Entries(s) + rest.value)
  }

  lemma DecodeFirst(mem: seq<Byte>, at: nat, end: nat)
    requires at < |mem| && at < end
    ensures var s := RecordAt(mem, at);
            Decode(mem, at, end) ==
            if s.Bad? || at + s.advance > end then None else Cons(s, Decode(mem, at + s.advance, end))
  {
    hide RecordAt;
    assert at % |mem| == at;
  }

  lemma ConsOne(s: Step, rest: Option<seq<Entry>>, es: seq<Entry>)
    ensures s.Take? ==> (Cons(s, rest) == Some(es) <==> es != [] && es[0] == s.entry && rest == Some(es[1..]))
    ensures s.Skip? ==> (Cons(s, rest) == Some(es) <==> rest == Some(es))
  {
    if s.Take? {
      if rest.Some? {
        assert ([s.entry] + rest.value)[1..] == rest.value;
      }
      if es != [] {
        assert [es[0]] + es[1..] == es;
      }
    } else if rest.Some? {
      assert [] + rest.value == rest.value;
    }
  }

  lemma LastRecord(mem: seq<Byte>, at: nat, end: nat, b: Entry)
    requires at < |mem| && end == at + Total(b)
    ensures Decode(mem, at, end) == Some([b]) <==> RecordAt(mem, at) == Take(b, Total(b))
  {
    hide RecordAt, Total, Decode, Cons;
    TakenSize(mem, at);
    DecodeFirst(mem, at, end);
    EmptyStretch(mem, end);
    var s := RecordAt(mem, at);
    if !s.Bad? && at + s.advance <= end {
      var rest := Decode(mem, at + s.advance, end);
      assert [b][1..] == [] && b in [b];
      QueuedFits(mem, at + s.advance, end, b);
      ConsOne(s, rest, [b]);
      assert s.Skip? && rest.Some? ==> rest.value != [b];
    }
  }

  lemma EmptyStretch(mem: seq<Byte>, at: nat)
    requires 0 < |mem|
    ensures Decode(mem, at, at) == Some([])
  {
  }

  lemma DecodeTwo(mem: seq<Byte>, a: Entry, b: Entry)
    requires Total(b) < |mem| && RecordAt(mem, 0) == Take(b, Total(b))
    ensures Decode(mem, 0, Total(a) + Total(b)) == Some([a, b]) <==>
            a == b && RecordAt(mem, Total(b)) == Take(b, Total(b))
  {
    hide RecordAt, Total, Decode, Cons;
    var tb, end := Total(b), Total(a) + Total(b);
    DecodeFirst(mem, 0, end);
    ConsOne(RecordAt(mem, 0), Decode(mem, tb, end), [a, b]);
    if a == b {
      LastRecord(mem, tb, end, b);
    }
  }

  /** A record that is taken spans exactly its entry's total. */
  lemma TakenSize(mem: seq<Byte>, h: nat)
    requires h < |mem|
    ensures var s := RecordAt(mem, h); s.Take? ==> s.advance == Total(s.entry)
  {
    hide ParseHeader;
  }

  /** A queued entry takes its total out of the stretch it is in. */
  lemma {:induction false} QueuedFits(mem: seq<Byte>, cons: nat, prod: nat, e: Entry)
    requires 0 < |mem| && cons <= prod
    ensures var q := Decode(mem, cons, prod); q.Some? && e in q.value ==> Total(e) <= prod - cons
    decreases prod - cons
  {
    if cons < prod && Decode(mem, cons, prod).Some? {
      TakenSize(mem, cons % |mem|);
      hide RecordAt, Total;
      QueuedFits(mem, cons + ReadAt(mem, cons).advance, prod, e);
    }
  }

  /**
   * One schedule on an empty ring: both pushes load, `a` stores everything, `b` stores everything, `a` publishes,
   * `b` publishes. In this schedule the queue holds both entries, in order, exactly when they are equal and the
   * bytes behind the first already happened to hold that entry.
   */
  lemma OverlapHarmlessIff(mem: seq<Byte>, a: Entry, b: Entry) returns (moves: seq<Move>, last: Shared)
    requires 0 < |mem| && Sendable(a) && Sendable(b) && Total(a) + Total(b) <= |mem|
    ensures Runs(Fresh(mem, 2), moves, last) && last.pushed == [a, b] && last.out == []
    ensures last.cons == 0 && last.prod == Total(a) + Total(b) && |last.mem| == |mem|
    ensures Decode(last.mem, last.cons, last.prod) == Some([a, b]) <==>
            a == b && RecordAt(mem, Total(b)) == Take(b, Total(b))
  {
    hide RecordAt, Decode, Overwritten, EntryBytes, Runs, Total, Fresh, Sendable;
    moves := OverlapRuns(mem, a, b);
    var m := Overwritten(mem, a, b);
    last := Pair(m, Total(a) + Total(b), Idle, Idle, [a, b]);
    SecondReadsFirst(mem, a, b);
    DecodeTwo(m, a, b);
    if a == b {
      BeyondUntouched(mem, b);
    }
  }

  /** In that schedule two different entries are both accepted, and the second is found in place of the first. */
  lemma OverlapLoses(mem: seq<Byte>, a: Entry, b: Entry) returns (moves: seq<Move>, last: Shared)
    requires 0 < |mem| && Sendable(a) && Sendable(b) && Total(a) + Total(b) <= |mem| && a != b
    ensures Runs(Fresh(mem, 2), moves, last) && last.pushed == [a, b] && last.out == []
    ensures last.cons == 0 < last.prod && 0 < |last.mem|
    ensures RecordAt(last.mem, 0) == Take(b, Total(b)) && Decode(last.mem, last.cons, last.prod) != Some([a, b])
  {
    hide RecordAt, Decode, Overwritten, EntryBytes, Runs, Total, Fresh, Sendable;
    moves := OverlapRuns(mem, a, b);
    var m := Overwritten(mem, a, b);
    last := Pair(m, Total(a) + Total(b), Idle, Idle, [a, b]);
    SecondReadsFirst(mem, a, b);
    DecodeTwo(m, a, b);
  }
}
