/**
 * Several producers on one ring without a lock: the worker thread and the event-queue thread on the response ring, or
 * several attached processes on the command ring. Each keeps the producer position it loaded, which may be stale by
 * the time it publishes.
 */
module RingSharedProducers {
  import opened Bytes
  import opened RingSpec
  import opened RingConcurrent
  import RingQueue

  datatype Pusher =
    | Idle
    | Started(entry: Entry, at: nat)
    | Loaded(entry: Entry, at: nat, seen: nat)
    | Writing(entry: Entry, at: nat, seen: nat, k: nat)

  datatype Shared = Shared(mem: seq<Byte>, prod: nat, cons: nat, pushers: seq<Pusher>, c: Consumer,
                           pushed: seq<Entry>, out: seq<Entry>)

  datatype Move =
    | Begin(who: nat, entry: Entry)   // too large, or load the producer position
    | LoadCons(who: nat)
    | Settle(who: nat)                // refuse, or start storing
    | StoreNext(who: nat)
    | PublishNext(who: nat)           // add to whatever the producer position is by now
    | Consume(action: Action)

  predicate IsConsumerAction(a: Action) {
    a.Look? || a.LoadHeaderByte? || a.JudgeHeader? || a.LoadPayloadByte? || a.PublishCons?
  }

  /** The ring as one producer and the consumer see it. */
  function Solo(w: Shared, p: Producer): World {
    World(w.mem, w.prod, w.cons, p, w.c, w.pushed, w.out)
  }

  /** The decision from loaded positions; a consumer position past the loaded producer position leaves no room. */
  function PlanAt(len: nat, at: nat, seen: nat, e: Entry): (p: Placement)
    requires 0 < len
  {
    if seen <= at then Plan(len, at, seen, e) else Full(0, Total(e))
  }

  predicate Allowed(w: Shared, m: Move) {
    0 < |w.mem| &&
    match m
    case Begin(i, e) => i < |w.pushers| && w.pushers[i].Idle? && Sendable(e)
    case LoadCons(i) => i < |w.pushers| && w.pushers[i].Started?
    case Settle(i) => i < |w.pushers| && w.pushers[i].Loaded?
    case StoreNext(i) =>
      && i < |w.pushers| && w.pushers[i].Writing?
      && var q := w.pushers[i];
         var p := PlanAt(|w.mem|, q.at, q.seen, q.entry);
         Inside(p, |w.mem|, q.entry) && q.k < |Stores(p, q.entry)|
    case PublishNext(i) =>
      && i < |w.pushers| && w.pushers[i].Writing?
      && var q := w.pushers[i];
         var p := PlanAt(|w.mem|, q.at, q.seen, q.entry);
         Inside(p, |w.mem|, q.entry) && q.k == |Stores(p, q.entry)|
    case Consume(a) => IsConsumerAction(a) && Enabled(Solo(w, PIdle), a)
  }

  function Make(w: Shared, m: Move): Shared
    requires Allowed(w, m)
  {
    match m
    case Begin(i, e) =>
      if Total(e) > |w.mem| then w else w.(pushers := w.pushers[i := Started(e, w.prod)])
    case LoadCons(i) =>
      var q := w.pushers[i];
      w.(pushers := w.pushers[i := Loaded(q.entry, q.at, w.cons)])
    case Settle(i) =>
      var q := w.pushers[i];
      if PlanAt(|w.mem|, q.at, q.seen, q.entry).Accepted() then
        w.(pushers := w.pushers[i := Writing(q.entry, q.at, q.seen, 0)])
      else
        w.(pushers := w.pushers[i := Idle])
    case StoreNext(i) =>
      var q := w.pushers[i];
      var p := PlanAt(|w.mem|, q.at, q.seen, q.entry);
      w.(mem := Store(w.mem, StoreOffset(p, q.k), [Stores(p, q.entry)[q.k]]),
         pushers := w.pushers[i := q.(k := q.k + 1)])
    case PublishNext(i) =>
      var q := w.pushers[i];
      var p := PlanAt(|w.mem|, q.at, q.seen, q.entry);
      w.(prod := w.prod + Advance(p, Total(q.entry)), pushers := w.pushers[i := Idle],
         pushed := w.pushed + [q.entry])
    case Consume(a) =>
      var s := Do(Solo(w, PIdle), a);
      w.(cons := s.cons, c := s.c, out := s.out)
  }

  /** Every producer decides as a single one would, from the two positions it loaded itself. */
  lemma SettlesIffRoom(w: Shared, m: Move)
    requires Allowed(w, m) && (m.Begin? || m.Settle?)
    ensures m.who < |w.pushers| && |Make(w, m).pushers| == |w.pushers|
    ensures m.Begin? ==>
              Make(w, m).pushers[m.who] ==
              if EntryTotal(|m.entry.payload|) <= |w.mem| then Started(m.entry, w.prod) else Idle
    ensures m.Settle? ==>
              var q := w.pushers[m.who];
              var fits := q.seen <= q.at && HasRoom(|w.mem|, q.at, q.seen, EntryTotal(|q.entry.payload|));
              Make(w, m).pushers[m.who] == if fits then Writing(q.entry, q.at, q.seen, 0) else Idle
  {
    hide Place, HasRoom;
    if m.Settle? && w.pushers[m.who].seen <= w.pushers[m.who].at {
      var q := w.pushers[m.who];
      PlacedIffRoom(|w.mem|, q.at, q.seen, Total(q.entry));
    }
  }

  function Fresh(mem: seq<Byte>, n: nat): Shared {
    Shared(mem, 0, 0, seq(n, _ => Idle), CIdle, [], [])
  }

  ghost predicate Runs(w: Shared, moves: seq<Move>, last: Shared)
    decreases |moves|
  {
    if |moves| == 0 then w == last else Allowed(w, moves[0]) && Runs(Make(w, moves[0]), moves[1..], last)
  }

  // ---------------------------------------------------------------- when a push may begin

  /** A push that is not going on, or that will be refused whatever the consumer does. */
  predicate Harmless(len: nat, q: Pusher)
    requires 0 < len
  {
    match q
    case Idle => true
    case Started(e, at) => !Plan(len, at, at, e).Accepted()
    case Loaded(e, at, seen) => !PlanAt(len, at, seen, e).Accepted()
    case Writing(_, _, _, _) => false
  }

  predicate AllHarmless(w: Shared) {
    0 < |w.mem| && forall i :: 0 <= i < |w.pushers| ==> Harmless(|w.mem|, w.pushers[i])
  }

  /** No push begins while one that can still be accepted is between loading and publishing the position. */
  ghost predicate CarefulRun(w: Shared, moves: seq<Move>, last: Shared)
    decreases |moves|
  {
    if |moves| == 0 then w == last
    else
      && Allowed(w, moves[0]) && (moves[0].Begin? ==> AllHarmless(w))
      && CarefulRun(Make(w, moves[0]), moves[1..], last)
  }

  /** What was taken, then what the bytes between the positions read as, is what was published. */
  ghost predicate InOrder(w: Shared) {
    && 0 < |w.mem| && w.cons <= w.prod && w.out <= w.pushed
    && Decode(w.mem, w.cons, w.prod) == Some(w.pushed[|w.out|..])
  }

  /** What a busy pusher looks like to the one-producer model. */
  function AsProducer(q: Pusher): Producer {
    match q
    case Idle => PIdle
    case Started(_, _) => PIdle
    case Loaded(e, _, seen) => PLoaded(e, seen)
    case Writing(e, _, seen, k) => PWriting(e, seen, k)
  }

  /** Nobody has published since pusher `i` loaded the producer position, so it and the consumer are a pair. */
  ghost predicate SoloInv(w: Shared, i: nat) {
    && i < |w.pushers|
    && (!w.pushers[i].Idle? ==> w.pushers[i].at == w.prod)
    && (w.pushers[i].Started? ==> Sendable(w.pushers[i].entry) && Total(w.pushers[i].entry) <= |w.mem|)
    && Inv(Solo(w, AsProducer(w.pushers[i])))
  }

  predicate OthersHarmless(w: Shared, i: nat) {
    0 < |w.mem| && forall j :: 0 <= j < |w.pushers| && j != i ==> Harmless(|w.mem|, w.pushers[j])
  }

  /** Only pusher `i` can still be accepted. */
  ghost predicate SharedInv(w: Shared, i: nat) {
    SoloInv(w, i) && OthersHarmless(w, i)
  }

  lemma InvMeaning(w: Shared, i: nat)
    requires SoloInv(w, i)
    ensures 0 < |w.mem| && |w.mem| % 16 == 0 && w.prod % 16 == 0 && w.cons <= w.prod <= w.cons + |w.mem|
    ensures InOrder(w) && !w.c.COverrun?
    ensures Inv(Solo(w, PIdle))
  {
    hide Decode, Total, Plan, Stores, Inside, Stored;
    assert w.pushed[|w.out|..] == Decode(w.mem, w.cons, w.prod).value;
  }

  lemma LoadedInOrder(w: Shared, i: nat)
    requires SoloInv(w, i) && (w.pushers[i].Loaded? || w.pushers[i].Writing?)
    ensures w.pushers[i].seen <= w.cons && w.pushers[i].seen <= w.pushers[i].at == w.prod
  {
    hide QueueInv, ConsumerInv, Plan, Stores;
  }

  lemma LoadConsKeeps(w: Shared, i: nat)
    requires SoloInv(w, i) && Allowed(w, LoadCons(i))
    ensures SoloInv(Make(w, LoadCons(i)), i)
  {
    hide Inv, Plan, Stores, Total, StoreOffset;
    StepIsSafe(Solo(w, AsProducer(w.pushers[i])), BeginPush(w.pushers[i].entry));
  }

  lemma SettleKeeps(w: Shared, i: nat)
    requires SoloInv(w, i) && Allowed(w, Settle(i))
    ensures SoloInv(Make(w, Settle(i)), i)
  {
    hide Inv, Plan, Stores, Total, StoreOffset;
    LoadedInOrder(w, i);
    StepIsSafe(Solo(w, AsProducer(w.pushers[i])), Decide);
  }

  lemma StoreNextKeeps(w: Shared, i: nat)
    requires SoloInv(w, i) && Allowed(w, StoreNext(i))
    ensures SoloInv(Make(w, StoreNext(i)), i) && Agree(w.mem, Make(w, StoreNext(i)).mem, w.cons, w.prod)
  {
    hide Inv, Plan, Stores, Total, StoreOffset, Agree;
    LoadedInOrder(w, i);
    StepIsSafe(Solo(w, AsProducer(w.pushers[i])), StoreByte);
  }

  lemma PublishNextKeeps(w: Shared, i: nat)
    requires SoloInv(w, i) && Allowed(w, PublishNext(i))
    ensures SoloInv(Make(w, PublishNext(i)), i)
  {
    hide Inv, Plan, Stores, Total, StoreOffset;
    LoadedInOrder(w, i);
    StepIsSafe(Solo(w, AsProducer(w.pushers[i])), PublishProd);
  }

  /** A move of the pusher that can be accepted is a step of the one-producer model. */
  lemma OwnMoveKeeps(w: Shared, i: nat, m: Move)
    requires SoloInv(w, i) && Allowed(w, m) && !m.Begin? && !m.Consume? && m.who == i
    ensures SoloInv(Make(w, m), i)
  {
    hide SoloInv, Allowed, Make;
    match m
    case LoadCons(_) => LoadConsKeeps(w, i);
    case Settle(_) => SettleKeeps(w, i);
    case StoreNext(_) => StoreNextKeeps(w, i);
    case PublishNext(_) => PublishNextKeeps(w, i);
  }

  lemma ConsumeKeeps(w: Shared, i: nat, m: Move)
    requires SoloInv(w, i) && Allowed(w, m) && m.Consume?
    ensures SoloInv(Make(w, m), i)
  {
    hide Inv, Total, Head, ParseHeader, EntryTotal;
    StepIsSafe(Solo(w, AsProducer(w.pushers[i])), m.action);
  }

  /** Room only grows as the consumer moves on: what a drained ring refuses is refused from any position. */
  lemma DrainedRoomIsMost(len: nat, at: nat, seen: nat, e: Entry)
    requires 0 < len && !Plan(len, at, at, e).Accepted()
    ensures !PlanAt(len, at, seen, e).Accepted()
  {
    hide Total;
  }

  lemma HarmlessStays(w: Shared, m: Move)
    requires Allowed(w, m) && !m.Begin? && !m.Consume? && Harmless(|w.mem|, w.pushers[m.who])
    ensures var v := Make(w, m);
            && v == w.(pushers := v.pushers) && v.pushers == w.pushers[m.who := v.pushers[m.who]]
            && Harmless(|v.mem|, v.pushers[m.who])
  {
    hide PlanAt, Plan, Stores, Total, Inside, StoreOffset;
    var q := w.pushers[m.who];
    if q.Started? {
      DrainedRoomIsMost(|w.mem|, q.at, w.cons, q.entry);
    }
  }

  lemma SoloFrame(w: Shared, v: Shared, i: nat)
    requires SoloInv(w, i) && v == w.(pushers := v.pushers) && i < |v.pushers| && v.pushers[i] == w.pushers[i]
    ensures SoloInv(v, i)
  {
    hide Inv, Total;
  }

  lemma OwnFrame(w: Shared, m: Move)
    requires Allowed(w, m) && !m.Consume?
    ensures m.who < |w.pushers|
    ensures var v := Make(w, m); |v.mem| == |w.mem| && v.pushers == w.pushers[m.who := v.pushers[m.who]]
  {
    hide PlanAt, Stores, Total, Inside, StoreOffset;
  }

  lemma PushKeeps(w: Shared, i: nat, m: Move)
    requires SharedInv(w, i) && Allowed(w, m) && !m.Begin? && !m.Consume?
    ensures SharedInv(Make(w, m), i)
  {
    hide Inv, Total, Allowed, Make, Harmless;
    OwnFrame(w, m);
    if m.who == i {
      OwnMoveKeeps(w, i, m);
    } else {
      HarmlessStays(w, m);
      SoloFrame(w, Make(w, m), i);
    }
  }

  lemma BeginKeeps(w: Shared, i: nat, m: Move)
    requires SoloInv(w, i) && Allowed(w, m) && m.Begin? && AllHarmless(w)
    ensures SharedInv(Make(w, m), m.who)
  {
    hide Inv, Total, Harmless;
    InvMeaning(w, i);
  }

  lemma CarefulMoveKeeps(w: Shared, i: nat, m: Move) returns (j: nat)
    requires SharedInv(w, i) && Allowed(w, m) && (m.Begin? ==> AllHarmless(w))
    ensures SharedInv(Make(w, m), j)
  {
    hide SoloInv, Allowed, Harmless;
    if m.Begin? {
      BeginKeeps(w, i, m);
      j := m.who;
    } else if m.Consume? {
      ConsumeKeeps(w, i, m);
      j := i;
    } else {
      hide Make;
      PushKeeps(w, i, m);
      j := i;
    }
  }

  lemma {:induction false} CarefulKeepsInv(w: Shared, moves: seq<Move>, last: Shared, i: nat) returns (j: nat)
    requires SharedInv(w, i) && CarefulRun(w, moves, last)
    ensures SharedInv(last, j)
    decreases |moves|
  {
    hide SharedInv, Allowed, Make;
    if |moves| == 0 {
      j := i;
    } else {
      j := CarefulMoveKeeps(w, i, moves[0]);
      j := CarefulKeepsInv(Make(w, moves[0]), moves[1..], last, j);
    }
  }

  /**
   * With any number of producers, if no push begins while another that can still be accepted is going on,
   * every interleaving with the consumer is first-in first-out and no overrun is seen.
   */
  lemma CarefulPushesAreFifo(mem: seq<Byte>, n: nat, moves: seq<Move>, last: Shared)
    requires 0 < n && 0 < |mem| && |mem| % 16 == 0 && CarefulRun(Fresh(mem, n), moves, last)
    ensures InOrder(last) && !last.c.COverrun?
  {
    assert SharedInv(Fresh(mem, n), 0);
    var j := CarefulKeepsInv(Fresh(mem, n), moves, last, 0);
    hide SoloInv, CarefulRun, InOrder;
    InvMeaning(last, j);
  }
}
