/** The conduit's pending payloads: one thread appends while another pops, tries to write and puts back. */
module Conduit {
  import opened Bytes

  type Payload = seq<Byte>

  datatype Entry = Entry(tag: U64, payload: Payload)

  function Payloads(q: seq<Entry>): (ps: seq<Payload>)
    ensures |ps| == |q| && forall i :: 0 <= i < |q| ==> ps[i] == q[i].payload
  {
    seq(|q|, i requires 0 <= i < |q| => q[i].payload)
  }

  // ---------------------------------------------------------------- both threads, step by step

  /** The payload taken out for writing is held by the queue thread until it is written or put back. */
  datatype World = World(pending: seq<Entry>, held: Option<Entry>, delivered: seq<Payload>,
                         offered: seq<Entry>, poisoned: bool)

  /** A panic of a lock holder poisons the lock for good. */
  datatype Step = Append(entry: Entry) | Pop | Written | Refused | Poison

  predicate Enabled(w: World, s: Step) {
    match s
    case Append(_) => true
    case Pop => w.held.None? && !w.poisoned && w.pending != []
    case Written => w.held.Some?
    case Refused => w.held.Some?
    case Poison => true
  }

  function Do(w: World, s: Step): World
    requires Enabled(w, s)
  {
    match s
    case Append(e) => w.(offered := w.offered + [e], pending := if w.poisoned then w.pending else w.pending + [e])
    case Pop => w.(held := Some(w.pending[0]), pending := w.pending[1..])
    case Written => w.(held := None, delivered := w.delivered + [w.held.value.payload])
    case Refused =>
      w.(held := None, pending := if w.poisoned then w.pending else [Entry(0, w.held.value.payload)] + w.pending)
    case Poison => w.(poisoned := true)
  }

  /** The payload appended or put back here is dropped, because the lock cannot be taken. */
  predicate Drops(w: World, s: Step) {
    w.poisoned && (s.Append? || s.Refused?)
  }

  /** Payloads in the order they were offered: written, being written, waiting. */
  function InOrder(w: World): seq<Payload> {
    w.delivered + (if w.held.Some? then [w.held.value.payload] else []) + Payloads(w.pending)
  }

  ghost predicate Run(ws: seq<World>, ss: seq<Step>) {
    |ws| == |ss| + 1 && forall i :: 0 <= i < |ss| ==> Enabled(ws[i], ss[i]) && ws[i + 1] == Do(ws[i], ss[i])
  }

  const START := World([], None, [], [], false)

  /** No step dropped anything. */
  ghost predicate Lossless(ws: seq<World>, ss: seq<Step>)
    requires |ws| == |ss| + 1
  {
    forall i :: 0 <= i < |ss| ==> !Drops(ws[i], ss[i])
  }

  lemma PayloadsCons(e: Entry, q: seq<Entry>)
    ensures Payloads([e] + q) == [e.payload] + Payloads(q)
  {
  }

  lemma PayloadsSnoc(q: seq<Entry>, e: Entry)
    ensures Payloads(q + [e]) == Payloads(q) + [e.payload]
  {
  }

  lemma Regroup(d: seq<Payload>, x: Payload, p: seq<Payload>)
    ensures d + [] + ([x] + p) == d + [x] + p == d + [x] + [] + p
  {
  }

  lemma Extend(d: seq<Payload>, h: seq<Payload>, p: seq<Payload>, x: Payload)
    ensures d + h + (p + [x]) == d + h + p + [x]
  {
  }

  lemma StepConserves(w: World, s: Step)
    requires Enabled(w, s) && InOrder(w) == Payloads(w.offered) && !Drops(w, s)
    ensures InOrder(Do(w, s)) == Payloads(Do(w, s).offered)
  {
    hide Payloads;
    match s
    case Append(e) =>
      PayloadsSnoc(w.pending, e);
      PayloadsSnoc(w.offered, e);
      Extend(w.delivered, if w.held.Some? then [w.held.value.payload] else [], Payloads(w.pending), e.payload);
    case Pop =>
      assert w.pending == [w.pending[0]] + w.pending[1..];
      PayloadsCons(w.pending[0], w.pending[1..]);
      Regroup(w.delivered, w.pending[0].payload, Payloads(w.pending[1..]));
    case Written =>
      Regroup(w.delivered, w.held.value.payload, Payloads(w.pending));
    case Refused =>
      PayloadsCons(Entry(0, w.held.value.payload), w.pending);
      Regroup(w.delivered, w.held.value.payload, Payloads(w.pending));
    case Poison =>
  }

  /** A dropped payload never comes back: the books stay short from then on. */
  lemma StepCounts(w: World, s: Step)
    requires Enabled(w, s) && |InOrder(w)| <= |w.offered|
    ensures |InOrder(Do(w, s))| <= |Do(w, s).offered|
    ensures |InOrder(w)| < |w.offered| || Drops(w, s) ==> |InOrder(Do(w, s))| < |Do(w, s).offered|
  {
  }

  lemma {:induction false} RunCounts(ws: seq<World>, ss: seq<Step>)
    requires Run(ws, ss) && ws[0] == START
    ensures |InOrder(ws[|ss|])| <= |ws[|ss|].offered|
    ensures Lossless(ws, ss) ==> InOrder(ws[|ss|]) == Payloads(ws[|ss|].offered)
    ensures !Lossless(ws, ss) ==> |InOrder(ws[|ss|])| < |ws[|ss|].offered|
    decreases |ss|
  {
    hide Enabled, Do, Drops, InOrder;
    if |ss| == 0 {
      assert InOrder(START) == [] by { EmptyOrder(); }
    } else {
      var n := |ss| - 1;
      RunCounts(ws[..n + 1], ss[..n]);
      StepCounts(ws[n], ss[n]);
      if Lossless(ws[..n + 1], ss[..n]) && !Drops(ws[n], ss[n]) {
        StepConserves(ws[n], ss[n]);
      }
    }
  }

  lemma EmptyOrder()
    ensures InOrder(START) == []
  {
  }

  /**
   * In every interleaving of appends, pops, writes and refusals, also when an append falls between a pop and
   * the put-back: the payloads written, then the one in hand, then those waiting are exactly the payloads
   * offered, in order, if and only if nothing was appended or put back under a poisoned lock.
   */
  lemma PayloadsConservedIff(ws: seq<World>, ss: seq<Step>)
    requires Run(ws, ss) && ws[0] == START
    ensures InOrder(ws[|ss|]) == Payloads(ws[|ss|].offered) <==> Lossless(ws, ss)
  {
    RunCounts(ws, ss);
  }

  /** What reached the guest is always a prefix of what was offered. */
  lemma DeliveredIsPrefix(ws: seq<World>, ss: seq<Step>)
    requires Run(ws, ss) && ws[0] == START && Lossless(ws, ss)
    ensures ws[|ss|].delivered <= Payloads(ws[|ss|].offered)
  {
    RunCounts(ws, ss);
    var w := ws[|ss|];
    assert w.delivered <= InOrder(w);
  }

  lemma RunCons(w: World, s: Step, ws: seq<World>, ss: seq<Step>)
    requires Enabled(w, s) && Run(ws, ss) && ws[0] == Do(w, s)
    ensures Run([w] + ws, [s] + ss)
  {
    hide Enabled, Do;
    var vs, ts := [w] + ws, [s] + ss;
    forall i | 0 <= i < |ts|
      ensures Enabled(vs[i], ts[i]) && vs[i + 1] == Do(vs[i], ts[i])
    {
      if i > 0 {
        assert vs[i] == ws[i - 1] && ts[i] == ss[i - 1] && vs[i + 1] == ws[i];
      }
    }
  }

  /** From any state with a sound lock the queue thread alone can write everything out, in order. */
  lemma {:induction false} CanDeliverAll(w: World) returns (ws: seq<World>, ss: seq<Step>)
    requires !w.poisoned
    ensures Run(ws, ss) && ws[0] == w && forall s :: s in ss ==> s.Pop? || s.Written?
    ensures ws[|ss|] == w.(pending := [], held := None, delivered := InOrder(w))
    decreases |w.pending|, w.held.Some?
  {
    hide Payloads;
    if w.held.Some? {
      var v := Do(w, Written);
      var vs, ts := CanDeliverAll(v);
      Regroup(w.delivered, w.held.value.payload, Payloads(w.pending));
      RunCons(w, Written, vs, ts);
      ws, ss := [w] + vs, [Written] + ts;
    } else if w.pending != [] {
      var v := Do(w, Pop);
      var vs, ts := CanDeliverAll(v);
      assert w.pending == [w.pending[0]] + w.pending[1..];
      PayloadsCons(w.pending[0], w.pending[1..]);
      Regroup(w.delivered, w.pending[0].payload, Payloads(w.pending[1..]));
      RunCons(w, Pop, vs, ts);
      ws, ss := [w] + vs, [Pop] + ts;
    } else {
      ws, ss := [w], [];
      NoPayloads();
      assert w.delivered + [] + [] == w.delivered;
    }
  }

  lemma NoPayloads()
    ensures Payloads([]) == []
  {
  }

  // ---------------------------------------------------------------- sequence tags

  /** The entries not yet written, tags included. */
  function Unwritten(w: World): seq<Entry> {
    (if w.held.Some? then [w.held.value] else []) + w.pending
  }

  /** The entry that is now first in line was put back at some point while it carried a tag. */
  ghost predicate FrontLostTag(ws: seq<World>, ss: seq<Step>)
    requires |ws| == |ss| + 1
  {
    exists i :: 0 <= i < |ss| && TagLostAt(ws[i], ss[i], |ws[|ss|].delivered|)
  }

  /** A tagged entry is refused when `n` payloads have been written. */
  ghost predicate TagLostAt(w: World, s: Step, n: nat) {
    s.Refused? && w.held.Some? && w.held.value.tag != 0 && |w.delivered| == n
  }

  /** All but the first entry in line are as offered; the first differs at most by a tag set to zero. */
  ghost predicate LineKept(u: seq<Entry>, rest: seq<Entry>) {
    && |u| == |rest|
    && (u != [] ==> u[1..] == rest[1..] && (u[0] == rest[0] || (u[0] == Entry(0, rest[0].payload) && rest[0].tag != 0)))
  }

  function Rest(w: World): seq<Entry>
    requires |w.delivered| <= |w.offered|
  {
    w.offered[|w.delivered|..]
  }

  ghost predicate TailKept(w: World) {
    |w.delivered| <= |w.offered| && LineKept(Unwritten(w), Rest(w))
  }

  ghost predicate FrontKept(w: World)
    requires TailKept(w)
  {
    Unwritten(w) == [] || Unwritten(w)[0] == Rest(w)[0]
  }

  /** What each step does to the line and to what it is compared with. */
  lemma LineStep(w: World, s: Step)
    requires Enabled(w, s) && !Drops(w, s) && TailKept(w)
    ensures var w', u := Do(w, s), Unwritten(w);
            && |w'.delivered| <= |w'.offered|
            && (s.Append? ==> Unwritten(w') == u + [s.entry] && Rest(w') == Rest(w) + [s.entry])
            && (s.Pop? || s.Poison? ==> Unwritten(w') == u && Rest(w') == Rest(w))
            && (s.Written? ==> u != [] && Unwritten(w') == u[1..] && Rest(w') == Rest(w)[1..])
            && (s.Refused? ==> u != [] && u[0] == w.held.value && Rest(w') == Rest(w)
                               && Unwritten(w') == [Entry(0, u[0].payload)] + u[1..])
  {
    hide LineKept;
    KeptLength(Unwritten(w), Rest(w));
    match s
    case Append(e) =>
      assert Unwritten(Do(w, s)) == Unwritten(w) + [e];
    case Pop =>
      assert w.pending == [w.pending[0]] + w.pending[1..];
    case Written =>
      assert ([w.held.value] + w.pending)[1..] == w.pending;
    case Refused =>
      assert ([w.held.value] + w.pending)[1..] == w.pending;
    case Poison =>
  }

  lemma KeptLength(u: seq<Entry>, rest: seq<Entry>)
    requires LineKept(u, rest)
    ensures |u| == |rest|
  {
  }

  lemma StepKeepsTail(w: World, s: Step)
    requires Enabled(w, s) && !Drops(w, s) && TailKept(w)
    ensures TailKept(Do(w, s))
    ensures s.Written? ==> FrontKept(Do(w, s)) && |Do(w, s).delivered| == |w.delivered| + 1
    ensures !s.Written? ==> |Do(w, s).delivered| == |w.delivered|
    ensures !s.Written? ==> (FrontKept(Do(w, s)) <==> FrontKept(w) && !TagLostAt(w, s, |w.delivered|))
  {
    hide Do, Drops, Unwritten, Rest;
    LineStep(w, s);
    DeliveredStep(w, s);
    var u, rest := Unwritten(w), Rest(w);
    if s.Append? && u != [] {
      assert (u + [s.entry])[1..] == u[1..] + [s.entry] && (rest + [s.entry])[1..] == rest[1..] + [s.entry];
    } else if s.Refused? {
      assert ([Entry(0, u[0].payload)] + u[1..])[1..] == u[1..];
    } else if s.Written? && |u| > 1 {
      assert u[1..][0] == rest[1..][0];
    }
  }

  lemma DeliveredStep(w: World, s: Step)
    requires Enabled(w, s)
    ensures |Do(w, s).delivered| == |w.delivered| + if s.Written? then 1 else 0
  {
  }

  lemma {:induction false} DeliveredGrows(ws: seq<World>, ss: seq<Step>, i: nat)
    requires Run(ws, ss) && i <= |ss|
    ensures |ws[i].delivered| <= |ws[|ss|].delivered|
    decreases |ss|
  {
    if i < |ss| {
      var n := |ss| - 1;
      RunPrefix(ws, ss);
      DeliveredGrows(ws[..n + 1], ss[..n], i);
    }
  }

  lemma RunPrefix(ws: seq<World>, ss: seq<Step>)
    requires Run(ws, ss) && |ss| > 0
    ensures var n := |ss| - 1;
            Run(ws[..n + 1], ss[..n]) && Enabled(ws[n], ss[n]) && ws[n + 1] == Do(ws[n], ss[n])
  {
    hide Enabled, Do;
  }

  lemma {:induction false} RunKeepsTail(ws: seq<World>, ss: seq<Step>)
    requires Run(ws, ss) && ws[0] == START && Lossless(ws, ss)
    ensures TailKept(ws[|ss|]) && (FrontKept(ws[|ss|]) <==> !FrontLostTag(ws, ss))
    decreases |ss|
  {
    hide Enabled, Do, Drops, TailKept, FrontKept, TagLostAt;
    if |ss| == 0 {
      StartKept();
    } else {
      var n := |ss| - 1;
      var vs, ts := ws[..n + 1], ss[..n];
      RunPrefix(ws, ss);
      RunKeepsTail(vs, ts);
      StepKeepsTail(ws[n], ss[n]);
      if ss[n].Written? {
        NewFront(ws, ss);
      } else {
        SameFront(ws, ss);
      }
    }
  }

  lemma StartKept()
    ensures TailKept(START) && FrontKept(START)
  {
  }

  /** After a write the first in line is an entry nobody has touched yet. */
  lemma NewFront(ws: seq<World>, ss: seq<Step>)
    requires Run(ws, ss) && |ss| > 0 && ss[|ss| - 1].Written?
    ensures !FrontLostTag(ws, ss)
  {
    var n := |ss| - 1;
    RunPrefix(ws, ss);
    forall i | 0 <= i < |ss|
      ensures !TagLostAt(ws[i], ss[i], |ws[|ss|].delivered|)
    {
      if i < n {
        DeliveredGrows(ws[..n + 1], ss[..n], i);
      }
    }
  }

  lemma SameFront(ws: seq<World>, ss: seq<Step>)
    requires Run(ws, ss) && |ss| > 0 && |ws[|ss|].delivered| == |ws[|ss| - 1].delivered|
    ensures var n := |ss| - 1;
            FrontLostTag(ws, ss) <==> FrontLostTag(ws[..n + 1], ss[..n]) || TagLostAt(ws[n], ss[n], |ws[n].delivered|)
  {
    hide Enabled, Do, TagLostAt;
    var n := |ss| - 1;
    var vs, ts := ws[..n + 1], ss[..n];
    assert vs[|ts|] == ws[n];
    if FrontLostTag(vs, ts) {
      var i :| 0 <= i < |ts| && TagLostAt(vs[i], ts[i], |vs[|ts|].delivered|);
      assert TagLostAt(ws[i], ss[i], |ws[|ss|].delivered|);
    }
    if FrontLostTag(ws, ss) {
      var i :| 0 <= i < |ss| && TagLostAt(ws[i], ss[i], |ws[|ss|].delivered|);
      if i < n {
        assert TagLostAt(vs[i], ts[i], |vs[|ts|].delivered|);
      }
    }
  }

  /**
   * Over any run that drops nothing, the entries still to be written, tags included, are exactly the rest of
   * what was offered if and only if the one now first in line was never refused while it carried a tag.
   */
  lemma TagsConservedIff(ws: seq<World>, ss: seq<Step>)
    requires Run(ws, ss) && ws[0] == START && Lossless(ws, ss)
    ensures var w := ws[|ss|];
            |w.delivered| <= |w.offered| && (Unwritten(w) == w.offered[|w.delivered|..] <==> !FrontLostTag(ws, ss))
  {
    hide Lossless, FrontLostTag, Unwritten;
    RunKeepsTail(ws, ss);
    var w := ws[|ss|];
    var u, rest := Unwritten(w), Rest(w);
    if u != [] {
      assert u == [u[0]] + u[1..] && rest == [rest[0]] + rest[1..];
    }
  }

  /** One tagged payload, popped and refused once: it waits again, without its tag. */
  lemma RefusedOnce(tag: U64, p: Payload)
    requires tag != 0
    ensures var e := Entry(tag, p);
            var w := Do(Do(Do(START, Append(e)), Pop), Refused);
            w.offered == [e] && Unwritten(w) == [Entry(0, p)] != w.offered
  {
  }

  /** A payload appended after the lock was poisoned is gone. */
  lemma PoisonedAppend(e: Entry)
    ensures var w := Do(Do(START, Poison), Append(e)); w.offered == [e] && InOrder(w) == []
  {
  }

  // ---------------------------------------------------------------- the queue thread on its own

  /** A control queue with this many free descriptors; each takes one payload. */
  class ControlQueue {
    var free: nat
    var written: seq<Payload>

    constructor (free: nat)
      ensures this.free == free && written == []
    {
      this.free, this.written := free, [];
    }

    method WriteNext(p: Payload) returns (wrote: bool)
      modifies this
      ensures wrote == (old(free) > 0)
      ensures wrote ==> free == old(free) - 1 && written == old(written) + [p]
      ensures !wrote ==> unchanged(this)
    {
      if free == 0 {
        return false;
      }
      free, written := free - 1, written + [p];
      return true;
    }
  }

  class Host {
    var pending: seq<Entry>
    var initialPayloadSent: bool

    constructor ()
      ensures pending == [] && !initialPayloadSent
    {
      pending, initialPayloadSent := [], false;
    }

    method NextControlPayload() returns (p: Option<Payload>)
      modifies this
      ensures old(pending) == [] ==> p.None? && unchanged(this)
      ensures old(pending) != [] ==> p == Some(old(pending)[0].payload) && pending == old(pending)[1..]
      ensures old(pending) != [] ==> initialPayloadSent
    {
      if pending == [] {
        return None;
      }
      p := Some(pending[0].payload);
      pending := pending[1..];
      initialPayloadSent := true;
    }

    /**
     * Writes as many payloads as there are descriptors, in order. The first that does not fit is put back in
     * front with tag zero; nothing else moves. The sent flag is set even when nothing could be written.
     */
    method ProcessControlQueue(queue: ControlQueue) returns (used: bool)
      modifies this, queue
      ensures var q, n := old(pending), old(queue.free);
              if |q| <= n then
                pending == [] && queue.written == old(queue.written) + Payloads(q) && queue.free == n - |q|
              else
                && pending == [Entry(0, q[n].payload)] + q[n + 1..] && queue.free == 0
                && queue.written == old(queue.written) + Payloads(q[..n])
      ensures used <==> old(pending) != [] && old(queue.free) > 0
      ensures initialPayloadSent <==> old(initialPayloadSent) || old(pending) != []
    {
      used := false;
      ghost var q, n, k := pending, queue.free, 0;
      while true
        invariant 0 <= k <= |q| && k <= n && pending == q[k..] && queue.free == n - k
        invariant queue.written == old(queue.written) + Payloads(q[..k])
        invariant used <==> k > 0
        invariant initialPayloadSent <==> old(initialPayloadSent) || k > 0
        decreases |pending|
      {
        var next := NextControlPayload();
        if next.None? {
          assert q[..k] == q;
          break;
        }
        assert q[k..][1..] == q[k + 1..];
        var wrote := queue.WriteNext(next.value);
        if !wrote {
          pending := [Entry(0, next.value)] + pending;
          break;
        }
        assert Payloads(q[..k + 1]) == Payloads(q[..k]) + [next.value];
        k, used := k + 1, true;
      }
    }
  }
}
