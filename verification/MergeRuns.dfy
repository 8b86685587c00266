/** Whole runs of the merger: pushes, eligible drains and the final drain. */
module MergeRuns {
  import opened Bytes
  import opened RecordOrder
  import opened MergeSpec

  // ---------------------------------------------------------------- the cutoff

  /** `now_ns.saturating_sub(lookback_ns)`. */
  function Cutoff(now: U64, lookback: U64): nat {
    if lookback <= now then now - lookback else 0
  }

  /**
   * The cutoff test is the documented `gns + lookback <= now`, except that a zero gns passes before the first
   * window ends.
   */
  lemma CutoffMeaning(gns: U64, now: U64, lookback: U64)
    ensures (gns <= Cutoff(now, lookback) <==> gns + lookback <= now) <==> !(gns == 0 && now < lookback)
  {
  }

  /** Before the first window ends, a drain emits a queued record stamped zero although its window is still open. */
  lemma ZeroPassesEarly(r: Rec, now: U64, lookback: U64)
    requires r.gns == 0 && now < lookback
    ensures Drain([[r]], Cutoff(now, lookback)) == Drained([r], [[]]) && !(r.gns + lookback <= now)
  {
    var qs, rest: Queues := [[r]], [[]];
    assert Best(qs, 1) == Some(0) && PopChosen(qs) == rest;
    assert Best(rest, 1).None?;
    assert Drain(rest, 0) == Drained([], rest);
    assert [r] + [] == [r];
  }

  // ---------------------------------------------------------------- whole runs

  datatype MergeOp = PushOp(src: nat, r: Rec) | DrainOp(cutoff: nat)

  /** Queues, everything emitted and pushed so far, and the largest cutoff used so far (-1 before the first drain). */
  datatype MergeRun = MergeRun(queues: Queues, emitted: seq<Rec>, pushed: seq<Rec>, top: int)

  function Step(h: MergeRun, op: MergeOp): MergeRun
    requires op.PushOp? ==> op.src < |h.queues|
  {
    match op
    case PushOp(src, r) =>
      h.(queues := h.queues[src := h.queues[src] + [r]], pushed := h.pushed + [r])
    case DrainOp(cutoff) =>
      var d := Drain(h.queues, cutoff);
      MergeRun(d.rest, h.emitted + d.out, h.pushed, if cutoff > h.top then cutoff else h.top)
  }

  /** Each source is pushed in order, and nothing arrives that should already have been emitted. */
  ghost predicate Timely(h: MergeRun, op: MergeOp) {
    op.PushOp? ==>
      && op.src < |h.queues|
      && Sorted(h.queues[op.src] + [op.r])
      && forall e :: e in h.emitted ==> !Less(op.r, e)
  }

  ghost predicate RunInv(h: MergeRun) {
    && AllSorted(h.queues) && Sorted(h.emitted)
    && (forall e :: e in h.emitted ==> e.gns <= h.top)
    && (forall e, r :: e in h.emitted && r in Flat(h.queues) ==> !Less(r, e))
    && multiset(h.emitted) + multiset(Flat(h.queues)) == multiset(h.pushed)
  }

  /** A record above every cutoff used so far is never late. */
  lemma AboveCutoffsIsTimely(h: MergeRun, r: Rec)
    requires RunInv(h) && r.gns > h.top
    ensures forall e :: e in h.emitted ==> !Less(r, e)
  {
  }

  lemma PushFlat(qs: Queues, src: nat, r: Rec)
    requires src < |qs|
    ensures multiset(Flat(qs[src := qs[src] + [r]])) == multiset(Flat(qs)) + multiset{r}
  {
    hide Flat;
    var qs' := qs[src := qs[src] + [r]];
    FlatSplit(qs, src);
    FlatSplit(qs', src);
    assert qs'[..src] == qs[..src] && qs'[src + 1..] == qs[src + 1..];
  }

  lemma PushKeepsInv(h: MergeRun, op: MergeOp)
    requires RunInv(h) && Timely(h, op) && op.PushOp?
    ensures RunInv(Step(h, op))
  {
    hide Flat, Less, Sorted;
    var h' := Step(h, op);
    PushFlat(h.queues, op.src, op.r);
    forall e, r | e in h'.emitted && r in Flat(h'.queues)
      ensures !Less(r, e)
    {
      assert r in multiset(Flat(h'.queues));
      assert r in multiset(Flat(h.queues)) || r == op.r;
    }
    forall i | 0 <= i < |h'.queues|
      ensures Sorted(h'.queues[i])
    {
      assert i != op.src ==> h'.queues[i] == h.queues[i];
    }
  }

  lemma DrainKeepsInv(h: MergeRun, op: MergeOp)
    requires RunInv(h) && op.DrainOp?
    ensures RunInv(Step(h, op))
  {
    hide Flat, Drain, AllSorted, Sorted, Less;
    var d, h' := Drain(h.queues, op.cutoff), Step(h, op);
    DrainSorts(h.queues, op.cutoff);
    DrainConserves(h.queues, op.cutoff);
    forall r
      ensures r in Flat(h.queues) <==> r in d.out || r in Flat(d.rest)
    {
      DrainMembers(h.queues, op.cutoff, r);
    }
    forall e, r | e in h'.emitted && r in Flat(h'.queues)
      ensures !Less(r, e)
    {
      assert e in h.emitted || e in d.out;
      if e in d.out {
        LaterGns(r, e);
      }
    }
    SortedConcat(h.emitted, d.out);
    assert multiset(h.emitted + d.out) == multiset(h.emitted) + multiset(d.out);
  }

  lemma LaterGns(r: Rec, e: Rec)
    ensures r.gns > e.gns ==> !Less(r, e)
  {
  }

  ghost predicate TimelyRun(h: MergeRun, ops: seq<MergeOp>, last: MergeRun)
    decreases |ops|
  {
    if |ops| == 0 then h == last else Timely(h, ops[0]) && TimelyRun(Step(h, ops[0]), ops[1..], last)
  }

  lemma {:induction false} RunKeepsInv(h: MergeRun, ops: seq<MergeOp>, last: MergeRun)
    requires RunInv(h) && TimelyRun(h, ops, last)
    ensures RunInv(last)
    decreases |ops|
  {
    hide RunInv, Step;
    if |ops| > 0 {
      if ops[0].PushOp? {
        PushKeepsInv(h, ops[0]);
      } else {
        DrainKeepsInv(h, ops[0]);
      }
      RunKeepsInv(Step(h, ops[0]), ops[1..], last);
    }
  }

  lemma FlushedSorted(qs: Queues)
    ensures Sorted(DrainAll(qs)) && multiset(DrainAll(qs)) == multiset(Flat(qs))
  {
    hide Flat, Sorted, StableSort, SameByKey;
    StableSortIsStable(Flat(qs));
    SameByKeyPermutes(DrainAll(qs), Flat(qs));
  }

  lemma FinalOutput(h: MergeRun)
    requires AllSorted(h.queues) && Sorted(h.emitted)
    ensures multiset(DrainAll(h.queues)) == multiset(Flat(h.queues))
    ensures Sorted(h.emitted + DrainAll(h.queues))
            <==> forall e, r :: e in h.emitted && r in Flat(h.queues) ==> !Less(r, e)
  {
    hide DrainAll, Flat, Less;
    var tail := DrainAll(h.queues);
    FlushedSorted(h.queues);
    forall r
      ensures r in tail <==> r in Flat(h.queues)
    {
      assert r in multiset(tail) <==> r in multiset(Flat(h.queues));
    }
    var s := h.emitted + tail;
    if Sorted(s) {
      forall e, r | e in h.emitted && r in Flat(h.queues)
        ensures !Less(r, e)
      {
        var i :| 0 <= i < |h.emitted| && h.emitted[i] == e;
        var j :| 0 <= j < |tail| && tail[j] == r;
        assert s[i] == e && s[|h.emitted| + j] == r;
      }
    } else if forall e, r :: e in h.emitted && r in Flat(h.queues) ==> !Less(r, e) {
      SortedConcat(h.emitted, tail);
    }
  }

  /** A push, in order within its source, keeps the run's final output sorted exactly when it is not late. */
  lemma LatePushBreaksOrderIff(h: MergeRun, src: nat, r: Rec)
    requires RunInv(h) && src < |h.queues| && Sorted(h.queues[src] + [r])
    ensures var h' := Step(h, PushOp(src, r));
            Sorted(h'.emitted + DrainAll(h'.queues)) <==> forall e :: e in h.emitted ==> !Less(r, e)
  {
    hide Flat, Less, DrainAll;
    var op := PushOp(src, r);
    var h' := Step(h, op);
    PushFlat(h.queues, src, r);
    assert AllSorted(h'.queues) by {
      forall i | 0 <= i < |h'.queues|
        ensures Sorted(h'.queues[i])
      {
        assert i != src ==> h'.queues[i] == h.queues[i];
      }
    }
    FinalOutput(h');
    forall x
      ensures x in Flat(h'.queues) <==> x in Flat(h.queues) || x == r
    {
      assert x in multiset(Flat(h'.queues)) <==> x in multiset(Flat(h.queues)) || x == r;
    }
  }

  function EmptyRun(n: nat): MergeRun {
    MergeRun(seq(n, _ => []), [], [], -1)
  }

  /** All eligible drains of a timely run followed by the final drain are one sorted list of everything pushed. */
  lemma RunIsSortedPermutation(n: nat, ops: seq<MergeOp>, last: MergeRun)
    requires TimelyRun(EmptyRun(n), ops, last)
    ensures var all := last.emitted + DrainAll(last.queues);
            Sorted(all) && multiset(all) == multiset(last.pushed)
  {
    hide Flat, DrainAll, TimelyRun;
    NothingQueued(EmptyRun(n).queues);
    RunKeepsInv(EmptyRun(n), ops, last);
    FinalOutput(last);
    assert multiset(last.emitted + DrainAll(last.queues)) == multiset(last.emitted) + multiset(DrainAll(last.queues));
  }
}
