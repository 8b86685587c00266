/** What a caller of the merger has to keep to, stated on its own calls, and what it then gets. */
module MergeDiscipline {
  import opened RecordOrder
  import opened MergeSpec
  import opened MergeRuns

  /**
   * Each source is pushed in order, and every record is above the cutoff of every earlier drain. Nothing is
   * said about what the merger holds or has emitted.
   */
  ghost predicate Disciplined(n: nat, ops: seq<MergeOp>) {
    && (forall op :: op in ops && op.PushOp? ==> op.src < n)
    && (forall i, j :: 0 <= i < j < |ops| && ops[i].PushOp? && ops[j].PushOp? && ops[i].src == ops[j].src ==>
          !Less(ops[j].r, ops[i].r))
    && (forall i, j :: 0 <= i < j < |ops| && ops[i].DrainOp? && ops[j].PushOp? ==> ops[j].r.gns > ops[i].cutoff)
  }

  /** The records of all pushes, in call order. */
  function Pushes(ops: seq<MergeOp>): seq<Rec> {
    if |ops| == 0 then [] else Pushes(ops[..|ops| - 1]) + if ops[|ops| - 1].PushOp? then [ops[|ops| - 1].r] else []
  }

  /** The merger after all the calls. */
  function After(h: MergeRun, ops: seq<MergeOp>): (last: MergeRun)
    requires forall op :: op in ops && op.PushOp? ==> op.src < |h.queues|
    ensures |last.queues| == |h.queues|
  {
    if |ops| == 0 then h else Step(After(h, ops[..|ops| - 1]), ops[|ops| - 1])
  }

  /** Everything queued was pushed to its own source, and the largest cutoff belongs to some drain. */
  ghost predicate Traces(h: MergeRun, ops: seq<MergeOp>) {
    && (forall s, e :: 0 <= s < |h.queues| && e in h.queues[s] ==> PushOp(s, e) in ops)
    && (h.top >= 0 ==> DrainOp(h.top) in ops)
    && h.pushed == Pushes(ops)
  }

  lemma {:induction false} RestOfSource(qs: Queues, cutoff: nat, s: nat, e: Rec)
    requires s < |qs|
    ensures e in Drain(qs, cutoff).rest[s] ==> e in qs[s]
    decreases |Flat(qs)|
  {
    hide Flat, Best, Less;
    if Eligible(qs, cutoff) {
      RestOfSource(PopChosen(qs), cutoff, s, e);
    }
  }

  lemma StepTraces(h: MergeRun, ops: seq<MergeOp>, op: MergeOp)
    requires Traces(h, ops) && (op.PushOp? ==> op.src < |h.queues|)
    ensures Traces(Step(h, op), ops + [op])
  {
    hide Drain;
    var h', ops' := Step(h, op), ops + [op];
    assert ops'[..|ops|] == ops && op in ops';
    forall s, e | 0 <= s < |h'.queues| && e in h'.queues[s]
      ensures PushOp(s, e) in ops'
    {
      if op.DrainOp? {
        RestOfSource(h.queues, op.cutoff, s, e);
      }
      assert PushOp(s, e) in ops || PushOp(s, e) == op;
    }
    assert Pushes(ops') == Pushes(ops) + if op.PushOp? then [op.r] else [];
  }

  lemma SortedSnoc(q: seq<Rec>, r: Rec)
    requires Sorted(q) && forall e :: e in q ==> !Less(r, e)
    ensures Sorted(q + [r])
  {
    hide Less;
  }

  /** A disciplined call is timely for a merger that has seen the calls before it. */
  lemma CallIsTimely(n: nat, h: MergeRun, ops: seq<MergeOp>, op: MergeOp)
    requires RunInv(h) && Traces(h, ops) && |h.queues| == n && Disciplined(n, ops + [op])
    ensures Timely(h, op)
  {
    hide Less, Sorted, Flat;
    var all := ops + [op];
    assert op in all && all[|ops|] == op;
    if op.PushOp? {
      forall e | e in h.queues[op.src]
        ensures !Less(op.r, e)
      {
        var i :| 0 <= i < |ops| && ops[i] == PushOp(op.src, e);
        assert all[i] == ops[i];
      }
      SortedSnoc(h.queues[op.src], op.r);
      if h.top >= 0 {
        var i :| 0 <= i < |ops| && ops[i] == DrainOp(h.top);
        assert all[i] == ops[i];
      }
      AboveCutoffsIsTimely(h, op.r);
    }
  }

  lemma DisciplinedPrefix(n: nat, ops: seq<MergeOp>, k: nat)
    requires Disciplined(n, ops) && k <= |ops|
    ensures Disciplined(n, ops[..k])
  {
    hide Less;
    forall op | op in ops[..k] && op.PushOp?
      ensures op.src < n
    {
      assert op in ops;
    }
  }

  lemma {:induction false} DisciplinedInv(n: nat, ops: seq<MergeOp>)
    requires Disciplined(n, ops)
    ensures var last := After(EmptyRun(n), ops); RunInv(last) && Traces(last, ops)
    decreases |ops|
  {
    hide Disciplined, Timely, RunInv, Traces, Step;
    Bounded(n, ops);
    if |ops| == 0 {
      EmptyInv(n);
    } else {
      var k := |ops| - 1;
      DisciplinedPrefix(n, ops, k);
      DisciplinedInv(n, ops[..k]);
      var h := After(EmptyRun(n), ops[..k]);
      assert ops == ops[..k] + [ops[k]];
      CallIsTimely(n, h, ops[..k], ops[k]);
      StepKeeps(h, ops[k]);
      StepTraces(h, ops[..k], ops[k]);
    }
  }

  lemma Bounded(n: nat, ops: seq<MergeOp>)
    requires Disciplined(n, ops)
    ensures forall op :: op in ops && op.PushOp? ==> op.src < |EmptyRun(n).queues|
  {
  }

  lemma EmptyInv(n: nat)
    ensures RunInv(EmptyRun(n)) && Traces(EmptyRun(n), [])
  {
    NothingQueued(EmptyRun(n).queues);
  }

  lemma StepKeeps(h: MergeRun, op: MergeOp)
    requires RunInv(h) && Timely(h, op) && (op.PushOp? ==> op.src < |h.queues|)
    ensures RunInv(Step(h, op))
  {
    hide RunInv, Step, Timely;
    if op.PushOp? { PushKeepsInv(h, op); } else { DrainKeepsInv(h, op); }
  }

  /**
   * A caller that pushes each source in order and never below an earlier cutoff gets, from all its eligible
   * drains followed by the final drain, one sorted list that is a permutation of everything it pushed.
   */
  lemma DisciplinedRunIsSorted(n: nat, ops: seq<MergeOp>)
    requires Disciplined(n, ops)
    ensures var last := After(EmptyRun(n), ops);
            var all := last.emitted + DrainAll(last.queues);
            Sorted(all) && multiset(all) == multiset(Pushes(ops))
  {
    hide Disciplined, RunInv, DrainAll, Sorted, After;
    Bounded(n, ops);
    DisciplinedInv(n, ops);
    var last := After(EmptyRun(n), ops);
    FinalSorted(last);
  }

  lemma FinalSorted(last: MergeRun)
    requires RunInv(last)
    ensures var all := last.emitted + DrainAll(last.queues); Sorted(all) && multiset(all) == multiset(last.pushed)
  {
    hide Flat, DrainAll, Sorted, Less;
    FinalOutput(last);
    assert multiset(last.emitted + DrainAll(last.queues)) == multiset(last.emitted) + multiset(DrainAll(last.queues));
  }
}
