/** The N-source merger with its per-source queues updated in place. */
module MergedRing {
  import opened Bytes
  import opened RecordOrder
  import opened MergeSpec
  import opened MergeRuns

  /** Every source was pushed in key order. */
  ghost predicate AllOrdered(qs: Queues) {
    forall q :: q in qs ==> Ordered(q)
  }

  /** What is emitted is in key order and old enough, what stays is not old enough; time zero passes early. */
  ghost predicate CutRight(out: seq<Rec>, rest: Queues, now: U64, lookback: U64) {
    && Ordered(out)
    && (forall r :: r in out ==> r.gns + lookback <= now || (r.gns == 0 && now < lookback))
    && (forall i, r :: 0 <= i < |rest| && r in rest[i] ==> r.gns + lookback > now)
  }

  lemma OrderedQueues(qs: Queues)
    ensures AllSorted(qs) <==> AllOrdered(qs)
  {
    hide Sorted, Ordered;
    forall i | 0 <= i < |qs|
      ensures Sorted(qs[i]) <==> Ordered(qs[i])
    {
      SortedMeaning(qs[i]);
    }
  }

  /** From sources pushed in order, an eligible drain emits in order what is old enough, and keeps what is not. */
  lemma EligibleMeaning(qs: Queues, now: U64, lookback: U64)
    requires AllOrdered(qs)
    ensures var d := Drain(qs, Cutoff(now, lookback)); CutRight(d.out, d.rest, now, lookback)
  {
    hide Flat, Best, Sorted, Ordered, Drain, Cutoff;
    var cutoff := Cutoff(now, lookback);
    var d := Drain(qs, cutoff);
    OrderedQueues(qs);
    DrainSorts(qs, cutoff);
    SortedMeaning(d.out);
    forall r | r in d.out
      ensures r.gns + lookback <= now || (r.gns == 0 && now < lookback)
    {
      CutoffMeaning(r.gns, now, lookback);
    }
    forall i, r | 0 <= i < |d.rest| && r in d.rest[i]
      ensures r.gns + lookback > now
    {
      FlatMember(d.rest, r);
      CutoffMeaning(r.gns, now, lookback);
    }
  }

  lemma FlushMeaning(qs: Queues)
    ensures Ordered(DrainAll(qs)) && multiset(DrainAll(qs)) == multiset(Flat(qs))
  {
    hide Flat, Sorted, Ordered, StableSort;
    StableSortIsStable(Flat(qs));
    SortedMeaning(DrainAll(qs));
    SameByKeyPermutes(DrainAll(qs), Flat(qs));
  }

  class Merger {
    const ids: seq<seq<Byte>>
    const lookback: U64
    var queues: Queues

    ghost predicate Ok()
      reads this
    {
      Stamped(queues, ids)
    }

    constructor (ids: seq<seq<Byte>>, lookback: U64)
      ensures this.ids == ids && this.lookback == lookback
      ensures Ok() && |queues| == |ids| && forall q :: q in queues ==> q == []
    {
      this.ids, this.lookback := ids, lookback;
      this.queues := seq(|ids|, _ => []);
    }

    /** Appends a record to one source, stamped with that source's target id. */
    method Push(src: nat, gns: U64, srcSeq: U64, payload: seq<Byte>)
      requires Ok() && src < |ids|
      modifies this
      ensures Ok()
      ensures src < |old(queues)| == |queues|
      ensures queues[src] == old(queues[src]) + [Rec(ids[src], gns, srcSeq, payload)]
      ensures forall i :: 0 <= i < |queues| && i != src ==> queues[i] == old(queues[i])
    {
      queues := queues[src := queues[src] + [Rec(ids[src], gns, srcSeq, payload)]];
    }

    /** Pushes to the first source with the given id, if there is one. */
    method PushById(id: seq<Byte>, gns: U64, srcSeq: U64, payload: seq<Byte>) returns (found: bool)
      requires Ok()
      modifies this
      ensures Ok() && (found <==> id in ids)
      ensures !found ==> queues == old(queues)
      ensures found ==> exists src :: 0 <= src < |ids| && ids[src] == id && id !in ids[..src]
                          && queues == old(queues)[src := old(queues)[src] + [Rec(id, gns, srcSeq, payload)]]
    {
      for src := 0 to |ids|
        invariant id !in ids[..src] && queues == old(queues)
      {
        if ids[src] == id {
          Push(src, gns, srcSeq, payload);
          return true;
        }
      }
      return false;
    }

    /** One scan over the heads. */
    method FindBest() returns (b: Option<nat>)
      ensures b == Best(queues, |queues|)
    {
      b := None;
      for i := 0 to |queues|
        invariant b == Best(queues, i)
      {
        if queues[i] != [] {
          if b.None? || Less(queues[i][0], queues[b.value][0]) {
            b := Some(i);
          }
        }
      }
    }

    /** `drain_eligible`: emits exactly what the merge function emits and keeps what it keeps. */
    method DrainEligible(now: U64) returns (out: seq<Rec>)
      requires Ok()
      modifies this
      ensures Ok()
      ensures Drained(out, queues) == Drain(old(queues), Cutoff(now, lookback))
      ensures AllOrdered(old(queues)) ==> CutRight(out, queues, now, lookback)
    {
      hide Flat, Best, Cutoff, AllOrdered, CutRight;
      if AllOrdered(queues) {
        EligibleMeaning(queues, now, lookback);
      }
      var cutoff := Cutoff(now, lookback);
      out := [];
      while true
        invariant Ok()
        invariant var d := Drain(queues, cutoff); Drained(out + d.out, d.rest) == Drain(old(queues), cutoff)
        decreases |Flat(queues)|
      {
        var b := FindBest();
        if b.None? || queues[b.value][0].gns > cutoff {
          break;
        }
        PopStamped(queues, ids);
        assert PopChosen(queues) == Pop(queues, b.value);
        ghost var d := Drain(PopChosen(queues), cutoff);
        assert out + ([Chosen(queues)] + d.out) == out + [Chosen(queues)] + d.out;
        out := out + [queues[b.value][0]];
        queues := Pop(queues, b.value);
      }
    }

    /** `drain_all`: every queue is emptied and the result is stably sorted. */
    method Flush() returns (all: seq<Rec>)
      requires Ok()
      modifies this
      ensures Ok() && |queues| == |ids| && forall q :: q in queues ==> q == []
      ensures all == DrainAll(old(queues))
      ensures Ordered(all) && multiset(all) == multiset(Flat(old(queues)))
    {
      FlushMeaning(queues);
      hide StableSort, Ordered;
      all := [];
      for i := 0 to |queues|
        invariant all + Flat(queues[i..]) == Flat(queues)
        invariant queues == old(queues) && 0 <= i <= |queues|
      {
        assert queues[i..][0] == queues[i] && queues[i..][1..] == queues[i + 1..];
        assert all + (queues[i] + Flat(queues[i + 1..])) == all + queues[i] + Flat(queues[i + 1..]);
        all := all + queues[i];
      }
      assert queues[|queues|..] == [];
      assert all + [] == all == Flat(old(queues));
      all := StableSort(all);
      queues := seq(|ids|, _ => []);
    }

    /** How many records are queued. */
    method Pending() returns (n: nat)
      ensures n == |Flat(queues)|
    {
      n := 0;
      for i := 0 to |queues|
        invariant n + |Flat(queues[i..])| == |Flat(queues)|
      {
        assert queues[i..][0] == queues[i] && queues[i..][1..] == queues[i + 1..];
        n := n + |queues[i]|;
      }
      assert queues[|queues|..] == [];
    }
  }
}
