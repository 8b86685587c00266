/** Whether the final drain keeps the order in which each target pushed its records. */
module MergeTargets {
  import opened Bytes
  import opened RecordOrder
  import opened MergeSpec

  lemma {:induction false} FromMember(s: seq<Rec>, t: seq<Byte>, r: Rec)
    requires r in From(s, t)
    ensures r in s
    decreases |s|
  {
    if s[0] != r {
      FromMember(s[1..], t, r);
    }
  }

  lemma {:induction false} FromAll(s: seq<Rec>, t: seq<Byte>)
    requires forall r :: r in s ==> r.target == t
    ensures From(s, t) == s
    decreases |s|
  {
    if |s| > 0 {
      assert s[0] in s && s == [s[0]] + s[1..];
      FromAll(s[1..], t);
    }
  }

  /** One target's part of a sorted list is sorted. */
  lemma {:induction false} FromSorted(s: seq<Rec>, t: seq<Byte>)
    requires Sorted(s)
    ensures Sorted(From(s, t))
    decreases |s|
  {
    hide Less;
    if |s| > 0 {
      FromSorted(s[1..], t);
      var rest := From(s[1..], t);
      forall r | r in rest
        ensures !Less(r, s[0])
      {
        FromMember(s[1..], t, r);
      }
      SortedCons(s[0], rest);
      assert [] + rest == rest;
    }
  }

  /** The queued records of a source are exactly those that carry its id. */
  lemma FromQueue(qs: Queues, ids: seq<seq<Byte>>, i: nat)
    requires Stamped(qs, ids) && Distinct(ids) && i < |qs|
    ensures From(Flat(qs), ids[i]) == qs[i]
  {
    hide Flat, From;
    var t, before, after := ids[i], Flat(qs[..i]), Flat(qs[i + 1..]);
    FlatSplit(qs, i);
    FromConcat(before + qs[i], after, t);
    FromConcat(before, qs[i], t);
    forall r | r in before
      ensures r.target != t
    {
      FlatMember(qs[..i], r);
      var j :| 0 <= j < |qs[..i]| && r in qs[..i][j];
      assert r in qs[j];
    }
    forall r | r in after
      ensures r.target != t
    {
      FlatMember(qs[i + 1..], r);
      var j :| 0 <= j < |qs[i + 1..]| && r in qs[i + 1..][j];
      assert r in qs[i + 1 + j];
    }
    FromNone(before, t);
    FromNone(after, t);
    FromAll(qs[i], t);
    assert [] + qs[i] + [] == qs[i];
  }

  /** The final drain hands out each target's records in the order they were pushed. */
  ghost predicate KeepsTargets(qs: Queues) {
    forall t :: From(DrainAll(qs), t) == From(Flat(qs), t)
  }

  /** It does so exactly when every source was pushed in key order. */
  lemma DrainAllKeepsTargetsIff(qs: Queues, ids: seq<seq<Byte>>)
    requires Stamped(qs, ids) && Distinct(ids)
    ensures KeepsTargets(qs) <==> AllSorted(qs)
  {
    hide Flat, From, Sorted, Stamped, Distinct;
    if AllSorted(qs) {
      var top := Top(Flat(qs));
      DrainMatchesDrainAll(qs, top);
      hide DrainAll;
      forall t
        ensures From(DrainAll(qs), t) == From(Flat(qs), t)
      {
        TargetOrderKept(qs, ids, top, t);
        FromNone([], t);
        assert From(DrainAll(qs), t) + [] == From(DrainAll(qs), t);
      }
    } else {
      var i :| 0 <= i < |qs| && !Sorted(qs[i]);
      StampedSize(qs, ids);
      FromQueue(qs, ids, i);
      StableSortIsStable(Flat(qs));
      FromSorted(DrainAll(qs), ids[i]);
      assert From(DrainAll(qs), ids[i]) != From(Flat(qs), ids[i]);
    }
  }

  lemma StampedSize(qs: Queues, ids: seq<seq<Byte>>)
    requires Stamped(qs, ids)
    ensures |qs| == |ids|
  {
  }

  /** A time no record is later than. */
  ghost function Top(s: seq<Rec>): (top: nat)
    ensures forall r :: r in s ==> r.gns <= top
  {
    if |s| == 0 then 0
    else
      var t := Top(s[1..]);
      assert s == [s[0]] + s[1..];
      if s[0].gns > t then s[0].gns else t
  }

  /** One source pushes a record stamped 2 and then one stamped 1: the final drain turns them around. */
  lemma DrainAllReorders(target: seq<Byte>, a: Rec, b: Rec)
    requires a.target == b.target == target && a.gns == 2 && b.gns == 1
    ensures DrainAll([[a, b]]) == [b, a] && From(DrainAll([[a, b]]), target) != From(Flat([[a, b]]), target)
  {
    var qs := [[a, b]];
    assert qs[1..] == [] && Flat([]) == [];
    assert Flat(qs) == [a, b] + [] == [a, b];
    assert [a, b][..1] == [a] && [a][..0] == [];
    assert StableSort([]) == [];
    assert StableSort([a]) == Insert([], a) == [a];
    assert Less(b, a) && StableSort([a, b]) == Insert([a], b) == [b] + [a];
    FromAll([a, b], target);
    FromAll([b, a], target);
  }
}
