/** The bounded-lookback k-way merge as a function on the per-source queues, and what whole runs of it emit. */
module MergeSpec {
  import opened Bytes
  import opened RecordOrder

  type Queues = seq<seq<Rec>>

  function Flat(qs: Queues): seq<Rec> {
    if |qs| == 0 then [] else qs[0] + Flat(qs[1..])
  }

  /** The source with the least head among the first `n`, earlier sources winning ties. */
  function Best(qs: Queues, n: nat): (b: Option<nat>)
    requires n <= |qs|
    ensures b.Some? ==> b.value < n && qs[b.value] != []
  {
    if n == 0 then None
    else
      var b := Best(qs, n - 1);
      if qs[n - 1] == [] then b
      else if b.None? || Less(qs[n - 1][0], qs[b.value][0]) then Some(n - 1)
      else b
  }

  function Pop(qs: Queues, b: nat): (r: Queues)
    requires b < |qs| && qs[b] != []
    ensures |r| == |qs|
  {
    qs[b := qs[b][1..]]
  }

  lemma {:induction false} FlatSplit(qs: Queues, b: nat)
    requires b < |qs|
    ensures Flat(qs) == Flat(qs[..b]) + qs[b] + Flat(qs[b + 1..])
    decreases |qs|
  {
    if b == 0 {
      assert qs[..0] == [];
      assert Flat(qs[..0]) == [];
    } else {
      FlatSplit(qs[1..], b - 1);
      assert qs[1..][..b - 1] == qs[..b][1..];
      assert qs[1..][b..] == qs[b + 1..];
      assert qs[1..][b - 1] == qs[b];
      var m, t := Flat(qs[..b][1..]), Flat(qs[b + 1..]);
      assert qs[0] + (m + qs[b] + t) == (qs[0] + m) + qs[b] + t;
    }
  }

  lemma Reassociate(a: seq<Rec>, b: seq<Rec>, c: seq<Rec>)
    ensures a + b + c == a + (b + c)
  {
  }

  lemma Regroup(a: seq<Rec>, q: seq<Rec>, c: seq<Rec>)
    requires q != []
    ensures a + q + c == a + [q[0]] + (q[1..] + c)
  {
    assert q == [q[0]] + q[1..];
    Reassociate(a + [q[0]], q[1..], c);
    Reassociate(a, [q[0]], q[1..]);
  }

  lemma PopFlat(qs: Queues, b: nat)
    requires b < |qs| && qs[b] != []
    ensures Flat(qs) == Flat(qs[..b]) + [qs[b][0]] + (qs[b][1..] + Flat(qs[b + 1..]))
    ensures Flat(Pop(qs, b)) == Flat(qs[..b]) + (qs[b][1..] + Flat(qs[b + 1..]))
  {
    hide Flat;
    var r := Pop(qs, b);
    FlatSplit(qs, b);
    FlatSplit(r, b);
    assert r[..b] == qs[..b] && r[b + 1..] == qs[b + 1..];
    Regroup(Flat(qs[..b]), qs[b], Flat(qs[b + 1..]));
    Reassociate(Flat(qs[..b]), qs[b][1..], Flat(qs[b + 1..]));
  }

  lemma {:induction false} FlatMember(qs: Queues, r: Rec)
    ensures r in Flat(qs) <==> exists i :: 0 <= i < |qs| && r in qs[i]
    decreases |qs|
  {
    if |qs| > 0 {
      FlatMember(qs[1..], r);
      if r in Flat(qs[1..]) {
        var i :| 0 <= i < |qs[1..]| && r in qs[1..][i];
        assert r in qs[i + 1];
      }
      if i :| 0 <= i < |qs| && r in qs[i] {
        if i > 0 {
          assert r in qs[1..][i - 1];
        }
      }
    }
  }

  datatype Drained = Drained(out: seq<Rec>, rest: Queues)

  /** The least head exists and is at or below the cutoff. */
  predicate Eligible(qs: Queues, cutoff: nat) {
    var b := Best(qs, |qs|);
    b.Some? && qs[b.value][0].gns <= cutoff
  }

  function Chosen(qs: Queues): (x: Rec)
    requires Best(qs, |qs|).Some?
  {
    qs[Best(qs, |qs|).value][0]
  }

  function PopChosen(qs: Queues): (r: Queues)
    requires Best(qs, |qs|).Some?
    ensures |r| == |qs| && |Flat(r)| < |Flat(qs)|
  {
    PopFlat(qs, Best(qs, |qs|).value);
    Pop(qs, Best(qs, |qs|).value)
  }

  /** `drain_eligible` for a cutoff: pop least heads while they are at or below it. */
  function Drain(qs: Queues, cutoff: nat): (d: Drained)
    ensures |d.rest| == |qs|
    decreases |Flat(qs)|
  {
    if !Eligible(qs, cutoff) then
      Drained([], qs)
    else
      var d := Drain(PopChosen(qs), cutoff);
      Drained([Chosen(qs)] + d.out, d.rest)
  }

  ghost predicate AllSorted(qs: Queues) {
    forall i :: 0 <= i < |qs| ==> Sorted(qs[i])
  }

  // ---------------------------------------------------------------- the chosen head

  lemma {:induction false} BestIsLeastHead(qs: Queues, n: nat)
    requires n <= |qs|
    ensures var b := Best(qs, n);
            if b.None? then forall i :: 0 <= i < n ==> qs[i] == []
            else && (forall i :: 0 <= i < n && qs[i] != [] ==> !Less(qs[i][0], qs[b.value][0]))
                 && (forall i :: 0 <= i < b.value && qs[i] != [] ==> Less(qs[b.value][0], qs[i][0]))
    decreases n
  {
    if n > 0 {
      BestIsLeastHead(qs, n - 1);
      var b := Best(qs, n - 1);
      if qs[n - 1] != [] {
        var k := KeyOf(qs[n - 1][0]);
        KeyTotal(k, k);
        if b.Some? {
          var kb := KeyOf(qs[b.value][0]);
          KeyTotal(k, kb);
          forall i | 0 <= i < n - 1 && qs[i] != [] && Less(qs[n - 1][0], qs[b.value][0])
            ensures !Less(qs[i][0], qs[n - 1][0]) && Less(qs[n - 1][0], qs[i][0])
          {
            NotLessTrans(k, kb, KeyOf(qs[i][0]));
            KeyTotal(k, KeyOf(qs[i][0]));
          }
        }
      }
    }
  }

  /** With sorted sources the chosen head is least among all queued records. */
  lemma BestIsLeast(qs: Queues, r: Rec)
    requires AllSorted(qs) && Best(qs, |qs|).Some? && r in Flat(qs)
    ensures !Less(r, Chosen(qs))
  {
    hide Flat, Best, Sorted, KeyLess;
    BestIsLeastHead(qs, |qs|);
    FlatMember(qs, r);
    var b := Best(qs, |qs|).value;
    var i :| 0 <= i < |qs| && r in qs[i];
    HeadLeast(qs[i], r);
    NotLessTrans(KeyOf(qs[b][0]), KeyOf(qs[i][0]), KeyOf(r));
  }

  /** No record of an earlier source ties with the chosen head. */
  lemma BestIsFirst(qs: Queues, r: Rec)
    requires AllSorted(qs) && Best(qs, |qs|).Some? && r in Flat(qs[..Best(qs, |qs|).value])
    ensures KeyOf(r) != KeyOf(Chosen(qs))
  {
    hide Flat, Best, Sorted, KeyLess;
    BestIsLeastHead(qs, |qs|);
    var b := Best(qs, |qs|).value;
    FlatMember(qs[..b], r);
    var i :| 0 <= i < b && r in qs[i];
    HeadLeast(qs[i], r);
    KeyTotal(KeyOf(qs[b][0]), KeyOf(qs[i][0]));
  }

  lemma HeadLeast(q: seq<Rec>, r: Rec)
    requires Sorted(q) && r in q
    ensures q != [] && !Less(r, q[0])
  {
    var i :| 0 <= i < |q| && q[i] == r;
    KeyTotal(KeyOf(r), KeyOf(r));
  }

  lemma {:induction false} NothingQueued(qs: Queues)
    requires forall i :: 0 <= i < |qs| ==> qs[i] == []
    ensures Flat(qs) == []
    decreases |qs|
  {
    if |qs| > 0 {
      NothingQueued(qs[1..]);
    }
  }

  // ---------------------------------------------------------------- one drain

  lemma PopCounts(qs: Queues)
    requires Best(qs, |qs|).Some?
    ensures multiset(Flat(qs)) == multiset{Chosen(qs)} + multiset(Flat(PopChosen(qs)))
  {
    hide Flat, Best;
    var b := Best(qs, |qs|).value;
    PopFlat(qs, b);
    Counts(Flat(qs[..b]), qs[b][0], qs[b][1..] + Flat(qs[b + 1..]));
  }

  lemma Counts(a: seq<Rec>, x: Rec, c: seq<Rec>)
    ensures multiset(a + [x] + c) == multiset{x} + multiset(a + c)
  {
  }

  /** Nothing is lost or invented, whatever order the sources are in. */
  lemma {:induction false} DrainConserves(qs: Queues, cutoff: nat)
    ensures var d := Drain(qs, cutoff); multiset(d.out) + multiset(Flat(d.rest)) == multiset(Flat(qs))
    decreases |Flat(qs)|
  {
    hide Flat, Best, PopChosen, Chosen;
    if Eligible(qs, cutoff) {
      PopCounts(qs);
      DrainConserves(PopChosen(qs), cutoff);
      var d := Drain(PopChosen(qs), cutoff);
      assert multiset([Chosen(qs)] + d.out) == multiset{Chosen(qs)} + multiset(d.out);
    }
  }

  lemma DrainMembers(qs: Queues, cutoff: nat, r: Rec)
    ensures var d := Drain(qs, cutoff); r in Flat(qs) <==> r in d.out || r in Flat(d.rest)
  {
    DrainConserves(qs, cutoff);
    hide *;
    var d := Drain(qs, cutoff);
    assert r in multiset(Flat(qs)) <==> r in multiset(d.out) || r in multiset(Flat(d.rest));
  }

  lemma PopSorted(qs: Queues)
    requires AllSorted(qs) && Best(qs, |qs|).Some?
    ensures AllSorted(PopChosen(qs))
  {
    hide Less, Best, Flat;
    var r, b := PopChosen(qs), Best(qs, |qs|).value;
    forall i | 0 <= i < |r|
      ensures Sorted(r[i])
    {
      assert Sorted(qs[i]);
      assert i != b ==> r[i] == qs[i];
    }
  }

  lemma NotEligible(qs: Queues, cutoff: nat, r: Rec)
    requires AllSorted(qs) && !Eligible(qs, cutoff) && r in Flat(qs)
    ensures r.gns > cutoff
  {
    if Best(qs, |qs|).None? {
      BestIsLeastHead(qs, |qs|);
      NothingQueued(qs);
    } else {
      BestIsLeast(qs, r);
    }
  }

  /** From sorted sources, everything at or below the cutoff comes out sorted, and nothing else does. */
  lemma {:induction false} DrainSorts(qs: Queues, cutoff: nat)
    requires AllSorted(qs)
    ensures var d := Drain(qs, cutoff);
            && Sorted(d.out) && AllSorted(d.rest)
            && (forall r :: r in d.out ==> r.gns <= cutoff)
            && (forall r :: r in Flat(d.rest) ==> r.gns > cutoff)
    decreases |Flat(qs)|
  {
    if !Eligible(qs, cutoff) {
      forall r | r in Flat(qs)
        ensures r.gns > cutoff
      {
        NotEligible(qs, cutoff, r);
      }
    } else {
      hide Flat, Best, AllSorted, Less, PopChosen;
      var x, r := Chosen(qs), PopChosen(qs);
      PopSorted(qs);
      DrainSorts(r, cutoff);
      var out := Drain(r, cutoff).out;
      forall y | y in out
        ensures !Less(y, x)
      {
        DrainMembers(r, cutoff, y);
        PopCounts(qs);
        assert y in multiset(Flat(qs));
        BestIsLeast(qs, y);
      }
      SortedCons(x, out);
    }
  }

  lemma SortedCons(x: Rec, s: seq<Rec>)
    requires Sorted(s) && forall y :: y in s ==> !Less(y, x)
    ensures Sorted([x] + s)
  {
    hide Less;
    var t := [x] + s;
    forall i, j | 0 <= i < j < |t|
      ensures !Less(t[j], t[i])
    {
      assert t[j] == s[j - 1];
      if i > 0 {
        assert t[i] == s[i - 1];
      }
    }
  }

  /** Popping the chosen head takes the first queued record of its key. */
  lemma PopByKey(qs: Queues, k: Key)
    requires AllSorted(qs) && Best(qs, |qs|).Some?
    ensures Of(Flat(qs), k) == Of([Chosen(qs)], k) + Of(Flat(PopChosen(qs)), k)
  {
    hide Flat, Best, AllSorted, KeyOf;
    var b, x := Best(qs, |qs|).value, Chosen(qs);
    PopFlat(qs, b);
    var before, after := Flat(qs[..b]), qs[b][1..] + Flat(qs[b + 1..]);
    if KeyOf(x) == k {
      forall r | r in before
        ensures KeyOf(r) != k
      {
        BestIsFirst(qs, r);
      }
      OfMember(before, k);
    }
    FirstOfKey(before, x, after, k);
  }

  lemma FirstOfKey(before: seq<Rec>, x: Rec, after: seq<Rec>, k: Key)
    requires KeyOf(x) == k ==> Of(before, k) == []
    ensures Of(before + [x] + after, k) == Of([x], k) + Of(before + after, k)
  {
    OfConcat(before + [x], after, k);
    OfConcat(before, [x], k);
    OfConcat(before, after, k);
  }

  /** Among records of equal key the drain takes them in queue order. */
  lemma {:induction false} DrainByKey(qs: Queues, cutoff: nat, k: Key)
    requires AllSorted(qs)
    ensures var d := Drain(qs, cutoff); Of(d.out, k) + Of(Flat(d.rest), k) == Of(Flat(qs), k)
    decreases |Flat(qs)|
  {
    hide Flat, Best, PopChosen, Chosen, AllSorted;
    if !Eligible(qs, cutoff) {
      assert Of([], k) + Of(Flat(qs), k) == Of(Flat(qs), k);
    } else {
      hide Of;
      var x, r := Chosen(qs), PopChosen(qs);
      PopSorted(qs);
      PopByKey(qs, k);
      DrainByKey(r, cutoff, k);
      var d := Drain(r, cutoff);
      OfConcat([x], d.out, k);
      Reassociate(Of([x], k), Of(d.out, k), Of(Flat(d.rest), k));
    }
  }

  /** `drain_all`: every queued record, stably sorted. */
  function DrainAll(qs: Queues): seq<Rec> {
    StableSort(Flat(qs))
  }

  /** With a cutoff above every queued record the k-way merge and the final sort give the same list, ties included. */
  lemma DrainMatchesDrainAll(qs: Queues, cutoff: nat)
    requires AllSorted(qs) && forall r :: r in Flat(qs) ==> r.gns <= cutoff
    ensures Drain(qs, cutoff).out == DrainAll(qs) && Flat(Drain(qs, cutoff).rest) == []
  {
    hide Drain, Flat, StableSort, Sorted;
    var d := Drain(qs, cutoff);
    DrainSorts(qs, cutoff);
    if Flat(d.rest) != [] {
      DrainMembers(qs, cutoff, Flat(d.rest)[0]);
      assert false;
    }
    StableSortIsStable(Flat(qs));
    forall k: Key
      ensures Of(d.out, k) == Of(DrainAll(qs), k)
    {
      DrainByKey(qs, cutoff, k);
    }
    StableSortUnique(d.out, DrainAll(qs));
  }

  /** Splitting the work at any cutoff changes nothing: an eligible drain, then the final drain, is the final drain. */
  lemma DrainThenDrainAll(qs: Queues, cutoff: nat)
    requires AllSorted(qs)
    ensures Drain(qs, cutoff).out + DrainAll(Drain(qs, cutoff).rest) == DrainAll(qs)
  {
    hide Drain, Flat, StableSort;
    var d := Drain(qs, cutoff);
    var tail := DrainAll(d.rest);
    DrainSorts(qs, cutoff);
    StableSortIsStable(Flat(qs));
    StableSortIsStable(Flat(d.rest));
    SameByKeyPermutes(tail, Flat(d.rest));
    SortedAppend(d.out, tail, cutoff);
    forall k: Key
      ensures Of(d.out + tail, k) == Of(DrainAll(qs), k)
    {
      OfConcat(d.out, tail, k);
      DrainByKey(qs, cutoff, k);
    }
    StableSortUnique(d.out + tail, DrainAll(qs));
  }

  lemma SortedAppend(a: seq<Rec>, b: seq<Rec>, top: int)
    requires Sorted(a) && Sorted(b)
    requires forall r :: r in a ==> r.gns <= top
    requires forall r :: r in multiset(b) ==> r.gns > top
    ensures Sorted(a + b)
  {
    forall x, y | x in a && y in b
      ensures !Less(y, x)
    {
      assert y in multiset(b);
    }
    SortedConcat(a, b);
  }

  lemma SortedConcat(a: seq<Rec>, b: seq<Rec>)
    requires Sorted(a) && Sorted(b) && forall x, y :: x in a && y in b ==> !Less(y, x)
    ensures Sorted(a + b)
  {
    hide Less;
    var s := a + b;
    forall i, j | 0 <= i < j < |s|
      ensures !Less(s[j], s[i])
    {
      if i < |a| <= j {
        assert s[i] in a && s[j] in b;
      } else if |a| <= i {
        assert !Less(b[j - |a|], b[i - |a|]);
      }
    }
  }

  // ---------------------------------------------------------------- what sortedness of the sources buys

  /**
   * When everything is drained, the output is sorted exactly when each source was pushed in order: the
   * merge looks at heads only and never repairs a source.
   */
  lemma {:induction false} SortedOutputIff(qs: Queues, cutoff: nat)
    requires Flat(Drain(qs, cutoff).rest) == []
    ensures Sorted(Drain(qs, cutoff).out) <==> AllSorted(qs)
    decreases |Flat(qs)|
  {
    if !Eligible(qs, cutoff) {
      NoneQueued(qs);
    } else if AllSorted(qs) {
      DrainSorts(qs, cutoff);
    } else if Sorted(Drain(qs, cutoff).out) {
      var x, r := Chosen(qs), PopChosen(qs);
      var out := Drain(r, cutoff).out;
      var t := [x] + out;
      assert Sorted(t);
      assert out == t[1..];
      SortedOutputIff(r, cutoff);
      PrependSorted(qs, cutoff);
    }
  }

  lemma {:induction false} NoneQueued(qs: Queues)
    requires Flat(qs) == []
    ensures forall i :: 0 <= i < |qs| ==> qs[i] == []
    decreases |qs|
  {
    if |qs| > 0 {
      NoneQueued(qs[1..]);
      forall i | 0 <= i < |qs|
        ensures qs[i] == []
      {
        assert i > 0 ==> qs[i] == qs[1..][i - 1];
      }
    }
  }

  lemma PrependSorted(qs: Queues, cutoff: nat)
    requires Eligible(qs, cutoff) && Flat(Drain(qs, cutoff).rest) == []
    requires Sorted(Drain(qs, cutoff).out) && AllSorted(PopChosen(qs))
    ensures AllSorted(qs)
  {
    var b, x, r := Best(qs, |qs|).value, Chosen(qs), PopChosen(qs);
    var t, out := Drain(qs, cutoff).out, Drain(r, cutoff).out;
    assert t == [x] + out && Flat(Drain(r, cutoff).rest) == [];
    assert qs[b] == [x] + r[b];
    hide Best, Flat, Drain, Less;
    forall y | y in r[b]
      ensures !Less(y, x)
    {
      FlatMember(r, y);
      DrainMembers(r, cutoff, y);
      var j :| 0 <= j < |out| && out[j] == y;
      assert !Less(t[j + 1], t[0]);
    }
    SortedCons(x, r[b]);
    forall i | 0 <= i < |qs|
      ensures Sorted(qs[i])
    {
      assert i != b ==> qs[i] == r[i];
    }
  }

  /** The records of one target, in order. */
  function From(s: seq<Rec>, t: seq<Byte>): seq<Rec> {
    if |s| == 0 then [] else (if s[0].target == t then [s[0]] else []) + From(s[1..], t)
  }

  lemma {:induction false} FromConcat(a: seq<Rec>, b: seq<Rec>, t: seq<Byte>)
    ensures From(a + b, t) == From(a, t) + From(b, t)
    decreases |a|
  {
    if |a| == 0 {
      assert a + b == b;
    } else {
      FromConcat(a[1..], b, t);
      assert (a + b)[0] == a[0] && (a + b)[1..] == a[1..] + b;
      var h := if a[0].target == t then [a[0]] else [];
      Reassociate(h, From(a[1..], t), From(b, t));
    }
  }

  lemma {:induction false} FromNone(s: seq<Rec>, t: seq<Byte>)
    requires forall r :: r in s ==> r.target != t
    ensures From(s, t) == []
    decreases |s|
  {
    if |s| > 0 {
      assert s[0] in s;
      FromNone(s[1..], t);
    }
  }

  /** Every queued record carries its source's target id. */
  ghost predicate Stamped(qs: Queues, ids: seq<seq<Byte>>) {
    |qs| == |ids| && forall i, r :: 0 <= i < |qs| && r in qs[i] ==> r.target == ids[i]
  }

  ghost predicate Distinct(ids: seq<seq<Byte>>) {
    forall i, j :: 0 <= i < j < |ids| ==> ids[i] != ids[j]
  }

  lemma PopStamped(qs: Queues, ids: seq<seq<Byte>>)
    requires Stamped(qs, ids) && Best(qs, |qs|).Some?
    ensures Stamped(PopChosen(qs), ids) && Chosen(qs).target == ids[Best(qs, |qs|).value]
  {
    hide Best, Flat;
    var b, q := Best(qs, |qs|).value, PopChosen(qs);
    forall i, r: Rec | 0 <= i < |q| && r in q[i]
      ensures r.target == ids[i]
    {
      assert r in qs[i];
    }
    assert Chosen(qs) in qs[b];
  }

  lemma FirstOfTarget(before: seq<Rec>, x: Rec, after: seq<Rec>, t: seq<Byte>)
    requires x.target == t ==> From(before, t) == []
    ensures From(before + [x] + after, t) == From([x], t) + From(before + after, t)
  {
    FromConcat(before + [x], after, t);
    FromConcat(before, [x], t);
    FromConcat(before, after, t);
  }

  lemma PopFrom(qs: Queues, ids: seq<seq<Byte>>, t: seq<Byte>)
    requires Stamped(qs, ids) && Distinct(ids) && Best(qs, |qs|).Some?
    ensures From(Flat(qs), t) == From([Chosen(qs)], t) + From(Flat(PopChosen(qs)), t)
  {
    hide Flat, Best, From;
    var b, x := Best(qs, |qs|).value, Chosen(qs);
    PopFlat(qs, b);
    PopStamped(qs, ids);
    var before := Flat(qs[..b]);
    if x.target == t {
      forall r | r in before
        ensures r.target != t
      {
        FlatMember(qs[..b], r);
        var i :| 0 <= i < b && r in qs[..b][i];
        assert r in qs[i];
      }
      FromNone(before, t);
    }
    FirstOfTarget(before, x, qs[b][1..] + Flat(qs[b + 1..]), t);
  }

  /** Records of one target leave in the order they were pushed, sorted or not. */
  lemma {:induction false} TargetOrderKept(qs: Queues, ids: seq<seq<Byte>>, cutoff: nat, t: seq<Byte>)
    requires Stamped(qs, ids) && Distinct(ids)
    ensures var d := Drain(qs, cutoff); From(d.out, t) + From(Flat(d.rest), t) == From(Flat(qs), t)
    decreases |Flat(qs)|
  {
    hide Flat, Best, PopChosen, Chosen;
    if !Eligible(qs, cutoff) {
      assert From([], t) + From(Flat(qs), t) == From(Flat(qs), t);
    } else {
      hide From;
      var x, r := Chosen(qs), PopChosen(qs);
      PopFrom(qs, ids, t);
      PopStamped(qs, ids);
      hide Stamped;
      TargetOrderKept(r, ids, cutoff, t);
      var d := Drain(r, cutoff);
      FromConcat([x], d.out, t);
      Reassociate(From([x], t), From(d.out, t), From(Flat(d.rest), t));
    }
  }
}
