/** What a row holds after any snapshots whatever, of any kinds in any order. */
module AggRows {
  import opened Bytes
  import opened AggSpec
  import opened AggFold

  /** The snapshots of one kind, in order. */
  function OfKind(ss: seq<Snapshot>, k: Kind): seq<Snapshot> {
    if |ss| == 0 then []
    else
      var t, s := OfKind(ss[..|ss| - 1], k), ss[|ss| - 1];
      if s.kind == k then t + [s] else t
  }

  predicate Buckets(k: Kind) {
    k == Quantize || k == Lquantize
  }

  /** The kind of the first histogram among the snapshots, or, if there is none, of the first snapshot. */
  ghost predicate Decides(ss: seq<Snapshot>, i: nat) {
    && i < |ss|
    && if Buckets(ss[i].kind) then forall j :: 0 <= j < i ==> !Buckets(ss[j].kind)
       else i == 0 && forall j :: 0 <= j < |ss| ==> !Buckets(ss[j].kind)
  }

  /** The first histogram decides a row's kind, before that the first snapshot. */
  lemma {:induction false} KindDecided(ss: seq<Snapshot>) returns (i: nat)
    requires ss != []
    ensures Decides(ss, i) && Fold(ss).value.kind == ss[i].kind
    decreases |ss|
  {
    hide Fold, Accumulate, EmptyValue;
    FoldSameKind(ss);
    var n := |ss| - 1;
    var t, s := ss[..n], ss[n];
    if t == [] {
      i := 0;
    } else {
      i := KindDecided(t);
      if Buckets(s.kind) && !Buckets(t[i].kind) {
        i := n;
      }
    }
  }

  lemma {:induction false} OfKindMembers(ss: seq<Snapshot>, k: Kind)
    ensures forall s :: s in OfKind(ss, k) <==> s in ss && s.kind == k
    decreases |ss|
  {
    if |ss| > 0 {
      var t, s := ss[..|ss| - 1], ss[|ss| - 1];
      OfKindMembers(t, k);
      assert ss == t + [s];
      assert forall x :: x in ss <==> x in t || x == s;
    }
  }

  lemma {:induction false} FoldKind(ss: seq<Snapshot>, k: Kind)
    requires ss != [] && forall s :: s in ss ==> s.kind == k
    ensures Fold(ss).value.kind == k
    decreases |ss|
  {
    hide Fold, Accumulate, EmptyValue;
    FoldSameKind(ss);
    assert ss[|ss| - 1] in ss;
    if |ss| > 1 {
      FoldKind(ss[..|ss| - 1], k);
    }
  }

  lemma AddedToNothing(v: seq<Bucket>)
    requires Ascending(v)
    ensures AddAll(Collect([]), v) == v
  {
    hide Has, Lookup, Ascending, AddAll, WrapU64, WrapI64;
    NothingAscends();
    AddAllAscends([], v);
    forall at: int
      ensures Has(AddAll([], v), at) == Has(v, at) && Lookup(AddAll([], v), at) == Lookup(v, at)
    {
      AddAllMeaning([], v, at);
      NoBuckets(at);
      LookupBound(v, at);
      WrapSmall(Lookup(v, at));
    }
    AscendingUnique(AddAll([], v), v);
  }

  lemma NothingAscends()
    ensures Ascending([]) && Collect([]) == []
  {
  }

  ghost predicate AllWellFormed(ss: seq<Snapshot>) {
    forall s :: s in ss ==> WellFormed(s)
  }

  lemma OfKindSnoc(ss: seq<Snapshot>, k: Kind)
    requires ss != []
    ensures var t, s := ss[..|ss| - 1], ss[|ss| - 1]; OfKind(ss, k) == OfKind(t, k) + if s.kind == k then [s] else []
    ensures OfKind([], k) == []
  {
    var t := ss[..|ss| - 1];
    assert OfKind(t, k) + [] == OfKind(t, k);
  }

  /** Folding one more snapshot of the row's kind. */
  lemma FoldSnoc(a: seq<Snapshot>, s: Snapshot, k: Kind)
    requires s.kind == k && forall x :: x in a ==> x.kind == k
    ensures Fold(a + [s]).value.value ==
            Accumulate(k, if a == [] then EmptyValue(k) else Fold(a).value.value, s.value)
  {
    hide Fold, Accumulate, EmptyValue;
    var all := a + [s];
    assert all[..|all| - 1] == a;
    FoldSameKind(all);
    if a != [] {
      FoldKind(a, k);
    }
  }

  lemma FirstHistogramStays(s: Snapshot)
    requires WellFormed(s) && Buckets(s.kind)
    ensures Accumulate(s.kind, EmptyValue(s.kind), s.value) == s.value
  {
    hide AddAll, Collect, Ascending;
    AddedToNothing(s.value.buckets);
  }

  /** A row's value is what the snapshots of its own kind alone fold to. */
  lemma {:induction false} OwnKindOnly(ss: seq<Snapshot>)
    requires ss != [] && AllWellFormed(ss)
    ensures var k := Fold(ss).value.kind;
            OfKind(ss, k) != [] && Fold(ss).value.value == Fold(OfKind(ss, k)).value.value
    decreases |ss|
  {
    hide Fold, Accumulate, EmptyValue, OfKind, WellFormed;
    var t, s, k := ss[..|ss| - 1], ss[|ss| - 1], Fold(ss).value.kind;
    assert s in ss;
    FoldSameKind(ss);
    OfKindSnoc(ss, k);
    OfKindMembers(t, k);
    if t == [] {
      FoldSnoc([], s, k);
      assert [] + [s] == [s];
    } else {
      OwnKindOnly(t);
      if Fold(t).value.kind == s.kind {
        FoldSnoc(OfKind(t, k), s, k);
      } else if k == s.kind {
        var i := KindDecided(t);
        NoneOfKind(t, k);
        FoldSnoc([], s, k);
        FirstHistogramStays(s);
        assert [] + [s] == [s];
      } else {
        assert OfKind(t, k) + [] == OfKind(t, k);
      }
    }
  }

  lemma NoneOfKind(t: seq<Snapshot>, k: Kind)
    requires forall j :: 0 <= j < |t| ==> t[j].kind != k
    ensures OfKind(t, k) == []
  {
    OfKindMembers(t, k);
    if OfKind(t, k) != [] {
      assert OfKind(t, k)[0] in OfKind(t, k);
    }
  }

  /** The sum of the scalars of one kind. */
  ghost function Total(ss: seq<Snapshot>, k: Kind): int {
    SumBy(OfKind(ss, k), ScalarOf)
  }

  /** The sum of one bucket over the histograms of one kind. */
  ghost function BucketTotal(ss: seq<Snapshot>, k: Kind, at: int): int {
    SumBy(OfKind(ss, k), BucketOf(k, at))
  }

  /** Equal as 64-bit numbers. */
  predicate SameWord(a: int, b: int) {
    (a - b) % 0x1_0000_0000_0000_0000 == 0
  }

  /** What the value of a row of kind `k` is, in terms of the snapshots of that kind. */
  ghost predicate HoldsFor(value: Value, ss: seq<Snapshot>, k: Kind) {
    match k
    case Count => value.Scalar? && SameWord(value.v, Total(ss, k))
    case Sum => value.Scalar? && SameWord(value.v, Total(ss, k))
    case Min =>
      && value.Scalar? && (exists s :: s in ss && s.kind == k && s.value == value)
      && forall s :: s in ss && s.kind == k && s.value.Scalar? ==> value.v <= s.value.v
    case Max =>
      && value.Scalar? && (exists s :: s in ss && s.kind == k && s.value == value)
      && forall s :: s in ss && s.kind == k && s.value.Scalar? ==> s.value.v <= value.v
    case _ =>
      && value.Histogram? && Ascending(value.buckets)
      && forall at: int ::
           && (Has(value.buckets, at) <==> Lists(ss, k, at))
           && SameWord(Lookup(value.buckets, at), BucketTotal(ss, k, at))
  }

  lemma SumHolds(ss: seq<Snapshot>, k: Kind)
    requires (k == Count || k == Sum) && OfKind(ss, k) != [] && AllKind(OfKind(ss, k), k)
    ensures HoldsFor(Fold(OfKind(ss, k)).value.value, ss, k)
  {
    hide Fold, OfKind, AllKind, SumBy;
    SumRow(OfKind(ss, k), k);
    Swapped(Total(ss, k), WrapI64(Total(ss, k)));
  }

  lemma Swapped(a: int, b: int)
    requires SameWord(a, b)
    ensures SameWord(b, a)
  {
  }

  lemma BoundHolds(ss: seq<Snapshot>, k: Kind)
    requires (k == Min || k == Max) && OfKind(ss, k) != [] && AllKind(OfKind(ss, k), k)
    ensures HoldsFor(Fold(OfKind(ss, k)).value.value, ss, k)
  {
    hide Fold, OfKind, AllKind;
    BoundRow(OfKind(ss, k), k);
    OfKindMembers(ss, k);
  }

  lemma HistogramHolds(ss: seq<Snapshot>, k: Kind)
    requires Buckets(k) && OfKind(ss, k) != [] && AllKind(OfKind(ss, k), k)
    ensures HoldsFor(Fold(OfKind(ss, k)).value.value, ss, k)
  {
    hide Fold, OfKind, SumBy, Has, Lookup, Ascending, WrapU64;
    var own := OfKind(ss, k);
    assert own[0] in own;
    assert OneHistogramKind(own, k) && Present(own, k);
    HistogramRow(own, k, 0);
    forall at: int
      ensures (Has(Fold(own).value.value.buckets, at) <==> Lists(ss, k, at))
      ensures SameWord(Lookup(Fold(own).value.value.buckets, at), BucketTotal(ss, k, at))
    {
      HistogramRow(own, k, at);
      OfKindMembers(ss, k);
      Swapped(BucketTotal(ss, k, at), WrapU64(BucketTotal(ss, k, at)));
    }
  }

  /**
   * After any snapshots whatever, well-formed each: the row's kind is that of the first histogram, or of the first
   * snapshot if there is none, and its value is the sum, bound or bucketwise sum of the snapshots of that kind.
   */
  lemma RowMeaning(ss: seq<Snapshot>)
    requires ss != [] && AllWellFormed(ss)
    ensures exists i: nat :: Decides(ss, i) && Fold(ss).value.kind == ss[i].kind
    ensures HoldsFor(Fold(ss).value.value, ss, Fold(ss).value.kind)
  {
    hide Fold, OfKind, HoldsFor;
    var i := KindDecided(ss);
    var k := Fold(ss).value.kind;
    OwnKindOnly(ss);
    OfKindMembers(ss, k);
    match k
    case Count => SumHolds(ss, k);
    case Sum => SumHolds(ss, k);
    case Min => BoundHolds(ss, k);
    case Max => BoundHolds(ss, k);
    case _ => HistogramHolds(ss, k);
  }
}
