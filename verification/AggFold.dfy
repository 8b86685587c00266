/** What a row holds after any sequence of snapshots, and when the order of arrival matters. */
module AggFold {
  import opened Bytes
  import opened AggSpec

  /** One snapshot of the row's own kind folded into the row's value; a value of the wrong shape is ignored. */
  function Accumulate(k: Kind, acc: Value, v: Value): Value {
    if IsHist(k) then
      if acc.Histogram? && v.Histogram? then Histogram(AddAll(Collect(acc.buckets), v.buckets)) else acc
    else if acc.Scalar? && v.Scalar? then
      match k
      case Min => Scalar(if v.v < acc.v then v.v else acc.v)
      case Max => Scalar(if v.v > acc.v then v.v else acc.v)
      case _ => Scalar(WrapI64(acc.v + v.v))
    else
      acc
  }

  /** The row after one snapshot. A histogram takes over a scalar row; any other clash only records the contributor. */
  function MergeCell(row: Option<Cell>, s: Snapshot): Cell {
    var cell := if row.None? then Cell(s.kind, EmptyValue(s.kind), map[]) else row.value;
    var contributors := cell.contributors[s.target := s.value];
    if cell.kind != s.kind then
      if IsHist(s.kind) && !IsHist(cell.kind) then
        Cell(s.kind, s.value, contributors)
      else
        cell.(contributors := contributors)
    else
      Cell(cell.kind, Accumulate(cell.kind, cell.value, s.value), contributors)
  }

  function Fold(ss: seq<Snapshot>): (row: Option<Cell>)
    ensures row.None? <==> ss == []
  {
    if |ss| == 0 then None else Some(MergeCell(Fold(ss[..|ss| - 1]), ss[|ss| - 1]))
  }

  /** Scalar kinds carry scalars, histogram kinds carry ascending bucket lists. */
  ghost predicate WellFormed(s: Snapshot) {
    if IsHist(s.kind) then s.value.Histogram? && Ascending(s.value.buckets) else s.value.Scalar?
  }

  ghost predicate AllKind(ss: seq<Snapshot>, k: Kind) {
    forall s :: s in ss ==> WellFormed(s) && s.kind == k
  }

  /** Scalars of any kinds mixed with histograms of the one kind `k`. */
  ghost predicate OneHistogramKind(ss: seq<Snapshot>, k: Kind) {
    IsHist(k) && forall s :: s in ss ==> WellFormed(s) && (IsHist(s.kind) ==> s.kind == k)
  }

  ghost predicate Present(ss: seq<Snapshot>, k: Kind) {
    exists s :: s in ss && s.kind == k
  }

  // ---------------------------------------------------------------- sums over snapshots

  datatype Weight = ScalarOf | BucketOf(kind: Kind, at: int)

  function Weigh(w: Weight, s: Snapshot): int {
    match w
    case ScalarOf => if s.value.Scalar? then s.value.v else 0
    case BucketOf(k, at) => if s.kind == k && s.value.Histogram? then Lookup(s.value.buckets, at) else 0
  }

  function SumBy(ss: seq<Snapshot>, w: Weight): int {
    if |ss| == 0 then 0 else SumBy(ss[..|ss| - 1], w) + Weigh(w, ss[|ss| - 1])
  }

  lemma {:induction false} SumConcat(a: seq<Snapshot>, b: seq<Snapshot>, w: Weight)
    ensures SumBy(a + b, w) == SumBy(a, w) + SumBy(b, w)
    decreases |b|
  {
    if |b| == 0 {
      assert a + b == a;
    } else {
      SumConcat(a, b[..|b| - 1], w);
      assert (a + b)[..|a + b| - 1] == a + b[..|b| - 1];
    }
  }

  lemma RemoveAt(b: seq<Snapshot>, i: nat)
    requires i < |b|
    ensures multiset(b) == multiset(b[..i] + b[i + 1..]) + multiset{b[i]}
  {
    assert b == b[..i] + [b[i]] + b[i + 1..];
  }

  lemma Cancel(a: multiset<Snapshot>, b: multiset<Snapshot>, x: Snapshot)
    requires a + multiset{x} == b + multiset{x}
    ensures a == b
  {
    assert a == (a + multiset{x}) - multiset{x};
    assert b == (b + multiset{x}) - multiset{x};
  }

  lemma SumRemoveAt(b: seq<Snapshot>, i: nat, w: Weight)
    requires i < |b|
    ensures SumBy(b, w) == SumBy(b[..i] + b[i + 1..], w) + Weigh(w, b[i])
  {
    hide Weigh;
    assert b == b[..i] + [b[i]] + b[i + 1..];
    SumConcat(b[..i] + [b[i]], b[i + 1..], w);
    SumConcat(b[..i], [b[i]], w);
    SumConcat(b[..i], b[i + 1..], w);
    assert SumBy([b[i]], w) == SumBy([b[i]][..0], w) + Weigh(w, b[i]);
  }

  lemma {:induction false} SumPermutes(a: seq<Snapshot>, b: seq<Snapshot>, w: Weight)
    requires multiset(a) == multiset(b)
    ensures SumBy(a, w) == SumBy(b, w)
    decreases |a|
  {
    assert |a| == |multiset(a)| == |multiset(b)| == |b|;
    if |a| > 0 {
      hide Weigh, SumBy;
      var n := |a| - 1;
      assert a[n] in multiset(b);
      var i :| 0 <= i < |b| && b[i] == a[n];
      RemoveAt(a, n);
      RemoveAt(b, i);
      SumRemoveAt(a, n, w);
      SumRemoveAt(b, i, w);
      Cancel(multiset(a[..n] + a[n + 1..]), multiset(b[..i] + b[i + 1..]), a[n]);
      SumPermutes(a[..n] + a[n + 1..], b[..i] + b[i + 1..], w);
    }
  }

  // ---------------------------------------------------------------- rows of one scalar kind

  /** A snapshot of the row's own kind is accumulated; the first one starts from the kind's neutral value. */
  lemma FoldSameKind(ss: seq<Snapshot>)
    requires ss != []
    ensures var t, s := ss[..|ss| - 1], ss[|ss| - 1];
            if t == [] then
              Fold(ss).value.kind == s.kind && Fold(ss).value.value == Accumulate(s.kind, EmptyValue(s.kind), s.value)
            else if Fold(t).value.kind == s.kind then
              Fold(ss).value.kind == s.kind && Fold(ss).value.value == Accumulate(s.kind, Fold(t).value.value, s.value)
            else if IsHist(s.kind) && !IsHist(Fold(t).value.kind) then
              Fold(ss).value.kind == s.kind && Fold(ss).value.value == s.value
            else
              Fold(ss).value.kind == Fold(t).value.kind && Fold(ss).value.value == Fold(t).value.value
  {
    hide Accumulate, EmptyValue;
  }

  lemma {:induction false} SumRow(ss: seq<Snapshot>, k: Kind)
    requires ss != [] && AllKind(ss, k) && (k.Count? || k.Sum?)
    ensures Fold(ss).value.kind == k && Fold(ss).value.value == Scalar(WrapI64(SumBy(ss, ScalarOf)))
    decreases |ss|
  {
    hide WrapI64, Fold, AddAll, Collect;
    var t, s := ss[..|ss| - 1], ss[|ss| - 1];
    assert s in ss;
    FoldSameKind(ss);
    if t != [] {
      SumRow(t, k);
      WrapAdd(SumBy(t, ScalarOf), s.value.v);
    } else {
      assert SumBy(ss, ScalarOf) == s.value.v;
    }
  }

  predicate AtMost(k: Kind, a: int, b: int) {
    if k.Min? then a <= b else b <= a
  }

  lemma AccumulateBound(k: Kind, acc: Value, v: Value)
    requires (k.Min? || k.Max?) && acc.Scalar? && v.Scalar?
    ensures var r := Accumulate(k, acc, v);
            && (r == acc || r == v) && AtMost(k, r.v, acc.v) && AtMost(k, r.v, v.v)
            && (acc == EmptyValue(k) ==> r == v)
            && forall x: int :: AtMost(k, acc.v, x) ==> AtMost(k, r.v, x)
  {
  }

  /** The row is the least (or greatest) of its snapshots, and one of them. */
  lemma {:induction false} BoundRow(ss: seq<Snapshot>, k: Kind)
    requires ss != [] && AllKind(ss, k) && (k.Min? || k.Max?)
    ensures var c := Fold(ss).value;
            && c.kind == k && c.value.Scalar?
            && (exists s :: s in ss && s.value == c.value)
            && forall s :: s in ss ==> AtMost(k, c.value.v, s.value.v)
    decreases |ss|
  {
    hide Fold, Accumulate, AtMost;
    var t, s := ss[..|ss| - 1], ss[|ss| - 1];
    assert s in ss && ss == t + [s];
    FoldSameKind(ss);
    if t != [] {
      BoundRow(t, k);
      var x :| x in t && x.value == Fold(t).value.value;
      assert x in ss;
      AccumulateBound(k, Fold(t).value.value, s.value);
    } else {
      AccumulateBound(k, EmptyValue(k), s.value);
    }
  }

  // ---------------------------------------------------------------- rows with histograms

  /** Some snapshot of kind `k` lists the bucket. */
  ghost predicate Lists(ss: seq<Snapshot>, k: Kind, at: int) {
    exists s :: s in ss && s.kind == k && s.value.Histogram? && Has(s.value.buckets, at)
  }

  lemma {:induction false} ScalarsOnly(ss: seq<Snapshot>, k: Kind, at: int)
    requires ss != [] && OneHistogramKind(ss, k) && !Present(ss, k)
    ensures !IsHist(Fold(ss).value.kind) && SumBy(ss, BucketOf(k, at)) == 0 && !Lists(ss, k, at)
    decreases |ss|
  {
    hide Fold, SumBy, Lists, Present, OneHistogramKind, Accumulate, EmptyValue, Has, Lookup, Ascending;
    PresentSnoc(ss, k, at);
    FoldSameKind(ss);
    NoSnapshots(k, at);
    var t := ss[..|ss| - 1];
    if t != [] {
      ScalarsOnly(t, k, at);
    } else {
      assert t == [];
    }
  }

  /** The row's value: an ascending histogram of kind `k`. */
  ghost predicate IsHistRow(c: Cell, k: Kind) {
    c.kind == k && c.value.Histogram? && Ascending(c.value.buckets)
  }

  /** Folding one more ascending histogram into an ascending one adds bucket by bucket. */
  lemma AccumulateHist(k: Kind, acc: Value, v: Value, at: int)
    requires IsHist(k) && acc.Histogram? && v.Histogram? && Ascending(acc.buckets) && Ascending(v.buckets)
    ensures var r := Accumulate(k, acc, v);
            && r.Histogram? && Ascending(r.buckets)
            && (Has(r.buckets, at) <==> Has(acc.buckets, at) || Has(v.buckets, at))
            && Lookup(r.buckets, at) == WrapU64(Lookup(acc.buckets, at) + Lookup(v.buckets, at))
  {
    hide AddAll, Collect, Has, Lookup, Ascending, WrapU64, WrapI64;
    CollectAscending(acc.buckets);
    AddAllAscends(acc.buckets, v.buckets);
    AddAllMeaning(acc.buckets, v.buckets, at);
  }

  lemma ListsSnoc(t: seq<Snapshot>, s: Snapshot, k: Kind, at: int)
    requires s.kind == k ==> s.value.Histogram?
    ensures Lists(t + [s], k, at) <==> Lists(t, k, at) || (s.kind == k && Has(s.value.buckets, at))
  {
    hide Has;
    assert s in t + [s];
    if Lists(t, k, at) {
      var x :| x in t && x.kind == k && x.value.Histogram? && Has(x.value.buckets, at);
      assert x in t + [s];
    }
  }

  lemma AnySnoc(t: seq<Snapshot>, s: Snapshot, k: Kind)
    ensures Present(t + [s], k) <==> Present(t, k) || s.kind == k
  {
    assert s in t + [s];
    if Present(t, k) {
      var x :| x in t && x.kind == k;
      assert x in t + [s];
    }
  }

  lemma KindsSnoc(t: seq<Snapshot>, s: Snapshot, k: Kind)
    requires OneHistogramKind(t + [s], k)
    ensures OneHistogramKind(t, k) && WellFormed(s) && (IsHist(s.kind) ==> s.kind == k) && IsHist(k)
  {
    hide WellFormed;
    assert s in t + [s];
    assert forall x :: x in t ==> x in t + [s];
  }

  lemma PresentSnoc(ss: seq<Snapshot>, k: Kind, at: int)
    requires ss != [] && OneHistogramKind(ss, k)
    ensures var t, s := ss[..|ss| - 1], ss[|ss| - 1];
            && OneHistogramKind(t, k) && WellFormed(s) && (IsHist(s.kind) ==> s.kind == k)
            && (Present(ss, k) <==> Present(t, k) || s.kind == k)
            && (Lists(ss, k, at) <==> Lists(t, k, at) || (s.kind == k && Has(s.value.buckets, at)))
            && SumBy(ss, BucketOf(k, at))
               == SumBy(t, BucketOf(k, at)) + if s.kind == k then Lookup(s.value.buckets, at) else 0
  {
    hide Ascending, Has, Lookup, Lists, Present, OneHistogramKind;
    var t, s := ss[..|ss| - 1], ss[|ss| - 1];
    assert ss == t + [s];
    KindsSnoc(t, s, k);
    AnySnoc(t, s, k);
    ListsSnoc(t, s, k, at);
  }

  lemma HistogramKind(ss: seq<Snapshot>, k: Kind)
    requires OneHistogramKind(ss, k)
    ensures IsHist(k) && (Present(ss, k) ==> ss != [])
  {
  }

  /**
   * A row that got histograms of one kind, with scalars of any kinds in between, holds the bucketwise sum
   * of the histograms alone.
   */
  lemma {:induction false} HistogramRow(ss: seq<Snapshot>, k: Kind, at: int)
    requires OneHistogramKind(ss, k) && Present(ss, k)
    ensures IsHistRow(Fold(ss).value, k)
    ensures var h := Fold(ss).value.value.buckets;
            (Has(h, at) <==> Lists(ss, k, at)) && Lookup(h, at) == WrapU64(SumBy(ss, BucketOf(k, at)))
    decreases |ss|
  {
    hide Fold, Accumulate, SumBy, WrapU64, Has, Lookup, Ascending, Lists, Present, OneHistogramKind, WrapI64;
    HistogramKind(ss, k);
    var t, s := ss[..|ss| - 1], ss[|ss| - 1];
    FoldSameKind(ss);
    PresentSnoc(ss, k, at);
    if Present(t, k) {
      NotEmpty(t, k);
      HistogramRow(t, k, at);
      if s.kind == k {
        NextHistogram(Fold(t).value.value, s.value, k, at, SumBy(t, BucketOf(k, at)));
      }
    } else {
      FirstHistogram(ss, k, at);
    }
  }

  lemma NextHistogram(acc: Value, v: Value, k: Kind, at: int, sum: int)
    requires IsHist(k) && acc.Histogram? && v.Histogram? && Ascending(acc.buckets) && Ascending(v.buckets)
    requires Lookup(acc.buckets, at) == WrapU64(sum)
    ensures var r := Accumulate(k, acc, v);
            && r.Histogram? && Ascending(r.buckets)
            && (Has(r.buckets, at) <==> Has(acc.buckets, at) || Has(v.buckets, at))
            && Lookup(r.buckets, at) == WrapU64(sum + Lookup(v.buckets, at))
  {
    hide Accumulate, WrapU64, Has, Lookup, Ascending;
    AccumulateHist(k, acc, v, at);
    WrapAdd(sum, Lookup(v.buckets, at));
  }

  lemma FirstHistogram(ss: seq<Snapshot>, k: Kind, at: int)
    requires ss != [] && OneHistogramKind(ss, k) && !Present(ss[..|ss| - 1], k) && ss[|ss| - 1].kind == k
    ensures IsHistRow(Fold(ss).value, k)
    ensures var h := Fold(ss).value.value.buckets;
            (Has(h, at) <==> Lists(ss, k, at)) && Lookup(h, at) == WrapU64(SumBy(ss, BucketOf(k, at)))
  {
    hide Fold, Accumulate, SumBy, WrapU64, Has, Lookup, Ascending, Lists, Present, OneHistogramKind, WrapI64;
    HistogramKind(ss, k);
    PresentSnoc(ss, k, at);
    var t, s := ss[..|ss| - 1], ss[|ss| - 1];
    FoldSameKind(ss);
    LookupBound(s.value.buckets, at);
    WrapSmall(Lookup(s.value.buckets, at));
    if t != [] {
      ScalarsOnly(t, k, at);
    } else {
      NoSnapshots(k, at);
      AccumulateHist(k, Histogram([]), s.value, at);
    }
  }

  lemma NotEmpty(ss: seq<Snapshot>, k: Kind)
    requires Present(ss, k)
    ensures ss != []
  {
  }

  lemma NoSnapshots(k: Kind, at: int)
    ensures SumBy([], BucketOf(k, at)) == 0 && !Lists([], k, at)
    ensures !Has([], at) && Lookup([], at) == 0 && Ascending([])
  {
  }

  // ---------------------------------------------------------------- order of arrival

  /** All snapshots share one kind, or histograms of one kind are among them. */
  ghost predicate Compatible(ss: seq<Snapshot>) {
    (exists k :: AllKind(ss, k)) || (exists k :: OneHistogramKind(ss, k) && Present(ss, k))
  }

  lemma SameMembers(a: seq<Snapshot>, b: seq<Snapshot>)
    requires multiset(a) == multiset(b)
    ensures forall s :: s in a <==> s in b
    ensures a == [] <==> b == []
  {
    forall s
      ensures s in a <==> s in b
    {
      assert s in multiset(a) <==> s in multiset(b);
    }
    if a != [] { assert a[0] in b; }
    if b != [] { assert b[0] in a; }
  }

  lemma HistogramRowsAgree(a: seq<Snapshot>, b: seq<Snapshot>, k: Kind)
    requires multiset(a) == multiset(b) && OneHistogramKind(a, k) && Present(a, k)
    ensures b != [] && Fold(a).value.kind == Fold(b).value.kind && Fold(a).value.value == Fold(b).value.value
  {
    SameMembers(a, b);
    assert OneHistogramKind(b, k) && Present(b, k);
    HistogramRow(a, k, 0);
    HistogramRow(b, k, 0);
    hide Fold, Has, Lookup, Ascending, OneHistogramKind, Present, SumBy;
    var g, h := Fold(a).value.value.buckets, Fold(b).value.value.buckets;
    forall at: int
      ensures Has(g, at) == Has(h, at) && Lookup(g, at) == Lookup(h, at)
    {
      HistogramRow(a, k, at);
      HistogramRow(b, k, at);
      SumPermutes(a, b, BucketOf(k, at));
    }
    AscendingUnique(g, h);
  }

  lemma ScalarRowsAgree(a: seq<Snapshot>, b: seq<Snapshot>, k: Kind)
    requires multiset(a) == multiset(b) && a != [] && AllKind(a, k) && !IsHist(k)
    ensures b != [] && Fold(a).value.kind == Fold(b).value.kind && Fold(a).value.value == Fold(b).value.value
  {
    hide Fold, WellFormed;
    SameMembers(a, b);
    assert AllKind(b, k);
    if k.Min? || k.Max? {
      BoundRow(a, k);
      BoundRow(b, k);
      var x :| x in a && x.value == Fold(a).value.value;
      var y :| y in b && y.value == Fold(b).value.value;
      assert x in b && y in a;
    } else {
      SumRow(a, k);
      SumRow(b, k);
      SumPermutes(a, b, ScalarOf);
    }
  }

  /** For compatible snapshots the row's kind and value do not depend on the order of arrival. */
  lemma OrderIndependent(a: seq<Snapshot>, b: seq<Snapshot>)
    requires multiset(a) == multiset(b) && a != [] && Compatible(a)
    ensures b != [] && Fold(a).value.kind == Fold(b).value.kind && Fold(a).value.value == Fold(b).value.value
  {
    hide Fold;
    if k :| AllKind(a, k) {
      if IsHist(k) {
        assert a[0] in a;
        HistogramRowsAgree(a, b, k);
      } else {
        ScalarRowsAgree(a, b, k);
      }
    } else {
      var k :| OneHistogramKind(a, k) && Present(a, k);
      HistogramRowsAgree(a, b, k);
    }
  }

  /** Two snapshots commute exactly when they share a kind or exactly one of them is a histogram. */
  lemma PairCommutesIff(x: Snapshot, y: Snapshot)
    requires WellFormed(x) && WellFormed(y)
    ensures Fold([x, y]).value.kind == Fold([y, x]).value.kind && Fold([x, y]).value.value == Fold([y, x]).value.value
            <==> x.kind == y.kind || IsHist(x.kind) != IsHist(y.kind)
  {
    var a, b := [x, y], [y, x];
    assert multiset(a) == multiset(b);
    if x.kind == y.kind || IsHist(x.kind) != IsHist(y.kind) {
      if x.kind == y.kind {
        assert AllKind(a, x.kind);
      } else {
        var k := if IsHist(x.kind) then x.kind else y.kind;
        assert x in a && y in a;
        assert OneHistogramKind(a, k) && Present(a, k);
      }
      OrderIndependent(a, b);
    } else {
      FirstKind(x, y);
      FirstKind(y, x);
    }
  }

  lemma FirstKind(x: Snapshot, y: Snapshot)
    requires IsHist(x.kind) == IsHist(y.kind)
    ensures Fold([x, y]).value.kind == x.kind
  {
    hide Accumulate;
    assert [x, y][..1] == [x] && [x][..0] == [];
    FoldSameKind([x]);
    FoldSameKind([x, y]);
  }

  // ---------------------------------------------------------------- contributors

  ghost predicate DistinctTargets(ss: seq<Snapshot>) {
    forall i, j :: 0 <= i < j < |ss| ==> ss[i].target != ss[j].target
  }

  lemma FoldContributors(ss: seq<Snapshot>)
    requires ss != []
    ensures var t, s := ss[..|ss| - 1], ss[|ss| - 1];
            Fold(ss).value.contributors == (if t == [] then map[] else Fold(t).value.contributors)[s.target := s.value]
  {
    hide Accumulate, EmptyValue;
  }

  /** The map holds each snapshot under its target and nothing else. */
  ghost predicate HoldsExactly(c: map<Text, Value>, ss: seq<Snapshot>) {
    && (forall s :: s in ss ==> s.target in c && c[s.target] == s.value)
    && (forall t :: t in c ==> exists s :: s in ss && s.target == t)
  }

  /** With one snapshot per target, the contributors are exactly the snapshots. */
  lemma {:induction false} ContributorsAreSnapshots(ss: seq<Snapshot>)
    requires ss != [] && DistinctTargets(ss)
    ensures HoldsExactly(Fold(ss).value.contributors, ss)
    decreases |ss|
  {
    hide Fold, DistinctTargets;
    var t, s := ss[..|ss| - 1], ss[|ss| - 1];
    FoldContributors(ss);
    TargetsSnoc(ss);
    if t != [] {
      ContributorsAreSnapshots(t);
    }
  }

  lemma SameContributors(c: map<Text, Value>, d: map<Text, Value>, a: seq<Snapshot>, b: seq<Snapshot>)
    requires HoldsExactly(c, a) && HoldsExactly(d, b) && forall s :: s in a <==> s in b
    ensures c == d
  {
    forall t
      ensures t in c <==> t in d
      ensures t in c ==> c[t] == d[t]
    {
      if t in c {
        var s :| s in a && s.target == t;
        assert s in b;
      }
      if t in d {
        var s :| s in b && s.target == t;
        assert s in a;
      }
    }
  }

  lemma TargetsSnoc(ss: seq<Snapshot>)
    requires ss != [] && DistinctTargets(ss)
    ensures DistinctTargets(ss[..|ss| - 1])
    ensures forall s :: s in ss <==> s in ss[..|ss| - 1] || s == ss[|ss| - 1]
    ensures forall s :: s in ss[..|ss| - 1] ==> s.target != ss[|ss| - 1].target
  {
    assert ss == ss[..|ss| - 1] + [ss[|ss| - 1]];
  }

  lemma PairRow(a: Snapshot, b: Snapshot)
    requires AllKind([a, b], a.kind) && (a.kind.Count? || a.kind.Sum?)
    ensures var c := Fold([a, b]).value;
            && c.value == Scalar(WrapI64(a.value.v + b.value.v))
            && c.contributors == map[a.target := a.value][b.target := b.value]
  {
    hide Fold, WrapI64, AllKind;
    var ss := [a, b];
    assert ss[..1] == [a] && [a][..0] == [];
    SumRow(ss, a.kind);
    FoldContributors(ss);
    FoldContributors([a]);
    assert a in ss && b in ss;
    assert a.value.Scalar? && b.value.Scalar? by { AllScalar(ss, a.kind); }
    assert SumBy([a], ScalarOf) == a.value.v;
  }

  lemma AllScalar(ss: seq<Snapshot>, k: Kind)
    requires AllKind(ss, k) && !IsHist(k)
    ensures forall s :: s in ss ==> s.value.Scalar?
  {
  }

  /**
   * A second snapshot from the same target replaces its contribution but is added on top of the row: the
   * two agree exactly when the replaced snapshot was zero.
   */
  lemma ResnapshotDoubleCountsIff(target: Text, k: Kind, x: I64, y: I64)
    requires k.Count? || k.Sum?
    ensures var c := Fold([Snapshot(target, k, Scalar(x)), Snapshot(target, k, Scalar(y))]).value;
            && c.value == Scalar(WrapI64(x + y)) && c.contributors == map[target := Scalar(y)]
            && (c.value == c.contributors[target] <==> x == 0)
  {
    hide Fold, WrapI64, AllKind;
    var a, b := Snapshot(target, k, Scalar(x)), Snapshot(target, k, Scalar(y));
    BothOfKind(a, b);
    PairRow(a, b);
    WrapsBack(x, y);
    assert map[target := a.value][target := b.value] == map[target := b.value];
  }

  lemma BothOfKind(a: Snapshot, b: Snapshot)
    requires WellFormed(a) && WellFormed(b) && a.kind == b.kind
    ensures AllKind([a, b], a.kind)
  {
  }

  lemma WrapsBack(x: I64, y: I64)
    ensures WrapI64(x + y) == y <==> x == 0
  {
  }
}
