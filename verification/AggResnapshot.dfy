/** Rows whose targets report more than once: when the row still agrees with the contributions it lists. */
module AggResnapshot {
  import opened AggSpec
  import opened AggFold

  /** What is compared: a scalar's amount, or the count in one bucket. */
  datatype Measure = Amount | CountAt(at: int)

  function ValueOf(m: Measure, v: Value): int {
    match m
    case Amount => if v.Scalar? then v.v else 0
    case CountAt(at) => if v.Histogram? then Lookup(v.buckets, at) else 0
  }

  ghost predicate Appears(ss: seq<Snapshot>, t: Text) {
    exists s :: s in ss && s.target == t
  }

  /** Each target's last value. */
  function Latest(ss: seq<Snapshot>): map<Text, Value> {
    if |ss| == 0 then map[] else Latest(ss[..|ss| - 1])[ss[|ss| - 1].target := ss[|ss| - 1].value]
  }

  function Total(ss: seq<Snapshot>, m: Measure): int {
    if |ss| == 0 then 0 else Total(ss[..|ss| - 1], m) + ValueOf(m, ss[|ss| - 1].value)
  }

  /** What the snapshots added that a later snapshot of the same target replaced. */
  ghost function Replaced(ss: seq<Snapshot>, m: Measure): int {
    if |ss| == 0 then 0
    else (if Appears(ss[1..], ss[0].target) then ValueOf(m, ss[0].value) else 0) + Replaced(ss[1..], m)
  }

  /** The sum over all contributions. */
  ghost function MapTotal(c: map<Text, Value>, m: Measure): int
    decreases |c|
  {
    if c == map[] then 0
    else
      var t :| t in c;
      Smaller(c, t);
      ValueOf(m, c[t]) + MapTotal(c - {t}, m)
  }

  lemma Smaller(c: map<Text, Value>, t: Text)
    requires t in c
    ensures |c - {t}| < |c|
  {
    assert (c - {t}).Keys == c.Keys - {t};
    assert |c.Keys| == |c.Keys - {t}| + 1;
  }

  lemma {:induction false} MapTotalAt(c: map<Text, Value>, m: Measure, t: Text)
    requires t in c
    ensures MapTotal(c, m) == ValueOf(m, c[t]) + MapTotal(c - {t}, m)
    decreases |c|
  {
    hide ValueOf;
    var u :| u in c && MapTotal(c, m) == ValueOf(m, c[u]) + MapTotal(c - {u}, m);
    if u != t {
      Smaller(c, u);
      MapTotalAt(c - {u}, m, t);
      Smaller(c, t);
      MapTotalAt(c - {t}, m, u);
      assert c - {u} - {t} == c - {t} - {u};
    }
  }

  lemma MapTotalAdd(c: map<Text, Value>, m: Measure, t: Text, v: Value)
    requires t !in c
    ensures MapTotal(c[t := v], m) == MapTotal(c, m) + ValueOf(m, v)
  {
    hide ValueOf, MapTotal;
    MapTotalAt(c[t := v], m, t);
    assert c[t := v] - {t} == c;
  }

  lemma {:induction false} TotalCons(x: Snapshot, r: seq<Snapshot>, m: Measure)
    ensures Total([x] + r, m) == ValueOf(m, x.value) + Total(r, m)
    decreases |r|
  {
    hide ValueOf;
    var ss := [x] + r;
    if |r| == 0 {
      assert ss == [x] && ss[..0] == [];
    } else {
      TotalCons(x, r[..|r| - 1], m);
      assert ss[..|ss| - 1] == [x] + r[..|r| - 1];
    }
  }

  lemma {:induction false} LatestKeys(ss: seq<Snapshot>, t: Text)
    ensures t in Latest(ss) <==> Appears(ss, t)
    ensures t in Latest(ss) ==> exists s :: s in ss && s.target == t && s.value == Latest(ss)[t]
    decreases |ss|
  {
    if |ss| > 0 {
      var b, s := ss[..|ss| - 1], ss[|ss| - 1];
      LatestKeys(b, t);
      assert ss == b + [s];
      AppearsSnoc(b, s, t);
      if t != s.target && t in Latest(b) {
        var y :| y in b && y.target == t && y.value == Latest(b)[t];
        assert y in ss;
      } else {
        assert s in ss;
      }
    }
  }

  lemma {:induction false} LatestCons(x: Snapshot, r: seq<Snapshot>)
    ensures Latest([x] + r) == if x.target in Latest(r) then Latest(r) else Latest(r)[x.target := x.value]
    decreases |r|
  {
    var ss := [x] + r;
    if |r| == 0 {
      assert ss == [x] && ss[..0] == [];
    } else {
      var b, s := r[..|r| - 1], r[|r| - 1];
      LatestCons(x, b);
      assert ss[..|ss| - 1] == [x] + b && ss[|ss| - 1] == s;
      hide Latest;
      LatestSnoc(r);
      LatestSnoc(ss);
    }
  }

  lemma LatestSnoc(ss: seq<Snapshot>)
    requires ss != []
    ensures Latest(ss) == Latest(ss[..|ss| - 1])[ss[|ss| - 1].target := ss[|ss| - 1].value]
  {
  }

  lemma AppearsSnoc(b: seq<Snapshot>, s: Snapshot, t: Text)
    ensures Appears(b + [s], t) <==> Appears(b, t) || t == s.target
  {
    assert s in b + [s];
    if Appears(b, t) {
      var y :| y in b && y.target == t;
      assert y in b + [s];
    }
  }

  /** Everything added is what the contributions hold plus what was replaced. */
  lemma {:induction false} TotalSplits(ss: seq<Snapshot>, m: Measure)
    ensures Total(ss, m) == MapTotal(Latest(ss), m) + Replaced(ss, m)
    decreases |ss|
  {
    hide ValueOf, MapTotal, Latest, Total, Appears;
    if |ss| == 0 {
      NothingHeld(m);
      assert ss == [];
    } else {
      var x, r := ss[0], ss[1..];
      assert ss == [x] + r;
      TotalSplits(r, m);
      TotalCons(x, r, m);
      LatestCons(x, r);
      LatestKeys(r, x.target);
      if x.target !in Latest(r) {
        MapTotalAdd(Latest(r), m, x.target, x.value);
      }
    }
  }

  lemma NothingHeld(m: Measure)
    ensures Total([], m) == 0 && Latest([]) == map[] && MapTotal(map[], m) == 0
  {
  }

  /** The contributors of a row are each target's last value, however often it reported. */
  lemma {:induction false} ContributorsAreLatest(ss: seq<Snapshot>)
    requires ss != []
    ensures Fold(ss).value.contributors == Latest(ss)
    decreases |ss|
  {
    hide Fold;
    FoldContributors(ss);
    if |ss| > 1 {
      ContributorsAreLatest(ss[..|ss| - 1]);
    } else {
      assert ss[..0] == [];
    }
  }

  lemma {:induction false} SumIsTotal(ss: seq<Snapshot>, w: Weight, m: Measure)
    requires forall s :: s in ss ==> Weigh(w, s) == ValueOf(m, s.value)
    ensures SumBy(ss, w) == Total(ss, m)
    decreases |ss|
  {
    hide Weigh, ValueOf;
    if |ss| > 0 {
      SumIsTotal(ss[..|ss| - 1], w, m);
      assert ss[|ss| - 1] in ss;
    }
  }

  // ---------------------------------------------------------------- counts and sums

  lemma WrapsAlike(a: int, d: int)
    ensures WrapI64(a + d) == WrapI64(a) <==> d % 0x1_0000_0000_0000_0000 == 0
    ensures WrapU64(a + d) == WrapU64(a) <==> d % 0x1_0000_0000_0000_0000 == 0
  {
    SameResidueIff(a + 0x8000_0000_0000_0000, d);
    SameResidueIff(a, d);
  }

  lemma SameResidueIff(a: int, d: int)
    ensures (a + d) % 0x1_0000_0000_0000_0000 == a % 0x1_0000_0000_0000_0000 <==> d % 0x1_0000_0000_0000_0000 == 0
  {
  }

  lemma AmountsWeigh(ss: seq<Snapshot>)
    ensures forall s :: s in ss ==> Weigh(ScalarOf, s) == ValueOf(Amount, s.value)
  {
  }

  /**
   * A row of counts or sums, from any snapshots of any targets, equals the sum of its contributions exactly
   * when what was replaced adds up to nothing (modulo 2^64).
   */
  lemma SumRowAgreesIff(ss: seq<Snapshot>, k: Kind)
    requires ss != [] && AllKind(ss, k) && (k.Count? || k.Sum?)
    ensures var c := Fold(ss).value;
            c.value == Scalar(WrapI64(MapTotal(c.contributors, Amount))) <==>
            Replaced(ss, Amount) % 0x1_0000_0000_0000_0000 == 0
  {
    hide Fold, AllKind, SumBy, Total, MapTotal, Replaced, WrapI64, WrapU64, Latest, ValueOf, Weigh;
    SumRow(ss, k);
    ContributorsAreLatest(ss);
    AmountsWeigh(ss);
    SumIsTotal(ss, ScalarOf, Amount);
    TotalSplits(ss, Amount);
    WrapsAlike(MapTotal(Latest(ss), Amount), Replaced(ss, Amount));
  }

  // ---------------------------------------------------------------- histograms

  lemma BucketsWeigh(ss: seq<Snapshot>, k: Kind, at: int)
    requires OneHistogramKind(ss, k)
    ensures forall s :: s in ss ==> Weigh(BucketOf(k, at), s) == ValueOf(CountAt(at), s.value)
  {
    hide Lookup, Ascending;
  }

  /**
   * A histogram row, scalars in between or not, holds in a bucket the sum of its contributions on the same
   * condition.
   */
  lemma HistogramRowAgreesIff(ss: seq<Snapshot>, k: Kind, at: int)
    requires OneHistogramKind(ss, k) && Present(ss, k)
    ensures ss != [] && IsHistRow(Fold(ss).value, k)
    ensures var c := Fold(ss).value;
            Lookup(c.value.buckets, at) == WrapU64(MapTotal(c.contributors, CountAt(at))) <==>
            Replaced(ss, CountAt(at)) % 0x1_0000_0000_0000_0000 == 0
  {
    hide Fold, OneHistogramKind, Present, SumBy, Total, MapTotal, Replaced, WrapI64, WrapU64, Latest, ValueOf, Weigh,
         Lookup, Has, Lists, Ascending;
    NotEmpty(ss, k);
    HistogramRow(ss, k, at);
    ContributorsAreLatest(ss);
    BucketsWeigh(ss, k, at);
    SumIsTotal(ss, BucketOf(k, at), CountAt(at));
    TotalSplits(ss, CountAt(at));
    WrapsAlike(MapTotal(Latest(ss), CountAt(at)), Replaced(ss, CountAt(at)));
  }

  // ---------------------------------------------------------------- minima and maxima

  /** The value is the least (or greatest) of the contributions, and one of them. */
  ghost predicate BoundOf(k: Kind, v: Value, c: map<Text, Value>) {
    && v.Scalar? && (exists t :: t in c && c[t] == v)
    && forall t :: t in c ==> c[t].Scalar? && AtMost(k, v.v, c[t].v)
  }

  /** Some current contribution is at least as good as this snapshot. */
  ghost predicate Matched(k: Kind, s: Snapshot, c: map<Text, Value>) {
    s.value.Scalar? && exists t :: t in c && c[t].Scalar? && AtMost(k, c[t].v, s.value.v)
  }

  /**
   * A minimum or maximum row is the minimum or maximum of its contributions exactly when every snapshot,
   * replaced or not, is matched by a current contribution.
   */
  lemma BoundRowAgreesIff(ss: seq<Snapshot>, k: Kind)
    requires ss != [] && AllKind(ss, k) && (k.Min? || k.Max?)
    ensures var c := Fold(ss).value;
            BoundOf(k, c.value, c.contributors) <==> forall s :: s in ss ==> Matched(k, s, c.contributors)
  {
    hide Fold, AllKind, Latest;
    BoundRow(ss, k);
    ContributorsAreLatest(ss);
    AllScalar(ss, k);
    var v, c := Fold(ss).value.value, Latest(ss);
    forall t | t in c
      ensures c[t].Scalar? && AtMost(k, v.v, c[t].v)
    {
      LatestKeys(ss, t);
    }
    if BoundOf(k, v, c) {
      var t :| t in c && c[t] == v;
      forall s | s in ss
        ensures Matched(k, s, c)
      {
        assert AtMost(k, c[t].v, s.value.v);
      }
    }
    if forall s :: s in ss ==> Matched(k, s, c) {
      var s :| s in ss && s.value == v;
      assert Matched(k, s, c);
      var t :| t in c && c[t].Scalar? && AtMost(k, c[t].v, s.value.v);
      assert c[t] == v;
    }
  }
}
