/** Exactly which rows are independent of the order their snapshots arrive in. */
module AggOrder {
  import opened AggSpec
  import opened AggFold

  ghost predicate AllWellFormed(ss: seq<Snapshot>) {
    forall s :: s in ss ==> WellFormed(s)
  }

  /** Both orders give a row of the same kind and value. */
  ghost predicate SameRow(a: seq<Snapshot>, b: seq<Snapshot>) {
    a != [] && b != [] && Fold(a).value.kind == Fold(b).value.kind && Fold(a).value.value == Fold(b).value.value
  }

  /** A row keeps the kind of its first snapshot if that is a histogram, or if no histogram ever comes. */
  lemma {:induction false} FirstKindStays(ss: seq<Snapshot>)
    requires ss != [] && (IsHist(ss[0].kind) || forall s :: s in ss ==> !IsHist(s.kind))
    ensures Fold(ss).value.kind == ss[0].kind
    decreases |ss|
  {
    hide Fold, Accumulate, EmptyValue;
    FoldSameKind(ss);
    if |ss| > 1 {
      KindStep(ss);
      assert ss[|ss| - 1] in ss;
      FirstKindStays(ss[..|ss| - 1]);
    } else {
      assert ss[..0] == [];
    }
  }

  lemma KindStep(ss: seq<Snapshot>)
    requires |ss| > 1
    ensures var t, s := ss[..|ss| - 1], ss[|ss| - 1];
            IsHist(Fold(t).value.kind) || !IsHist(s.kind) ==> Fold(ss).value.kind == Fold(t).value.kind
  {
    hide Accumulate, EmptyValue;
  }

  function ToFront(ss: seq<Snapshot>, i: nat): seq<Snapshot>
    requires i < |ss|
  {
    [ss[i]] + ss[..i] + ss[i + 1..]
  }

  lemma ToFrontPermutes(ss: seq<Snapshot>, i: nat)
    requires i < |ss|
    ensures multiset(ToFront(ss, i)) == multiset(ss) && ToFront(ss, i)[0] == ss[i]
  {
    assert ss == ss[..i] + [ss[i]] + ss[i + 1..];
  }

  lemma FrontKind(ss: seq<Snapshot>, i: nat)
    requires i < |ss| && (IsHist(ss[i].kind) || forall s :: s in ss ==> !IsHist(s.kind))
    ensures Fold(ToFront(ss, i)).value.kind == ss[i].kind
  {
    hide Fold;
    ToFrontPermutes(ss, i);
    SameMembers(ToFront(ss, i), ss);
    FirstKindStays(ToFront(ss, i));
  }

  /** Incompatible snapshots have two orders that end in different kinds. */
  lemma Clash(ss: seq<Snapshot>) returns (a: seq<Snapshot>, b: seq<Snapshot>)
    requires ss != [] && AllWellFormed(ss) && !Compatible(ss)
    ensures multiset(a) == multiset(b) == multiset(ss) && a != [] && b != []
    ensures Fold(a).value.kind != Fold(b).value.kind
  {
    hide Fold, WellFormed, ToFront;
    var i, j := ClashingPair(ss);
    a, b := ToFront(ss, i), ToFront(ss, j);
    ToFrontPermutes(ss, i);
    ToFrontPermutes(ss, j);
    SameMembers(a, ss);
    SameMembers(b, ss);
    FrontKind(ss, i);
    FrontKind(ss, j);
  }

  lemma ClashingPair(ss: seq<Snapshot>) returns (i: nat, j: nat)
    requires ss != [] && AllWellFormed(ss) && !Compatible(ss)
    ensures i < |ss| && j < |ss| && ss[i].kind != ss[j].kind
    ensures (IsHist(ss[i].kind) && IsHist(ss[j].kind)) || forall s :: s in ss ==> !IsHist(s.kind)
  {
    hide WellFormed;
    if x :| x in ss && IsHist(x.kind) {
      assert !OneHistogramKind(ss, x.kind);
      var y :| y in ss && IsHist(y.kind) && y.kind != x.kind;
      i :| 0 <= i < |ss| && ss[i] == x;
      j :| 0 <= j < |ss| && ss[j] == y;
    } else {
      assert !AllKind(ss, ss[0].kind);
      var y :| y in ss && y.kind != ss[0].kind;
      i := 0;
      j :| 0 <= j < |ss| && ss[j] == y;
    }
  }

  /**
   * Every order of arrival gives the same kind and value exactly when the snapshots share one kind or
   * histograms of one kind are among them.
   */
  lemma OrderIndependentIff(ss: seq<Snapshot>)
    requires ss != [] && AllWellFormed(ss)
    ensures (forall b: seq<Snapshot> :: multiset(b) == multiset(ss) ==> SameRow(ss, b)) <==> Compatible(ss)
  {
    hide Fold, Compatible, AllWellFormed;
    if Compatible(ss) {
      forall b: seq<Snapshot> | multiset(b) == multiset(ss)
        ensures SameRow(ss, b)
      {
        OrderIndependent(ss, b);
      }
    } else {
      var a, b := Clash(ss);
      assert !(SameRow(ss, a) && SameRow(ss, b));
    }
  }
}
