/** The cross-target reducer: one cell per (aggregation, key) row, updated in place. */
module AggReducer {
  import opened Bytes
  import opened AggSpec
  import opened AggFold
  import AggRows

  type Row = (Text, Text)

  datatype Event = Event(row: Row, snapshot: Snapshot)

  /** The snapshots that went to one row, in arrival order. */
  function For(log: seq<Event>, row: Row): seq<Snapshot> {
    if |log| == 0 then []
    else
      var e, before := log[|log| - 1], For(log[..|log| - 1], row);
      if e.row == row then before + [e.snapshot] else before
  }

  function At(rows: map<Row, Cell>, row: Row): Option<Cell> {
    if row in rows then Some(rows[row]) else None
  }

  /** Every row holds the fold of its own snapshots, and rows without snapshots do not exist. */
  ghost predicate Tracks(rows: map<Row, Cell>, log: seq<Event>) {
    forall row: Row :: At(rows, row) == Fold(For(log, row))
  }

  /** Merging one snapshot into one row keeps every row in step with the log. */
  lemma MergeTracks(rows: map<Row, Cell>, log: seq<Event>, row: Row, s: Snapshot)
    requires Tracks(rows, log)
    ensures Tracks(rows[row := MergeCell(At(rows, row), s)], log + [Event(row, s)])
  {
    hide MergeCell;
    var rows', log' := rows[row := MergeCell(At(rows, row), s)], log + [Event(row, s)];
    assert log'[..|log|] == log;
    forall r: Row
      ensures At(rows', r) == Fold(For(log', r))
    {
      assert At(rows, r) == Fold(For(log, r));
      if r == row {
        var ss := For(log, r) + [s];
        assert ss[..|ss| - 1] == For(log, r) && ss[|ss| - 1] == s;
      }
    }
  }

  /** The bucketwise addition loop over an ordered map built from the row's own buckets. */
  method AddBuckets(acc: seq<Bucket>, v: seq<Bucket>) returns (r: seq<Bucket>)
    ensures r == AddAll(Collect(acc), v)
  {
    r := [];
    for i := 0 to |acc|
      invariant r == Collect(acc[..i])
    {
      assert acc[..i + 1][..i] == acc[..i];
      r := Put(r, acc[i]);
    }
    assert acc[..|acc|] == acc;
    for i := 0 to |v|
      invariant r == AddAll(Collect(acc), v[..i])
    {
      assert v[..i + 1][..i] == v[..i];
      r := Add(r, v[i]);
    }
    assert v[..|v|] == v;
  }

  /** Every row of the reducer holds what the snapshots logged for it amount to, whatever else arrived in between. */
  lemma RowHolds(rows: map<Row, Cell>, log: seq<Event>, row: Row)
    requires Tracks(rows, log) && row in rows && AggRows.AllWellFormed(For(log, row))
    ensures For(log, row) != []
    ensures AggRows.HoldsFor(rows[row].value, For(log, row), rows[row].kind)
    ensures exists i: nat :: AggRows.Decides(For(log, row), i) && rows[row].kind == For(log, row)[i].kind
  {
    hide Fold, AggRows.HoldsFor, For, AggRows.AllWellFormed;
    assert At(rows, row) == Fold(For(log, row));
    AggRows.RowMeaning(For(log, row));
  }

  class Reducer {
    var rows: map<Row, Cell>
    ghost var log: seq<Event>

    ghost predicate Valid()
      reads this
    {
      Tracks(rows, log)
    }

    constructor ()
      ensures Valid() && rows == map[] && log == []
    {
      rows, log := map[], [];
    }

    /** Folds one snapshot into its row; every other row is untouched. */
    method Merge(target: Text, name: Text, key: Text, kind: Kind, value: Value)
      requires Valid()
      modifies this
      ensures Valid()
      ensures log == old(log) + [Event((name, key), Snapshot(target, kind, value))]
      ensures rows.Keys == old(rows).Keys + {(name, key)}
      ensures forall row :: row in old(rows) && row != (name, key) ==> rows[row] == old(rows)[row]
    {
      hide Tracks, MergeCell;
      var row := (name, key);
      ghost var s := Snapshot(target, kind, value);
      MergeTracks(rows, log, row, s);
      var cell := MergeInto(if row in rows then Some(rows[row]) else None, target, kind, value);
      rows := rows[row := cell];
      log := log + [Event(row, s)];
    }
  }

  /** The cell after one snapshot: a clash of kinds, or the value folded in; the contribution is recorded either way. */
  method MergeInto(row: Option<Cell>, target: Text, kind: Kind, value: Value) returns (cell: Cell)
    ensures cell == MergeCell(row, Snapshot(target, kind, value))
  {
    hide AddAll, Collect, EmptyValue, WrapI64;
    cell := if row.Some? then row.value else Cell(kind, EmptyValue(kind), map[]);
    if cell.kind != kind {
      if IsHist(kind) && !IsHist(cell.kind) {
        cell := cell.(kind := kind, value := value);
      }
    } else {
      match (cell.value, value) {
        case (Scalar(acc), Scalar(v)) =>
          match kind {
            case Count => cell := cell.(value := Scalar(WrapI64(acc + v)));
            case Sum => cell := cell.(value := Scalar(WrapI64(acc + v)));
            case Min => cell := cell.(value := Scalar(if acc <= v then acc else v));
            case Max => cell := cell.(value := Scalar(if acc >= v then acc else v));
            case _ =>
          }
        case (Histogram(acc), Histogram(v)) =>
          if IsHist(kind) {
            var merged := AddBuckets(acc, v);
            cell := cell.(value := Histogram(merged));
          }
        case _ =>
      }
    }
    cell := cell.(contributors := cell.contributors[target := value]);
  }

  lemma {:induction false} ForCount(log: seq<Event>, row: Row, s: Snapshot)
    ensures multiset(For(log, row))[s] == multiset(log)[Event(row, s)]
    decreases |log|
  {
    if |log| > 0 {
      var before, e := log[..|log| - 1], log[|log| - 1];
      ForCount(before, row, s);
      assert log == before + [e];
    }
  }

  lemma ForPermutes(log1: seq<Event>, log2: seq<Event>, row: Row)
    requires multiset(log1) == multiset(log2)
    ensures multiset(For(log1, row)) == multiset(For(log2, row))
  {
    forall s: Snapshot
      ensures multiset(For(log1, row))[s] == multiset(For(log2, row))[s]
    {
      ForCount(log1, row, s);
      ForCount(log2, row, s);
    }
  }

  lemma AtMostOnce(a: seq<Snapshot>, s: Snapshot)
    requires DistinctTargets(a)
    ensures multiset(a)[s] <= 1
  {
    if s in a {
      var i :| 0 <= i < |a| && a[i] == s;
      assert a == a[..i] + [s] + a[i + 1..];
      assert s !in a[..i] && s !in a[i + 1..];
    }
  }

  lemma AtLeastTwice(b: seq<Snapshot>, i: nat, j: nat)
    requires i < j < |b|
    ensures b[i] == b[j] ==> multiset(b)[b[i]] >= 2
  {
    assert b == b[..i] + [b[i]] + b[i + 1..j] + [b[j]] + b[j + 1..];
  }

  lemma TargetsPermute(a: seq<Snapshot>, b: seq<Snapshot>)
    requires multiset(a) == multiset(b) && DistinctTargets(a)
    ensures DistinctTargets(b)
  {
    SameMembers(a, b);
    forall i, j | 0 <= i < j < |b|
      ensures b[i].target != b[j].target
    {
      AtMostOnce(a, b[i]);
      AtLeastTwice(b, i, j);
      assert b[i] in a && b[j] in a;
    }
  }

  /** Compatible snapshots from distinct targets make the same cell in any order. */
  lemma CellOrderIndependent(a: seq<Snapshot>, b: seq<Snapshot>)
    requires multiset(a) == multiset(b)
    requires a != [] ==> Compatible(a) && DistinctTargets(a)
    ensures Fold(a) == Fold(b)
  {
    SameMembers(a, b);
    if a != [] {
      hide Fold, Compatible, DistinctTargets, HoldsExactly;
      OrderIndependent(a, b);
      TargetsPermute(a, b);
      ContributorsAreSnapshots(a);
      ContributorsAreSnapshots(b);
      SameContributors(Fold(a).value.contributors, Fold(b).value.contributors, a, b);
    }
  }

  /**
   * Two reducers fed the same snapshots in different orders hold exactly the same rows, as long as every
   * row's snapshots come from distinct targets and agree on their kind up to scalars beside one histogram kind.
   */
  lemma RowsOrderIndependent(rows1: map<Row, Cell>, log1: seq<Event>, rows2: map<Row, Cell>, log2: seq<Event>)
    requires Tracks(rows1, log1) && Tracks(rows2, log2)
    requires multiset(log1) == multiset(log2)
    requires forall row: Row :: For(log1, row) != [] ==> Compatible(For(log1, row)) && DistinctTargets(For(log1, row))
    ensures rows1 == rows2
  {
    hide Fold, For, Compatible, DistinctTargets;
    forall row: Row
      ensures At(rows1, row) == At(rows2, row)
    {
      ForPermutes(log1, log2, row);
      CellOrderIndependent(For(log1, row), For(log2, row));
    }
    assert forall row: Row :: row in rows1 <==> At(rows1, row).Some?;
    assert forall row: Row :: row in rows2 <==> At(rows2, row).Some?;
    assert forall row: Row :: row in rows1 ==> At(rows1, row).value == rows1[row];
    assert forall row: Row :: row in rows2 ==> At(rows2, row).value == rows2[row];
  }
}
