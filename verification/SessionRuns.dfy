/** A whole session, row by row: which verdicts are reported, what the adapter saw in between, and how it ends. */
module SessionRuns {
  import opened Bytes
  import opened Dof
  import opened Ecb
  import opened SessionSpec

  /** The calls before each reported verdict, and after the last one. */
  ghost predicate Driven(v: DofView, ad: Adapter, rows: seq<Result<EcbRow, LowerError>>, ss: seq<Status>,
      logs: seq<Log>, utf8: Text -> bool)
  {
    && |logs| == |ss| + 1 && |ss| <= |rows|
    && forall k :: 0 <= k < |ss| ==>
         rows[k].Ok? && DriveOne(v, ad, rows[k].value, logs[k], utf8) == Outcome(Ok(ss[k]), logs[k + 1])
  }

  /** How the session ends after the last verdict: with the first row that cannot be driven, or behind the last row. */
  ghost predicate EndsWith(v: DofView, ad: Adapter, rows: seq<Result<EcbRow, LowerError>>, n: nat, at: Log, log: Log,
      result: Result<nat, LowerError>, accepted: nat, utf8: Text -> bool)
  {
    if n >= |rows| then
      && log == at + [Ended]
      && result == if ad.onEvent(at, false).Some? then Err(ad.onEvent(at, false).value) else Ok(accepted)
    else if rows[n].Err? then log == at && result == Err(rows[n].error)
    else
      var o := DriveOne(v, ad, rows[n].value, at, utf8);
      o.status.Err? && log == o.log && result == Err(o.status.error)
  }

  /** The rows whose verdict is acceptance. */
  ghost function AcceptedRows(ss: seq<Status>): set<nat> {
    set k: nat | k < |ss| && ss[k].Accepted?
  }

  lemma {:induction false} CountIs(ss: seq<Status>)
    ensures Count(ss) == |AcceptedRows(ss)|
    decreases |ss|
  {
    if |ss| > 0 {
      var n := |ss| - 1;
      CountIs(ss[..n]);
      if ss[n].Accepted? {
        assert AcceptedRows(ss) == AcceptedRows(ss[..n]) + {n};
      } else {
        assert AcceptedRows(ss) == AcceptedRows(ss[..n]);
      }
    }
  }

  lemma {:induction false} RowsDriven(v: DofView, ad: Adapter, rows: seq<Result<EcbRow, LowerError>>, ss: seq<Status>,
      logs: seq<Log>, utf8: Text -> bool) returns (all: seq<Log>)
    requires Driven(v, ad, rows, ss, logs, utf8)
    ensures var s := DriveRows(v, ad, rows[|ss|..], ss, logs[|ss|], utf8);
            && Driven(v, ad, rows, s.statuses, all, utf8) && logs <= all
            && EndsWith(v, ad, rows, |s.statuses|, all[|s.statuses|], s.log, s.result, Count(s.statuses), utf8)
    decreases |rows| - |ss|
  {
    hide DriveOne, Count;
    var n := |ss|;
    if n == |rows| || rows[n].Err? {
      all := logs;
    } else {
      var o := DriveOne(v, ad, rows[n].value, logs[n], utf8);
      if o.status.Err? {
        all := logs;
      } else {
        assert rows[n..][1..] == rows[n + 1..];
        all := RowsDriven(v, ad, rows, ss + [o.status.value], logs + [o.log], utf8);
      }
    }
  }

  /**
   * A session the adapter lets begin reports one verdict per row, in order, each row driven after the calls of the rows
   * before it; it stops at the first row that is unreadable or aborts, and otherwise ends with the end event and the
   * number of accepted rows. A session the adapter does not let begin reports nothing.
   */
  lemma SessionMeaning(v: DofView, ad: Adapter, log: Log, utf8: Text -> bool) returns (logs: seq<Log>)
    ensures var s, fault := Drive(v, ad, log, utf8), ad.onEvent(log, true);
            if fault.Some? then s == Session([], log + [Began], Err(fault.value))
            else
              && Driven(v, ad, Stream(v, 0), s.statuses, logs, utf8) && logs[0] == log + [Began]
              && EndsWith(v, ad, Stream(v, 0), |s.statuses|, logs[|s.statuses|], s.log, s.result,
                          |AcceptedRows(s.statuses)|, utf8)
  {
    hide DriveOne, DriveRows, Stream, EndsWith, Count;
    var rows, began := Stream(v, 0), log + [Began];
    assert rows[0..] == rows;
    logs := RowsDriven(v, ad, rows, [], [began], utf8);
    CountIs(DriveRows(v, ad, rows, [], began, utf8).statuses);
  }
}
