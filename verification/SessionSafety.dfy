/** Probe accounting over whole sessions, and exactly which ECBs are accepted or abort the session. */
module SessionSafety {
  import opened Bytes
  import opened Dof
  import opened Ecb
  import opened SessionSpec

  // ---------------------------------------------------------------- live probes

  ghost function After(live: set<U64>, e: Event): set<U64> {
    if e.Attached? then live + {e.id} else if e.Detached? then live - {e.gone} else live
  }

  /** The ids attached and not detached since. */
  ghost function Live(log: Log): set<U64> {
    if |log| == 0 then {} else After(Live(log[..|log| - 1]), log[|log| - 1])
  }

  ghost predicate EverAttached(log: Log, id: U64) {
    exists t :: Attached(id, t) in log
  }

  /** The adapter never hands out an id it has handed out before. */
  ghost predicate FreshIds(ad: Adapter) {
    forall log: Log, t :: ad.attach(log, t).Ok? ==> !EverAttached(log, ad.attach(log, t).value)
  }

  lemma {:induction false} LiveWereAttached(log: Log, id: U64)
    requires id in Live(log)
    ensures EverAttached(log, id)
    decreases |log|
  {
    var n := |log| - 1;
    var before, e := log[..n], log[n];
    if e.Attached? && e.id == id {
      assert log[n] in log;
    } else {
      LiveWereAttached(before, id);
      var t :| Attached(id, t) in before;
      assert Attached(id, t) in log;
    }
  }

  ghost predicate Neutral(es: Log) {
    forall e :: e in es ==> !e.Attached? && !e.Detached?
  }

  lemma LiveSnoc(log: Log, e: Event)
    ensures Live(log + [e]) == After(Live(log), e)
  {
    assert (log + [e])[..|log|] == log;
  }

  lemma {:induction false} LiveNeutral(log: Log, es: Log)
    requires Neutral(es)
    ensures Live(log + es) == Live(log)
    decreases |es|
  {
    if |es| == 0 {
      assert log + es == log;
    } else {
      var n := |es| - 1;
      LiveNeutral(log, es[..n]);
      assert log + es == log + es[..n] + [es[n]];
      LiveSnoc(log + es[..n], es[n]);
    }
  }

  // ---------------------------------------------------------------- what one ECB does to them

  /** The first log with some neutral calls appended. */
  ghost predicate Neutrally(log: Log, log': Log) {
    log <= log' && Neutral(log'[|log|..])
  }

  lemma NeutrallyLive(log: Log, log': Log)
    requires Neutrally(log, log')
    ensures Live(log') == Live(log)
  {
    assert log' == log + log'[|log|..];
    LiveNeutral(log, log'[|log|..]);
  }

  lemma NeutrallyTrans(a: Log, b: Log, c: Log)
    requires Neutrally(a, b) && Neutrally(b, c)
    ensures Neutrally(a, c)
  {
    assert c[|a|..] == b[|a|..] + c[|b|..];
  }

  lemma OneActionNeutral(v: DofView, ad: Adapter, id: U64, a: Action, why: Option<Reject>, log: Log)
    ensures Neutrally(log, OneAction(v, ad, id, a, why, log).log)
  {
  }

  lemma {:induction false} WalkNeutral(v: DofView, ad: Adapter, ecb: EcbRow, table: (seq<Byte>, nat), id: U64, i: nat,
      why: Option<Reject>, log: Log)
    ensures Neutrally(log, WalkFrom(v, ad, ecb, table, id, i, why, log).log)
    decreases ecb.count - i
  {
    hide OneAction, ActionAt, Neutrally;
    NeutrallyRefl(log);
    if i < ecb.count && ActionAt(ecb, table, i).Ok? {
      var a := ActionAt(ecb, table, i).value;
      OneActionNeutral(v, ad, id, a, why, log);
      var w := OneAction(v, ad, id, a, why, log);
      if w.verdict.Ok? {
        WalkNeutral(v, ad, ecb, table, id, i + 1, w.verdict.value, w.log);
        NeutrallyTrans(log, w.log, WalkFrom(v, ad, ecb, table, id, i + 1, w.verdict.value, w.log).log);
      }
    }
  }

  lemma NeutrallyRefl(log: Log)
    ensures Neutrally(log, log)
  {
  }

  lemma ConcludeLive(v: DofView, ad: Adapter, ecb: EcbRow, id: U64, log: Log)
    ensures var o := Conclude(v, ad, ecb, id, log);
            if o.status.Err? then Live(o.log) == Live(log)
            else if o.status.value.Accepted? then o.status.value.id == id && Live(o.log) == Live(log)
            else o.status.value.Rejected? && Live(o.log) == Live(log) - {id}
  {
    hide WalkFrom, ActionTable, Live, Neutrally;
    NeutrallyRefl(log);
    if ecb.count > 0 && ActionTable(v, ecb).Ok? {
      WalkNeutral(v, ad, ecb, ActionTable(v, ecb).value, id, 0, None, log);
    }
    var w := WalkChain(v, ad, ecb, id, log);
    assert Neutrally(log, w.log);
    NeutrallyLive(log, w.log);
    LiveSnoc(w.log, Detached(id));
  }

  lemma ChainLive(v: DofView, ad: Adapter, ecb: EcbRow, id: U64, log: Log)
    ensures var o := Chain(v, ad, ecb, id, log);
            if o.status.Err? then Live(o.log) == Live(log)
            else if o.status.value.Accepted? then o.status.value.id == id && Live(o.log) == Live(log)
            else o.status.value.Rejected? && Live(o.log) == Live(log) - {id}
  {
    hide Conclude, SectionBytes, Live;
    ConcludeLive(v, ad, ecb, id, log);
    if ecb.pred != 0 && SectionBytes(v, ecb.pred).Ok? {
      var difo := SectionBytes(v, ecb.pred).value;
      var bound, refused := log + [Bound(id, difo, true)], log + [Bound(id, difo, false)];
      LiveSnoc(log, Bound(id, difo, true));
      LiveSnoc(log, Bound(id, difo, false));
      LiveSnoc(refused, Detached(id));
      ConcludeLive(v, ad, ecb, id, bound);
    }
  }

  /** The id the ECB attaches, if it gets that far. */
  function Attaches(v: DofView, ad: Adapter, ecb: EcbRow, log: Log, utf8: Text -> bool): Option<U64> {
    match Resolve(v, ecb.probes, utf8)
    case Ok(Some(t)) =>
      if !ad.supports(log, t.provider) then None
      else (match ad.attach(log, t) case Ok(id) => Some(id) case Err(_) => None)
    case _ => None
  }

  /** An ECB leaves its probe live exactly when it is accepted, or when it aborts after attaching. */
  lemma DriveOneLive(v: DofView, ad: Adapter, ecb: EcbRow, log: Log, utf8: Text -> bool)
    requires FreshIds(ad)
    ensures var o, got := DriveOne(v, ad, ecb, log, utf8), Attaches(v, ad, ecb, log, utf8);
            && (got.Some? ==> got.value !in Live(log))
            && Live(o.log) == Live(log)
               + (if got.Some? && (o.status.Err? || o.status.value.Accepted?) then {got.value} else {})
            && (o.status.Ok? && o.status.value.Accepted? ==> got == Some(o.status.value.id))
  {
    hide Resolve, Chain, Live;
    var r := Resolve(v, ecb.probes, utf8);
    if r.Ok? && r.value.Some? {
      var t := r.value.value;
      LiveSnoc(log, AttachRefused(t));
      var at := ad.attach(log, t);
      if at.Ok? {
        assert !EverAttached(log, at.value);
        if at.value in Live(log) { LiveWereAttached(log, at.value); assert false; }
        LiveSnoc(log, Attached(at.value, t));
        ChainLive(v, ad, ecb, at.value, log + [Attached(at.value, t)]);
      }
    }
  }

  // ---------------------------------------------------------------- whole sessions

  ghost function AcceptedIds(ss: seq<Status>): set<U64> {
    if |ss| == 0 then {}
    else AcceptedIds(ss[..|ss| - 1]) + if ss[|ss| - 1].Accepted? then {ss[|ss| - 1].id} else {}
  }

  /** The accepted ids are distinct, were not live before, and the count is their number. */
  ghost predicate Tally(base: set<U64>, ss: seq<Status>) {
    base !! AcceptedIds(ss) && |AcceptedIds(ss)| == Count(ss)
  }

  lemma TallySnoc(base: set<U64>, ss: seq<Status>, s: Status)
    requires Tally(base, ss) && (s.Accepted? ==> s.id !in base + AcceptedIds(ss))
    ensures Tally(base, ss + [s])
    ensures AcceptedIds(ss + [s]) == AcceptedIds(ss) + if s.Accepted? then {s.id} else {}
  {
    assert (ss + [s])[..|ss|] == ss;
  }

  ghost predicate Balanced(log: Log, ss: seq<Status>, base: set<U64>) {
    Tally(base, ss) && Live(log) == base + AcceptedIds(ss)
  }

  lemma StepBalances(v: DofView, ad: Adapter, ecb: EcbRow, ss: seq<Status>, log: Log, base: set<U64>,
      utf8: Text -> bool)
    requires FreshIds(ad) && Balanced(log, ss, base)
    ensures var o := DriveOne(v, ad, ecb, log, utf8);
            if o.status.Ok? then Balanced(o.log, ss + [o.status.value], base)
            else AtMostOneMore(Live(o.log), base + AcceptedIds(ss))
  {
    hide DriveOne, Live, Tally, FreshIds, AcceptedIds, Attaches;
    DriveOneLive(v, ad, ecb, log, utf8);
    var o := DriveOne(v, ad, ecb, log, utf8);
    if o.status.Ok? {
      TallySnoc(base, ss, o.status.value);
    } else {
      OneMore(Live(log), Attaches(v, ad, ecb, log, utf8));
    }
  }

  /** What a session's end says about the rows it was given after the verdicts `ss`. */
  ghost predicate Accounts(r: Session, ss: seq<Status>, rows: nat, base: set<U64>) {
    && ss <= r.statuses && Tally(base, r.statuses)
    && (r.result.Ok? ==> |r.statuses| == |ss| + rows && r.result.value == Count(r.statuses))
    && (r.result.Ok? ==> Balanced(r.log, r.statuses, base))
    && AtMostOneMore(Live(r.log), base + AcceptedIds(r.statuses))
  }

  lemma EndAccounts(r: Session, ss: seq<Status>, log: Log, base: set<U64>)
    requires Balanced(log, ss, base) && r.statuses == ss && r.log == log + [Ended]
    requires r.result.Ok? ==> r.result.value == Count(ss)
    ensures Accounts(r, ss, 0, base)
  {
    hide Live, Tally, AcceptedIds, Count;
    LiveSnoc(log, Ended);
    OneMore(Live(log), None);
  }

  lemma StopAccounts(r: Session, ss: seq<Status>, log: Log, rows: nat, base: set<U64>)
    requires Balanced(log, ss, base) && r.statuses == ss && r.log == log && r.result.Err?
    ensures Accounts(r, ss, rows, base)
  {
    hide Live, Tally, AcceptedIds, Count;
    OneMore(Live(log), None);
  }

  lemma LaterAccounts(r: Session, ss: seq<Status>, s: Status, rows: nat, base: set<U64>)
    requires Accounts(r, ss + [s], rows, base)
    ensures Accounts(r, ss, rows + 1, base)
  {
    hide Live, Tally, AcceptedIds, Count, Balanced;
    assert ss <= ss + [s];
  }

  lemma {:induction false} DriveRowsAccounts(v: DofView, ad: Adapter, rows: seq<Result<EcbRow, LowerError>>,
      ss: seq<Status>, log: Log, base: set<U64>, utf8: Text -> bool)
    requires FreshIds(ad) && Balanced(log, ss, base)
    ensures Accounts(DriveRows(v, ad, rows, ss, log, utf8), ss, |rows|, base)
    decreases |rows|
  {
    var r := DriveRows(v, ad, rows, ss, log, utf8);
    if |rows| == 0 {
      hide FreshIds, Balanced, Accounts, Count;
      EndAccounts(r, ss, log, base);
    } else if rows[0].Err? {
      hide FreshIds, Balanced, Accounts;
      StopAccounts(r, ss, log, |rows|, base);
    } else {
      hide DriveOne, FreshIds, Live, Tally, Count, AcceptedIds;
      var ecb := rows[0].value;
      StepBalances(v, ad, ecb, ss, log, base, utf8);
      var o := DriveOne(v, ad, ecb, log, utf8);
      if o.status.Ok? {
        hide Balanced, Accounts;
        DriveRowsAccounts(v, ad, rows[1..], ss + [o.status.value], o.log, base, utf8);
        LaterAccounts(r, ss, o.status.value, |rows| - 1, base);
      }
    }
  }

  /** The first set is the second with at most one more id. */
  ghost predicate AtMostOneMore(live: set<U64>, known: set<U64>) {
    known <= live && |live - known| <= 1
  }

  lemma OneMore(known: set<U64>, more: Option<U64>)
    ensures AtMostOneMore(known + (if more.Some? then {more.value} else {}), known)
  {
    var live := known + (if more.Some? then {more.value} else {});
    if more.Some? {
      assert live - known <= {more.value};
      SubsetSize(live - known, {more.value});
    } else {
      assert live - known == {};
    }
  }

  lemma {:induction false} SubsetSize(a: set<U64>, b: set<U64>)
    requires a <= b
    ensures |a| <= |b|
    decreases |a|
  {
    if a != {} {
      var x :| x in a;
      SubsetSize(a - {x}, b - {x});
    }
  }

  /**
   * A session that returns a count has reported a verdict for every row, its count is the number of accepted
   * ids, and those ids are exactly the probes it left attached. A session that fails leaves at most one more.
   */
  lemma SessionAccounts(v: DofView, ad: Adapter, log: Log, utf8: Text -> bool)
    requires FreshIds(ad)
    ensures var r := Drive(v, ad, log, utf8);
            && Live(log) !! AcceptedIds(r.statuses)
            && (r.result.Ok? ==> |r.statuses| == |Stream(v, 0)| && r.result.value == |AcceptedIds(r.statuses)|)
            && (r.result.Ok? ==> Live(r.log) == Live(log) + AcceptedIds(r.statuses))
            && AtMostOneMore(Live(r.log), Live(log) + AcceptedIds(r.statuses))
  {
    hide DriveRows, Live, FreshIds, Stream;
    LiveSnoc(log, Began);
    assert Live(log) + AcceptedIds([]) == Live(log);
    DriveRowsAccounts(v, ad, Stream(v, 0), [], log + [Began], Live(log), utf8);
  }
}
