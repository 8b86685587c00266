/** Exactly which ECBs are accepted, what the adapter was told about them, and which ones abort the session. */
module SessionVerdicts {
  import opened Bytes
  import opened Dof
  import opened Ecb
  import opened SessionSpec
  import SessionSafety

  type Table = (seq<Byte>, nat)

  /** The call that records row `k`, when the row and its code section can be read. */
  function RecordOf(v: DofView, ecb: EcbRow, table: Table, id: U64, k: nat): Event {
    match ActionAt(ecb, table, k)
    case Err(_) => Began
    case Ok(a) =>
      match DifoBytes(v, a)
      case Err(_) => Began
      case Ok(bytes) => Recorded(id, a, bytes, true)
  }

  /** The records of the first `n` rows, in order. */
  function Records(v: DofView, ecb: EcbRow, table: Table, id: U64, n: nat): Log {
    if n == 0 then [] else Records(v, ecb, table, id, n - 1) + [RecordOf(v, ecb, table, id, n - 1)]
  }

  /** Row `k` is readable, neither destructive nor an aggregation, and the adapter takes it after the rows before it. */
  ghost predicate Clean(v: DofView, ad: Adapter, ecb: EcbRow, table: Table, id: U64, log: Log, k: nat) {
    var at := ActionAt(ecb, table, k);
    at.Ok? && at.value.kind.Plain? &&
    var bytes := DifoBytes(v, at.value);
    bytes.Ok? && ad.record(log + Records(v, ecb, table, id, k), id, at.value, bytes.value).None?
  }

  lemma ActionCodes(ecb: EcbRow, table: Table, i: nat)
    ensures var at := ActionAt(ecb, table, i); at.Ok? ==> KindOf(at.value.kind.code) == Some(at.value.kind)
  {
    hide U32At, U64At;
  }

  /** One row goes through without a complaint exactly when it is clean, and then it is recorded. */
  lemma OneActionIff(v: DofView, ad: Adapter, ecb: EcbRow, table: Table, id: U64, log: Log, i: nat)
    requires ActionAt(ecb, table, i).Ok?
    ensures var w := OneAction(v, ad, id, ActionAt(ecb, table, i).value, None, log + Records(v, ecb, table, id, i));
            && (w.verdict == Ok(None) <==> Clean(v, ad, ecb, table, id, log, i))
            && (w.verdict == Ok(None) ==> w.log == log + Records(v, ecb, table, id, i + 1))
  {
    ActionCodes(ecb, table, i);
    hide ActionAt, DifoBytes;
    var a := ActionAt(ecb, table, i).value;
    if a.kind.AggSentinel? {
      SentinelNamesNoOperator(a.kind);
    }
    var before, e := Records(v, ecb, table, id, i), RecordOf(v, ecb, table, id, i);
    assert log + (before + [e]) == log + before + [e];
  }

  /** Once a reason to reject is known it is the verdict, unless a later row cannot be read. */
  lemma {:induction false} ReasonSticks(v: DofView, ad: Adapter, ecb: EcbRow, table: Table, id: U64, i: nat,
      why: Reject, log: Log)
    ensures var w := WalkFrom(v, ad, ecb, table, id, i, Some(why), log);
            w.log == log && (w.verdict == Ok(Some(why)) || w.verdict.Err?)
    ensures WalkFrom(v, ad, ecb, table, id, i, Some(why), log).verdict.Ok? <==>
            forall k :: i <= k < ecb.count ==> ActionAt(ecb, table, k).Ok?
    decreases ecb.count - i
  {
    hide ActionAt;
    if i < ecb.count && ActionAt(ecb, table, i).Ok? {
      ReasonSticks(v, ad, ecb, table, id, i + 1, why, log);
    }
  }

  /**
   * The walk ends without a complaint exactly when every remaining row is clean, and then all are recorded in
   * order.
   */
  lemma {:induction false} WalkAcceptsIff(v: DofView, ad: Adapter, ecb: EcbRow, table: Table, id: U64, log: Log, i: nat)
    requires i <= ecb.count
    ensures var w := WalkFrom(v, ad, ecb, table, id, i, None, log + Records(v, ecb, table, id, i));
            && (w.verdict == Ok(None) <==> forall k :: i <= k < ecb.count ==> Clean(v, ad, ecb, table, id, log, k))
            && (w.verdict == Ok(None) ==> w.log == log + Records(v, ecb, table, id, ecb.count))
    decreases ecb.count - i
  {
    hide OneAction, Records, Clean, ActionAt;
    if i < ecb.count {
      NotClean(v, ad, ecb, table, id, log, i);
      if ActionAt(ecb, table, i).Ok? {
        var a, l := ActionAt(ecb, table, i).value, log + Records(v, ecb, table, id, i);
        OneActionIff(v, ad, ecb, table, id, log, i);
        var w := OneAction(v, ad, id, a, None, l);
        if w.verdict == Ok(None) {
          WalkAcceptsIff(v, ad, ecb, table, id, log, i + 1);
        } else if w.verdict.Ok? {
          ReasonSticks(v, ad, ecb, table, id, i + 1, w.verdict.value.value, w.log);
        }
      }
    }
  }

  lemma NotClean(v: DofView, ad: Adapter, ecb: EcbRow, table: Table, id: U64, log: Log, i: nat)
    ensures ActionAt(ecb, table, i).Err? ==> !Clean(v, ad, ecb, table, id, log, i)
  {
  }

  /** Every action of the chain is clean. */
  ghost predicate ChainClean(v: DofView, ad: Adapter, ecb: EcbRow, id: U64, log: Log) {
    var table := ActionTable(v, ecb);
    ecb.count == 0 || (table.Ok? && forall k :: 0 <= k < ecb.count ==> Clean(v, ad, ecb, table.value, id, log, k))
  }

  ghost function ChainRecords(v: DofView, ecb: EcbRow, id: U64): Log {
    if ecb.count == 0 || ActionTable(v, ecb).Err? then [] else Records(v, ecb, ActionTable(v, ecb).value, id, ecb.count)
  }

  lemma ConcludeAcceptsIff(v: DofView, ad: Adapter, ecb: EcbRow, id: U64, log: Log)
    ensures var o := Conclude(v, ad, ecb, id, log);
            && (o.status.Ok? && o.status.value.Accepted? <==> ChainClean(v, ad, ecb, id, log))
            && (ChainClean(v, ad, ecb, id, log) ==> o == Outcome(Ok(Accepted(id)), log + ChainRecords(v, ecb, id)))
  {
    hide WalkFrom, ActionTable, Clean;
    if ecb.count == 0 {
      assert log + [] == log;
    } else if ActionTable(v, ecb).Ok? {
      var table := ActionTable(v, ecb).value;
      assert Records(v, ecb, table, id, 0) == [] && log + [] == log;
      WalkAcceptsIff(v, ad, ecb, table, id, log, 0);
    }
  }

  /** The calls made before the action chain: the attach, and the predicate if there is one. */
  ghost function Prelude(v: DofView, ecb: EcbRow, id: U64, t: Target): Log {
    if ecb.pred == 0 || SectionBytes(v, ecb.pred).Err? then [Attached(id, t)]
    else [Attached(id, t), Bound(id, SectionBytes(v, ecb.pred).value, true)]
  }

  /** The ECB names a probe the adapter attaches, its predicate binds, and every action is clean. */
  ghost predicate Acceptable(v: DofView, ad: Adapter, ecb: EcbRow, log: Log, utf8: Text -> bool) {
    var r := Resolve(v, ecb.probes, utf8);
    r.Ok? && r.value.Some? &&
    var t := r.value.value;
    ad.supports(log, t.provider) && ad.attach(log, t).Ok? &&
    var id := ad.attach(log, t).value;
    && (ecb.pred != 0 ==> SectionBytes(v, ecb.pred).Ok?
                          && ad.bind(log + [Attached(id, t)], id, SectionBytes(v, ecb.pred).value).None?)
    && ChainClean(v, ad, ecb, id, log + Prelude(v, ecb, id, t))
  }

  /**
   * An ECB is accepted exactly when it is acceptable. The adapter has then seen the attach, the predicate and
   * one successful record per action, in chain order and nothing else; none of them is destructive or an
   * aggregation sentinel.
   */
  lemma AcceptedIff(v: DofView, ad: Adapter, ecb: EcbRow, log: Log, utf8: Text -> bool)
    ensures var o := DriveOne(v, ad, ecb, log, utf8);
            && (o.status.Ok? && o.status.value.Accepted? <==> Acceptable(v, ad, ecb, log, utf8))
            && (Acceptable(v, ad, ecb, log, utf8) ==>
                  var t := Resolve(v, ecb.probes, utf8).value.value;
                  var id := ad.attach(log, t).value;
                  o == Outcome(Ok(Accepted(id)), log + Prelude(v, ecb, id, t) + ChainRecords(v, ecb, id)))
  {
    hide Resolve, Conclude, SectionBytes, ChainClean, ChainRecords;
    var r := Resolve(v, ecb.probes, utf8);
    if r.Ok? && r.value.Some? && ad.attach(log, r.value.value).Ok? {
      var t := r.value.value;
      var id := ad.attach(log, t).value;
      var attached := log + [Attached(id, t)];
      ConcludeAcceptsIff(v, ad, ecb, id, attached);
      if ecb.pred != 0 && SectionBytes(v, ecb.pred).Ok? {
        var difo := SectionBytes(v, ecb.pred).value;
        assert attached + [Bound(id, difo, true)] == log + [Attached(id, t), Bound(id, difo, true)];
        ConcludeAcceptsIff(v, ad, ecb, id, attached + [Bound(id, difo, true)]);
      }
    }
  }

  /** What is wrong with a readable row, given that the rows before it were recorded. */
  ghost function Complaint(v: DofView, ad: Adapter, ecb: EcbRow, table: Table, id: U64, log: Log,
      k: nat): Option<Reject>
    requires ActionAt(ecb, table, k).Ok?
  {
    var a := ActionAt(ecb, table, k).value;
    if a.kind.Destructive? then Some(DestructiveDisabled)
    else if DifoBytes(v, a).Err? then None
    else
      var answer := ad.record(log + Records(v, ecb, table, id, k), id, a, DifoBytes(v, a).value);
      if answer.Some? then answer else if a.kind.AggSentinel? then Some(AggKindUnsupported) else None
  }

  /** The call row `k` causes: none if it is destructive, else one record with the adapter's answer. */
  ghost function LastCall(v: DofView, ad: Adapter, ecb: EcbRow, table: Table, id: U64, log: Log, k: nat): Log
    requires ActionAt(ecb, table, k).Ok?
  {
    var a := ActionAt(ecb, table, k).value;
    if a.kind.Destructive? || DifoBytes(v, a).Err? then []
    else
      var bytes := DifoBytes(v, a).value;
      [Recorded(id, a, bytes, ad.record(log + Records(v, ecb, table, id, k), id, a, bytes).None?)]
  }

  lemma OneActionComplains(v: DofView, ad: Adapter, ecb: EcbRow, table: Table, id: U64, log: Log, k: nat)
    requires ActionAt(ecb, table, k).Ok? && Complaint(v, ad, ecb, table, id, log, k).Some?
    ensures var l := log + Records(v, ecb, table, id, k);
            OneAction(v, ad, id, ActionAt(ecb, table, k).value, None, l)
            == Walked(Ok(Complaint(v, ad, ecb, table, id, log, k)), l + LastCall(v, ad, ecb, table, id, log, k))
  {
    ActionCodes(ecb, table, k);
    hide ActionAt, DifoBytes, Records;
    var a := ActionAt(ecb, table, k).value;
    if a.kind.AggSentinel? {
      SentinelNamesNoOperator(a.kind);
    }
    var l := log + Records(v, ecb, table, id, k);
    assert l + [] == l;
  }

  /**
   * In a readable chain the first row with a complaint decides the verdict, and no row after it reaches the
   * adapter.
   */
  lemma {:induction false} FirstComplaintWins(v: DofView, ad: Adapter, ecb: EcbRow, table: Table, id: U64, log: Log,
      i: nat, k: nat)
    requires i <= k < ecb.count && (forall j :: i <= j < ecb.count ==> ActionAt(ecb, table, j).Ok?)
    requires forall j :: i <= j < k ==> Clean(v, ad, ecb, table, id, log, j)
    requires Complaint(v, ad, ecb, table, id, log, k).Some?
    ensures WalkFrom(v, ad, ecb, table, id, i, None, log + Records(v, ecb, table, id, i))
         == Walked(Ok(Complaint(v, ad, ecb, table, id, log, k)),
                   log + Records(v, ecb, table, id, k) + LastCall(v, ad, ecb, table, id, log, k))
    decreases k - i
  {
    hide OneAction, Records, Clean, ActionAt, Complaint, LastCall;
    if i == k {
      OneActionComplains(v, ad, ecb, table, id, log, k);
      ReasonSticks(v, ad, ecb, table, id, k + 1, Complaint(v, ad, ecb, table, id, log, k).value,
                   log + Records(v, ecb, table, id, k) + LastCall(v, ad, ecb, table, id, log, k));
    } else {
      OneActionIff(v, ad, ecb, table, id, log, i);
      FirstComplaintWins(v, ad, ecb, table, id, log, i + 1, k);
    }
  }

  // ---------------------------------------------------------------- aborted sessions

  /** With this adapter row `k` stops the walk: it cannot be read, or its code section cannot after clean rows only. */
  ghost predicate StopsAt(v: DofView, ad: Adapter, ecb: EcbRow, table: Table, id: U64, log: Log, k: nat) {
    || ActionAt(ecb, table, k).Err?
    || (DifoBytes(v, ActionAt(ecb, table, k).value).Err? && !ActionAt(ecb, table, k).value.kind.Destructive?
        && forall j :: 0 <= j < k ==> Clean(v, ad, ecb, table, id, log, j))
  }

  lemma OneActionStopsIff(v: DofView, ad: Adapter, ecb: EcbRow, table: Table, id: U64, log: Log, i: nat, l: Log)
    requires ActionAt(ecb, table, i).Ok? && forall j :: 0 <= j < i ==> Clean(v, ad, ecb, table, id, log, j)
    ensures OneAction(v, ad, id, ActionAt(ecb, table, i).value, None, l).verdict.Err? <==>
            StopsAt(v, ad, ecb, table, id, log, i)
  {
    hide ActionAt, DifoBytes, Clean;
  }

  /** A row that is not clean hides the code sections of all rows after it. */
  lemma StopsLaterIff(v: DofView, ad: Adapter, ecb: EcbRow, table: Table, id: U64, log: Log, i: nat, k: nat)
    requires i < k && !Clean(v, ad, ecb, table, id, log, i)
    ensures StopsAt(v, ad, ecb, table, id, log, k) <==> ActionAt(ecb, table, k).Err?
  {
    hide ActionAt, DifoBytes, Clean;
  }

  /** The walk fails exactly when some remaining row stops it. */
  lemma {:induction false} WalkStopsIff(v: DofView, ad: Adapter, ecb: EcbRow, table: Table, id: U64, log: Log, i: nat)
    requires i <= ecb.count && forall j :: 0 <= j < i ==> Clean(v, ad, ecb, table, id, log, j)
    ensures WalkFrom(v, ad, ecb, table, id, i, None, log + Records(v, ecb, table, id, i)).verdict.Err? <==>
            exists k :: i <= k < ecb.count && StopsAt(v, ad, ecb, table, id, log, k)
    decreases ecb.count - i
  {
    hide OneAction, Records, Clean, ActionAt, StopsAt;
    if i < ecb.count {
      RowUnreadable(v, ad, ecb, table, id, log, i);
      if ActionAt(ecb, table, i).Ok? {
        var a, l := ActionAt(ecb, table, i).value, log + Records(v, ecb, table, id, i);
        OneActionIff(v, ad, ecb, table, id, log, i);
        OneActionStopsIff(v, ad, ecb, table, id, log, i, l);
        var w := OneAction(v, ad, id, a, None, l);
        if w.verdict == Ok(None) {
          WalkStopsIff(v, ad, ecb, table, id, log, i + 1);
        } else if w.verdict.Ok? {
          ReasonSticks(v, ad, ecb, table, id, i + 1, w.verdict.value.value, w.log);
          forall k | i < k < ecb.count
            ensures StopsAt(v, ad, ecb, table, id, log, k) <==> ActionAt(ecb, table, k).Err?
          {
            StopsLaterIff(v, ad, ecb, table, id, log, i, k);
          }
        }
      }
    }
  }

  lemma RowUnreadable(v: DofView, ad: Adapter, ecb: EcbRow, table: Table, id: U64, log: Log, i: nat)
    ensures ActionAt(ecb, table, i).Err? ==> StopsAt(v, ad, ecb, table, id, log, i)
  {
  }

  ghost predicate ChainStops(v: DofView, ad: Adapter, ecb: EcbRow, id: U64, log: Log) {
    && ecb.count > 0
    && (ActionTable(v, ecb).Err? ||
        exists k :: 0 <= k < ecb.count && StopsAt(v, ad, ecb, ActionTable(v, ecb).value, id, log, k))
  }

  lemma ConcludeStopsIff(v: DofView, ad: Adapter, ecb: EcbRow, id: U64, log: Log)
    ensures Conclude(v, ad, ecb, id, log).status.Err? <==> ChainStops(v, ad, ecb, id, log)
  {
    hide WalkFrom, ActionTable, StopsAt;
    if ecb.count > 0 && ActionTable(v, ecb).Ok? {
      var table := ActionTable(v, ecb).value;
      assert Records(v, ecb, table, id, 0) == [] && log + [] == log;
      WalkStopsIff(v, ad, ecb, table, id, log, 0);
    }
  }

  /** What aborts the session: an unreadable probe, or, once attached, an unreadable predicate or action chain. */
  ghost predicate Aborting(v: DofView, ad: Adapter, ecb: EcbRow, log: Log, utf8: Text -> bool) {
    var r := Resolve(v, ecb.probes, utf8);
    r.Err? ||
    (r.value.Some? && ad.supports(log, r.value.value.provider) && ad.attach(log, r.value.value).Ok? &&
     var t := r.value.value;
     var id := ad.attach(log, t).value;
     if ecb.pred != 0 && SectionBytes(v, ecb.pred).Err? then true
     else
       && (ecb.pred != 0 ==> ad.bind(log + [Attached(id, t)], id, SectionBytes(v, ecb.pred).value).None?)
       && ChainStops(v, ad, ecb, id, log + Prelude(v, ecb, id, t)))
  }

  /** For every adapter, an ECB aborts the session exactly under that condition. */
  lemma AbortsExactly(v: DofView, ad: Adapter, ecb: EcbRow, log: Log, utf8: Text -> bool)
    ensures DriveOne(v, ad, ecb, log, utf8).status.Err? <==> Aborting(v, ad, ecb, log, utf8)
  {
    hide Resolve, Conclude, SectionBytes, ChainStops;
    var r := Resolve(v, ecb.probes, utf8);
    if r.Ok? && r.value.Some? && ad.attach(log, r.value.value).Ok? {
      var t := r.value.value;
      var id := ad.attach(log, t).value;
      var attached := log + [Attached(id, t)];
      ConcludeStopsIff(v, ad, ecb, id, attached);
      if ecb.pred != 0 && SectionBytes(v, ecb.pred).Ok? {
        var difo := SectionBytes(v, ecb.pred).value;
        assert attached + [Bound(id, difo, true)] == log + [Attached(id, t), Bound(id, difo, true)];
        ConcludeStopsIff(v, ad, ecb, id, attached + [Bound(id, difo, true)]);
      }
    }
  }

  /** Row `k` stops the walk: it cannot be read, or its code section cannot while no earlier row was turned down. */
  ghost predicate Faulty(v: DofView, ecb: EcbRow, table: Table, k: nat) {
    || ActionAt(ecb, table, k).Err?
    || (DifoBytes(v, ActionAt(ecb, table, k).value).Err? && !ActionAt(ecb, table, k).value.kind.Destructive?
        && forall j :: 0 <= j < k ==> ActionAt(ecb, table, j).Ok? && ActionAt(ecb, table, j).value.kind.Plain?)
  }

  /** The action chain cannot be read to its end. */
  ghost predicate WalkFault(v: DofView, ecb: EcbRow) {
    ecb.count > 0
    && (ActionTable(v, ecb).Err? || exists k :: 0 <= k < ecb.count && Faulty(v, ecb, ActionTable(v, ecb).value, k))
  }

  /** Something the driver reads for this ECB is malformed. A caller can check this on the blob alone. */
  ghost predicate Malformed(v: DofView, ecb: EcbRow, utf8: Text -> bool) {
    var r := Resolve(v, ecb.probes, utf8);
    r.Err? || (r.value.Some? && ((ecb.pred != 0 && SectionBytes(v, ecb.pred).Err?) || WalkFault(v, ecb)))
  }

  /** An adapter that agrees to everything. */
  function Willing(id: U64): Adapter {
    Adapter((_, _) => true, (_, _) => Ok(id), (_, _, _) => None, (_, _, _, _) => None, (_, _, _) => None,
            (_, _) => None)
  }

  lemma {:induction false} WalkErrs(v: DofView, ad: Adapter, ecb: EcbRow, table: Table, id: U64, i: nat, log: Log)
    requires i <= ecb.count
    requires forall j :: 0 <= j < i ==> ActionAt(ecb, table, j).Ok? && ActionAt(ecb, table, j).value.kind.Plain?
    ensures WalkFrom(v, ad, ecb, table, id, i, None, log).verdict.Err? ==>
              exists k :: i <= k < ecb.count && Faulty(v, ecb, table, k)
    decreases ecb.count - i
  {
    hide ActionAt, DifoBytes;
    if i < ecb.count {
      if ActionAt(ecb, table, i).Err? {
        assert Faulty(v, ecb, table, i);
      } else {
        var a := ActionAt(ecb, table, i).value;
        var w := OneAction(v, ad, id, a, None, log);
        if w.verdict.Err? {
          assert Faulty(v, ecb, table, i);
        } else if w.verdict.value.Some? {
          ReasonSticks(v, ad, ecb, table, id, i + 1, w.verdict.value.value, w.log);
          if k :| i + 1 <= k < ecb.count && ActionAt(ecb, table, k).Err? {
            assert Faulty(v, ecb, table, k);
          }
        } else {
          SilentIsPlain(v, ad, ecb, table, id, i, log);
          WalkErrs(v, ad, ecb, table, id, i + 1, w.log);
        }
      }
    }
  }

  lemma SilentIsPlain(v: DofView, ad: Adapter, ecb: EcbRow, table: Table, id: U64, i: nat, log: Log)
    requires ActionAt(ecb, table, i).Ok?
    requires OneAction(v, ad, id, ActionAt(ecb, table, i).value, None, log).verdict == Ok(None)
    ensures ActionAt(ecb, table, i).value.kind.Plain?
  {
    ActionCodes(ecb, table, i);
    hide ActionAt, DifoBytes;
    var kind := ActionAt(ecb, table, i).value.kind;
    if kind.AggSentinel? {
      SentinelNamesNoOperator(kind);
    }
  }

  lemma {:induction false} WillingWalkErrs(v: DofView, ecb: EcbRow, table: Table, id: U64, i: nat, log: Log, k: nat)
    requires i <= k < ecb.count && Faulty(v, ecb, table, k)
    ensures WalkFrom(v, Willing(id), ecb, table, id, i, None, log).verdict.Err?
    decreases ecb.count - i
  {
    hide ActionAt, DifoBytes;
    if ActionAt(ecb, table, i).Ok? {
      var a := ActionAt(ecb, table, i).value;
      var w := OneAction(v, Willing(id), id, a, None, log);
      if i < k && w.verdict.Ok? {
        if w.verdict.value.None? {
          WillingWalkErrs(v, ecb, table, id, i + 1, w.log, k);
        } else {
          ReasonSticks(v, Willing(id), ecb, table, id, i + 1, w.verdict.value.value, w.log);
        }
      }
    }
  }

  /** Whatever the adapter, only a malformed ECB aborts the session. */
  lemma AbortsOnlyMalformed(v: DofView, ad: Adapter, ecb: EcbRow, log: Log, utf8: Text -> bool)
    ensures DriveOne(v, ad, ecb, log, utf8).status.Err? ==> Malformed(v, ecb, utf8)
  {
    hide Resolve, WalkFrom, ActionTable, SectionBytes, Faulty;
    if ecb.count > 0 && ActionTable(v, ecb).Ok? {
      forall id: U64, l: Log
        ensures WalkFrom(v, ad, ecb, ActionTable(v, ecb).value, id, 0, None, l).verdict.Err? ==> WalkFault(v, ecb)
      {
        WalkErrs(v, ad, ecb, ActionTable(v, ecb).value, id, 0, l);
      }
    }
  }

  lemma WillingChainErrs(v: DofView, ecb: EcbRow, id: U64, log: Log)
    requires (ecb.pred != 0 && SectionBytes(v, ecb.pred).Err?) || WalkFault(v, ecb)
    ensures Chain(v, Willing(id), ecb, id, log).status.Err?
  {
    hide WalkFrom, ActionTable, SectionBytes, Faulty;
    if WalkFault(v, ecb) && ActionTable(v, ecb).Ok? {
      var table := ActionTable(v, ecb).value;
      var k :| 0 <= k < ecb.count && Faulty(v, ecb, table, k);
      WillingWalkErrs(v, ecb, table, id, 0, log, k);
      if ecb.pred != 0 && SectionBytes(v, ecb.pred).Ok? {
        WillingWalkErrs(v, ecb, table, id, 0, log + [Bound(id, SectionBytes(v, ecb.pred).value, true)], k);
      }
    }
  }

  /**
   * With a willing adapter an ECB aborts the session, instead of being reported as rejected, exactly when it
   * is malformed; and if its probe could be resolved, that probe is left attached.
   */
  lemma AbortsIff(v: DofView, ecb: EcbRow, log: Log, id: U64, utf8: Text -> bool)
    ensures var o := DriveOne(v, Willing(id), ecb, log, utf8);
            && (o.status.Err? <==> Malformed(v, ecb, utf8))
            && (o.status.Err? && Resolve(v, ecb.probes, utf8).Ok? ==> id in SessionSafety.Live(o.log))
  {
    AbortsOnlyMalformed(v, Willing(id), ecb, log, utf8);
    hide Resolve, Chain, SectionBytes, WalkFault, SessionSafety.Live;
    var r := Resolve(v, ecb.probes, utf8);
    if r.Ok? && r.value.Some? {
      var attached := log + [Attached(id, r.value.value)];
      SessionSafety.LiveSnoc(log, Attached(id, r.value.value));
      SessionSafety.ChainLive(v, Willing(id), ecb, id, attached);
      if Malformed(v, ecb, utf8) {
        WillingChainErrs(v, ecb, id, attached);
      }
    }
  }
}
