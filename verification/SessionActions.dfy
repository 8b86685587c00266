/** Action codes in a session: no destructive action is ever recorded, and which verdict every ECB gets. */
module SessionActions {
  import opened Bytes
  import opened Dof
  import opened Ecb
  import opened DofFormat
  import opened SessionSpec
  import opened SessionVerdicts

  /** The code of row `k` of an ECB's chain, where the blob holds it. */
  ghost function CodeAt(v: DofView, ecb: EcbRow, k: nat): Option<U32> {
    var h, p := SectionAt(v, ecb.actions), SectionBytes(v, ecb.actions);
    if h.None? || p.Err? || h.value.entsize < 32 then None
    else
      var e := h.value.entsize;
      var start := (ecb.first + k) * e;
      if start + e > |p.value| then None else Some(U32At(p.value, start + 8))
  }

  lemma RowCode(v: DofView, ecb: EcbRow, k: nat)
    requires CodeAt(v, ecb, k).Some?
    ensures ActionTable(v, ecb).Ok?
    ensures var at, c := ActionAt(ecb, ActionTable(v, ecb).value, k), CodeAt(v, ecb, k).value;
            && (at.Ok? <==> KnownCode(c))
            && (at.Ok? ==> at.value.kind.code == c && (at.value.kind.Destructive? <==> DestructiveCode(c)))
  {
    hide SectionAt, SectionBytes, ParseAction, KnownCode, DestructiveCode, U32At;
    var p, e := SectionBytes(v, ecb.actions).value, SectionAt(v, ecb.actions).value.entsize;
    var start := (ecb.first + k) * e;
    var raw := p[start..start + e];
    ActionParsesIff(raw);
    SameWord(p, start, e);
  }

  lemma SameWord(p: seq<Byte>, start: nat, e: nat)
    requires start + e <= |p| && 32 <= e
    ensures U32At(p[start..start + e], 8) == U32At(p, start + 8)
  {
    hide FromLe;
    SliceInside(p, start, p[start..start + e], 8, 12);
  }

  // ---------------------------------------------------------------- destructive actions

  /** An ECB with a destructive action among its rows is not accepted, whatever the adapter would answer. */
  lemma DestructiveNotAccepted(v: DofView, ad: Adapter, ecb: EcbRow, log: Log, utf8: Text -> bool, k: nat)
    requires k < ecb.count && CodeAt(v, ecb, k).Some? && DestructiveCode(CodeAt(v, ecb, k).value)
    ensures var s := DriveOne(v, ad, ecb, log, utf8).status; !(s.Ok? && s.value.Accepted?)
  {
    hide DriveOne, DestructiveCode, CodeAt, Acceptable;
    AcceptedIff(v, ad, ecb, log, utf8);
    if Acceptable(v, ad, ecb, log, utf8) {
      AcceptedRow(v, ad, ecb, log, utf8, k);
    }
  }

  lemma AcceptedRow(v: DofView, ad: Adapter, ecb: EcbRow, log: Log, utf8: Text -> bool, k: nat)
    requires k < ecb.count && CodeAt(v, ecb, k).Some? && Acceptable(v, ad, ecb, log, utf8)
    ensures !DestructiveCode(CodeAt(v, ecb, k).value)
  {
    hide Resolve, ActionTable, ActionAt, DestructiveCode, DifoBytes, Records, SectionBytes, CodeAt;
    RowCode(v, ecb, k);
    var t := Resolve(v, ecb.probes, utf8).value.value;
    var id := ad.attach(log, t).value;
    assert Clean(v, ad, ecb, ActionTable(v, ecb).value, id, log + Prelude(v, ecb, id, t), k);
  }

  /** What is recorded is not destructive and comes with the code section it names, or with nothing if it names none. */
  ghost predicate Proper(v: DofView, e: Event) {
    e.Recorded? ==>
      && !DestructiveCode(e.action.kind.code)
      && if e.action.difo == 0 then e.bytes == [] else SectionBytes(v, e.action.difo) == Ok(e.bytes)
  }

  /** So it was from call `from` on. */
  ghost predicate Calm(v: DofView, log: Log, from: nat) {
    forall i :: from <= i < |log| ==> Proper(v, log[i])
  }

  lemma CalmSnoc(v: DofView, log: Log, from: nat, e: Event)
    requires Calm(v, log, from) && Proper(v, e)
    ensures Calm(v, log + [e], from)
  {
  }

  lemma OneActionCalm(v: DofView, ad: Adapter, ecb: EcbRow, table: Table, id: U64, i: nat, why: Option<Reject>,
      log: Log, from: nat)
    requires Calm(v, log, from) && ActionAt(ecb, table, i).Ok?
    ensures Calm(v, OneAction(v, ad, id, ActionAt(ecb, table, i).value, why, log).log, from)
  {
    hide Calm, SectionBytes, DestructiveCode, KindOf, ActionAt;
    var a := ActionAt(ecb, table, i).value;
    ActionCodes(ecb, table, i);
    KindMeaning(a.kind.code);
    if why.None? && !a.kind.Destructive? && DifoBytes(v, a).Ok? {
      var bytes := DifoBytes(v, a).value;
      var e := Recorded(id, a, bytes, ad.record(log, id, a, bytes).None?);
      CalmSnoc(v, log, from, e);
      CalmSnoc(v, log + [e], from, Declared(a.arg % 0x1_0000_0000, a.kind.code / 256));
    }
  }

  lemma {:induction false} WalkCalm(v: DofView, ad: Adapter, ecb: EcbRow, table: Table, id: U64, i: nat,
      why: Option<Reject>, log: Log, from: nat)
    requires Calm(v, log, from)
    ensures Calm(v, WalkFrom(v, ad, ecb, table, id, i, why, log).log, from)
    decreases ecb.count - i
  {
    hide Calm, OneAction, ActionAt;
    if i < ecb.count && ActionAt(ecb, table, i).Ok? {
      OneActionCalm(v, ad, ecb, table, id, i, why, log, from);
      var w := OneAction(v, ad, id, ActionAt(ecb, table, i).value, why, log);
      if w.verdict.Ok? {
        WalkCalm(v, ad, ecb, table, id, i + 1, w.verdict.value, w.log, from);
      }
    }
  }

  lemma ConcludeCalm(v: DofView, ad: Adapter, ecb: EcbRow, id: U64, log: Log, from: nat)
    requires Calm(v, log, from)
    ensures Calm(v, Conclude(v, ad, ecb, id, log).log, from)
  {
    hide Calm, WalkFrom, ActionTable;
    if ecb.count > 0 && ActionTable(v, ecb).Ok? {
      WalkCalm(v, ad, ecb, ActionTable(v, ecb).value, id, 0, None, log, from);
    }
    CalmSnoc(v, WalkChain(v, ad, ecb, id, log).log, from, Detached(id));
  }

  lemma DriveOneCalm(v: DofView, ad: Adapter, ecb: EcbRow, log: Log, utf8: Text -> bool, from: nat)
    requires Calm(v, log, from)
    ensures Calm(v, DriveOne(v, ad, ecb, log, utf8).log, from)
  {
    hide Calm, Resolve, Conclude, SectionBytes;
    var r := Resolve(v, ecb.probes, utf8);
    if r.Ok? && r.value.Some? {
      var t := r.value.value;
      CalmSnoc(v, log, from, AttachRefused(t));
      if ad.attach(log, t).Ok? {
        var id := ad.attach(log, t).value;
        var attached := log + [Attached(id, t)];
        CalmSnoc(v, log, from, Attached(id, t));
        ConcludeCalm(v, ad, ecb, id, attached, from);
        if ecb.pred != 0 && SectionBytes(v, ecb.pred).Ok? {
          var difo := SectionBytes(v, ecb.pred).value;
          CalmSnoc(v, attached, from, Bound(id, difo, true));
          CalmSnoc(v, attached, from, Bound(id, difo, false));
          CalmSnoc(v, attached + [Bound(id, difo, false)], from, Detached(id));
          ConcludeCalm(v, ad, ecb, id, attached + [Bound(id, difo, true)], from);
        }
      }
    }
  }

  lemma {:induction false} DriveRowsCalm(v: DofView, ad: Adapter, rows: seq<Result<EcbRow, LowerError>>,
      ss: seq<Status>, log: Log, utf8: Text -> bool, from: nat)
    requires Calm(v, log, from)
    ensures Calm(v, DriveRows(v, ad, rows, ss, log, utf8).log, from)
    decreases |rows|
  {
    hide Calm, DriveOne;
    CalmSnoc(v, log, from, Ended);
    if |rows| > 0 && rows[0].Ok? {
      DriveOneCalm(v, ad, rows[0].value, log, utf8, from);
      var o := DriveOne(v, ad, rows[0].value, log, utf8);
      if o.status.Ok? {
        DriveRowsCalm(v, ad, rows[1..], ss + [o.status.value], o.log, utf8, from);
      }
    }
  }

  /** In no session, with no adapter and no blob, is a destructive action recorded, or one with the wrong code. */
  lemma SessionIsCalm(v: DofView, ad: Adapter, log: Log, utf8: Text -> bool)
    ensures Calm(v, Drive(v, ad, log, utf8).log, |log|)
  {
    hide DriveRows, Stream, Proper;
    Silent(v);
    CalmSnoc(v, log, |log|, Began);
    DriveRowsCalm(v, ad, Stream(v, 0), [], log + [Began], utf8, |log|);
  }

  lemma Silent(v: DofView)
    ensures Proper(v, Began) && Proper(v, Ended)
  {
  }

  // ---------------------------------------------------------------- every verdict

  /** Row `k` is the first that is not clean; its complaint is the verdict and the calls end with it. */
  ghost predicate RejectedAt(o: Outcome, v: DofView, ad: Adapter, ecb: EcbRow, id: U64, log: Log, k: nat) {
    && k < ecb.count && ActionTable(v, ecb).Ok? &&
    var table := ActionTable(v, ecb).value;
    && (forall j :: 0 <= j < k ==> Clean(v, ad, ecb, table, id, log, j)) && ActionAt(ecb, table, k).Ok?
    && var why := Complaint(v, ad, ecb, table, id, log, k);
       why.Some? && o == Outcome(Ok(Rejected(why.value)), log + Records(v, ecb, table, id, k)
                                   + LastCall(v, ad, ecb, table, id, log, k) + [Detached(id)])
  }

  /** The first row that is not clean, if there is one. */
  lemma {:induction false} FirstUnclean(v: DofView, ad: Adapter, ecb: EcbRow, table: Table, id: U64, log: Log, n: nat)
      returns (k: nat)
    requires exists j :: 0 <= j < n && !Clean(v, ad, ecb, table, id, log, j)
    ensures k < n && !Clean(v, ad, ecb, table, id, log, k)
    ensures forall j :: 0 <= j < k ==> Clean(v, ad, ecb, table, id, log, j)
    decreases n
  {
    hide Clean;
    if exists j :: 0 <= j < n - 1 && !Clean(v, ad, ecb, table, id, log, j) {
      k := FirstUnclean(v, ad, ecb, table, id, log, n - 1);
    } else {
      k := n - 1;
    }
  }

  lemma UncleanComplains(v: DofView, ad: Adapter, ecb: EcbRow, table: Table, id: U64, log: Log, k: nat)
    requires !Clean(v, ad, ecb, table, id, log, k) && !StopsAt(v, ad, ecb, table, id, log, k)
    requires forall j :: 0 <= j < k ==> Clean(v, ad, ecb, table, id, log, j)
    ensures ActionAt(ecb, table, k).Ok? && Complaint(v, ad, ecb, table, id, log, k).Some?
  {
    hide ActionAt, DifoBytes, Records;
  }

  /** A chain that neither stops the session nor is clean is turned down at its first row that is not clean. */
  lemma ConcludeRejects(v: DofView, ad: Adapter, ecb: EcbRow, id: U64, log: Log) returns (k: nat)
    requires !ChainStops(v, ad, ecb, id, log) && !ChainClean(v, ad, ecb, id, log)
    ensures RejectedAt(Conclude(v, ad, ecb, id, log), v, ad, ecb, id, log, k)
  {
    hide WalkFrom, ActionTable, ActionAt, Clean, StopsAt, Records, Complaint, LastCall;
    var table := ActionTable(v, ecb).value;
    k := FirstUnclean(v, ad, ecb, table, id, log, ecb.count);
    UncleanComplains(v, ad, ecb, table, id, log, k);
    forall j | 0 <= j < ecb.count
      ensures ActionAt(ecb, table, j).Ok?
    {
      RowUnreadable(v, ad, ecb, table, id, log, j);
    }
    NoRecords(v, ecb, table, id);
    assert log + [] == log;
    FirstComplaintWins(v, ad, ecb, table, id, log, 0, k);
  }

  lemma NoRecords(v: DofView, ecb: EcbRow, table: Table, id: U64)
    ensures Records(v, ecb, table, id, 0) == []
  {
  }

  /** The adapter attached the probe under this id. */
  ghost predicate AttachedAs(v: DofView, ad: Adapter, ecb: EcbRow, log: Log, utf8: Text -> bool, t: Target, id: U64) {
    && Resolve(v, ecb.probes, utf8) == Ok(Some(t)) && ad.supports(log, t.provider) && ad.attach(log, t) == Ok(id)
  }

  /** A verdict other than acceptance, and everything the adapter was told before it. */
  ghost predicate TurnedDown(o: Outcome, v: DofView, ad: Adapter, ecb: EcbRow, log: Log, utf8: Text -> bool) {
    var r := Resolve(v, ecb.probes, utf8);
    r.Ok? &&
    if r.value.None? then o == Outcome(Ok(ZeroMatch), log)
    else
      var t := r.value.value;
      if !ad.supports(log, t.provider) then o == Outcome(Ok(Rejected(NoProvider)), log)
      else
        var answer := ad.attach(log, t);
        if answer.Err? then o == Outcome(Ok(Rejected(answer.error)), log + [AttachRefused(t)])
        else TurnedDownAttached(o, v, ad, ecb, log, t, answer.value)
  }

  /** After the attach: the predicate was refused, or a row of the chain was. Either way the probe is detached. */
  ghost predicate TurnedDownAttached(o: Outcome, v: DofView, ad: Adapter, ecb: EcbRow, log: Log, t: Target, id: U64) {
    var difo, attached := SectionBytes(v, ecb.pred), log + [Attached(id, t)];
    if ecb.pred != 0 && difo.Ok? && ad.bind(attached, id, difo.value).Some? then
      o == Outcome(Ok(Rejected(ad.bind(attached, id, difo.value).value)),
                   attached + [Bound(id, difo.value, false)] + [Detached(id)])
    else
      exists k :: RejectedAt(o, v, ad, ecb, id, log + Prelude(v, ecb, id, t), k)
  }

  lemma ChainTurnsDown(v: DofView, ad: Adapter, ecb: EcbRow, log: Log, utf8: Text -> bool, t: Target, id: U64)
    requires AttachedAs(v, ad, ecb, log, utf8, t, id)
    requires !Aborting(v, ad, ecb, log, utf8) && !Acceptable(v, ad, ecb, log, utf8)
    ensures TurnedDownAttached(Chain(v, ad, ecb, id, log + [Attached(id, t)]), v, ad, ecb, log, t, id)
  {
    hide Resolve, Conclude, SectionBytes, ChainClean, ChainStops, RejectedAt;
    var difo, attached := SectionBytes(v, ecb.pred), log + [Attached(id, t)];
    if ecb.pred == 0 {
      var k := ConcludeRejects(v, ad, ecb, id, attached);
    } else if ad.bind(attached, id, difo.value).None? {
      assert attached + [Bound(id, difo.value, true)] == log + [Attached(id, t), Bound(id, difo.value, true)];
      var k := ConcludeRejects(v, ad, ecb, id, attached + [Bound(id, difo.value, true)]);
    }
  }

  /**
   * Every ECB has exactly one of three fates: it aborts the session, it is accepted, or it is turned down with the
   * first reason there is and its probe detached again.
   */
  lemma EveryVerdict(v: DofView, ad: Adapter, ecb: EcbRow, log: Log, utf8: Text -> bool)
    ensures var o := DriveOne(v, ad, ecb, log, utf8);
            && (o.status.Err? <==> Aborting(v, ad, ecb, log, utf8))
            && (o.status.Ok? && o.status.value.Accepted? <==> Acceptable(v, ad, ecb, log, utf8))
            && (!Aborting(v, ad, ecb, log, utf8) && !Acceptable(v, ad, ecb, log, utf8) ==>
                  TurnedDown(o, v, ad, ecb, log, utf8))
  {
    hide Resolve, Chain, Acceptable, Aborting, TurnedDownAttached;
    AbortsExactly(v, ad, ecb, log, utf8);
    AcceptedIff(v, ad, ecb, log, utf8);
    var r := Resolve(v, ecb.probes, utf8);
    if r.Ok? && r.value.Some? {
      var t := r.value.value;
      if ad.supports(log, t.provider) && ad.attach(log, t).Ok? {
        var id := ad.attach(log, t).value;
        if !Aborting(v, ad, ecb, log, utf8) && !Acceptable(v, ad, ecb, log, utf8) {
          ChainTurnsDown(v, ad, ecb, log, utf8, t, id);
        }
      }
    }
  }
}
