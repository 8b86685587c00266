/** The session driver: it updates an adapter in place and reports one verdict per ECB. */
module SessionDriver {
  import opened Bytes
  import opened Dof
  import opened Ecb
  import opened SessionSpec
  import SessionActions

  /** An adapter with its call history. */
  class Engine {
    const ad: Adapter
    var log: Log

    constructor (ad: Adapter)
      ensures this.ad == ad && log == []
    {
      this.ad, this.log := ad, [];
    }

    method OnEvent(begin: bool) returns (fault: Option<LowerError>)
      modifies this
      ensures fault == ad.onEvent(old(log), begin) && log == old(log) + [if begin then Began else Ended]
    {
      fault := ad.onEvent(log, begin);
      log := log + [if begin then Began else Ended];
    }

    method Attach(t: Target) returns (r: Result<U64, Reject>)
      modifies this
      ensures r == ad.attach(old(log), t)
      ensures log == old(log) + [if r.Ok? then Attached(r.value, t) else AttachRefused(t)]
    {
      r := ad.attach(log, t);
      log := log + [if r.Ok? then Attached(r.value, t) else AttachRefused(t)];
    }

    method Bind(id: U64, difo: seq<Byte>) returns (refusal: Option<Reject>)
      modifies this
      ensures refusal == ad.bind(old(log), id, difo) && log == old(log) + [Bound(id, difo, refusal.None?)]
    {
      refusal := ad.bind(log, id, difo);
      log := log + [Bound(id, difo, refusal.None?)];
    }

    method Record(id: U64, a: Action, bytes: seq<Byte>) returns (refusal: Option<Reject>)
      modifies this
      ensures refusal == ad.record(old(log), id, a, bytes) && log == old(log) + [Recorded(id, a, bytes, refusal.None?)]
    {
      refusal := ad.record(log, id, a, bytes);
      log := log + [Recorded(id, a, bytes, refusal.None?)];
    }

    method Declare(variable: nat, operator: nat) returns (refusal: Option<Reject>)
      modifies this
      ensures refusal == ad.declare(old(log), variable, operator) && log == old(log) + [Declared(variable, operator)]
    {
      refusal := ad.declare(log, variable, operator);
      log := log + [Declared(variable, operator)];
    }

    method Detach(id: U64)
      modifies this
      ensures log == old(log) + [Detached(id)]
    {
      log := log + [Detached(id)];
    }
  }

  /** The body of the action callback. */
  method OnAction(v: DofView, engine: Engine, id: U64, a: Action,
      why: Option<Reject>) returns (r: Result<Option<Reject>, LowerError>)
    modifies engine
    ensures Walked(r, engine.log) == OneAction(v, engine.ad, id, a, why, old(engine.log))
  {
    if why.Some? {
      return Ok(why);
    }
    if a.kind.Destructive? {
      return Ok(Some(DestructiveDisabled));
    }
    var difo: seq<Byte> := [];
    if a.difo != 0 {
      var bytes := SectionBytes(v, a.difo);
      if bytes.Err? {
        return Err(bytes.error);
      }
      difo := bytes.value;
    }
    var actionErr := engine.Record(id, a, difo);
    if a.kind.AggSentinel? {
      var operator := a.kind.code / 256;
      if IsAggKind(operator) {
        var refusal := engine.Declare(a.arg % 0x1_0000_0000, operator);
        if actionErr.None? {
          actionErr := refusal;
        }
      } else if actionErr.None? {
        actionErr := Some(AggKindUnsupported);
      }
    }
    return Ok(actionErr);
  }

  ghost predicate RowInside(ecb: EcbRow, table: (seq<Byte>, nat), i: nat) {
    (ecb.first + i) * table.1 + table.1 <= |table.0|
  }

  /** Reads one row; its start and end never leave 64 bits, so the capacity error cannot occur. */
  method ReadRow(v: DofView, ecb: EcbRow, table: (seq<Byte>, nat), i: nat) returns (r: Result<Action, LowerError>)
    requires Valid(v) && ActionTable(v, ecb) == Ok(table)
    requires i > 0 ==> RowInside(ecb, table, i - 1)
    ensures r == ActionAt(ecb, table, i)
    ensures r.Ok? ==> RowInside(ecb, table, i)
  {
    hide ParseAction, ActionTable, SectionAt, SectionBytes;
    RowArithmeticFits(v, ecb, table, i);
    var start: U64 := (ecb.first + i) * table.1;
    var end: U64 := start + table.1;
    if end > |table.0| {
      return Err(SectionOutOfBounds(ecb.actions, start, table.1, |table.0|));
    }
    return ParseAction(table.0[start..end]);
  }

  /** Walks the chain row by row. */
  method WalkActions(v: DofView, engine: Engine, ecb: EcbRow, id: U64) returns (r: Result<Option<Reject>, LowerError>)
    requires Valid(v)
    modifies engine
    ensures Walked(r, engine.log) == WalkChain(v, engine.ad, ecb, id, old(engine.log))
  {
    hide OneAction, ActionAt, ActionTable, RowInside;
    if ecb.count == 0 {
      return Ok(None);
    }
    var table := ActionTable(v, ecb);
    if table.Err? {
      return Err(table.error);
    }
    var why: Option<Reject> := None;
    for i := 0 to ecb.count
      invariant i > 0 ==> RowInside(ecb, table.value, i - 1)
      invariant WalkFrom(v, engine.ad, ecb, table.value, id, i, why, engine.log)
             == WalkFrom(v, engine.ad, ecb, table.value, id, 0, None, old(engine.log))
    {
      var row := ReadRow(v, ecb, table.value, i);
      if row.Err? {
        return Err(row.error);
      }
      var step := OnAction(v, engine, id, row.value, why);
      if step.Err? {
        return Err(step.error);
      }
      why := step.value;
    }
    return Ok(why);
  }

  /** Resolve, attach, bind, walk; a refusal after the attach detaches, an error does not. */
  method DriveEcb(v: DofView, engine: Engine, ecb: EcbRow, utf8: Text -> bool) returns (r: Result<Status, LowerError>)
    requires Valid(v)
    modifies engine
    ensures Outcome(r, engine.log) == DriveOne(v, engine.ad, ecb, old(engine.log), utf8)
  {
    hide Resolve, WalkChain, SectionBytes;
    var resolved := Resolve(v, ecb.probes, utf8);
    if resolved.Err? {
      return Err(resolved.error);
    }
    if resolved.value.None? {
      return Ok(ZeroMatch);
    }
    var target := resolved.value.value;
    if !engine.ad.supports(engine.log, target.provider) {
      return Ok(Rejected(NoProvider));
    }
    var attached := engine.Attach(target);
    if attached.Err? {
      return Ok(Rejected(attached.error));
    }
    var id := attached.value;
    if ecb.pred != 0 {
      var bytes := SectionBytes(v, ecb.pred);
      if bytes.Err? {
        return Err(bytes.error);
      }
      var refusal := engine.Bind(id, bytes.value);
      if refusal.Some? {
        engine.Detach(id);
        return Ok(Rejected(refusal.value));
      }
    }
    var actionErr := WalkActions(v, engine, ecb, id);
    if actionErr.Err? {
      return Err(actionErr.error);
    }
    if actionErr.value.Some? {
      engine.Detach(id);
      return Ok(Rejected(actionErr.value.value));
    }
    return Ok(Accepted(id));
  }

  /** The calls of the status callback: verdicts numbered from zero. */
  ghost function Numbered(ss: seq<Status>): (r: seq<(nat, Status)>)
    ensures |r| == |ss| && forall k :: 0 <= k < |ss| ==> r[k] == (k, ss[k])
  {
    seq(|ss|, k requires 0 <= k < |ss| => (k, ss[k]))
  }

  lemma NumberedNext(ss: seq<Status>, s: Status)
    ensures Numbered(ss + [s]) == Numbered(ss) + [(|ss|, s)]
  {
    hide Numbered;
    var a, b := Numbered(ss + [s]), Numbered(ss) + [(|ss|, s)];
    forall k | 0 <= k < |a|
      ensures a[k] == b[k]
    {
    }
    assert a == b;
  }

  lemma CountNext(ss: seq<Status>, s: Status)
    ensures Count(ss + [s]) == Count(ss) + if s.Accepted? then 1 else 0
  {
    assert (ss + [s])[..|ss|] == ss;
  }

  /** What is left to drive when the stream goes on with a row. */
  lemma DriveNext(v: DofView, ad: Adapter, row: Result<EcbRow, LowerError>, rest: seq<Result<EcbRow, LowerError>>,
                  ss: seq<Status>, log: Log, utf8: Text -> bool)
    ensures var s := DriveRows(v, ad, [row] + rest, ss, log, utf8);
            if row.Err? then s == Session(ss, log, Err(row.error))
            else
              var o := DriveOne(v, ad, row.value, log, utf8);
              if o.status.Err? then s == Session(ss, o.log, Err(o.status.error))
              else s == DriveRows(v, ad, rest, ss + [o.status.value], o.log, utf8)
  {
    hide DriveOne;
    assert ([row] + rest)[1..] == rest;
  }

  lemma NoneYet()
    ensures Numbered([]) == [] && Count([]) == 0
  {
  }

  lemma DriveEnd(v: DofView, ad: Adapter, ss: seq<Status>, log: Log, utf8: Text -> bool)
    ensures var fault := ad.onEvent(log, false);
            DriveRows(v, ad, [], ss, log, utf8) ==
            Session(ss, log + [Ended], if fault.Some? then Err(fault.value) else Ok(Count(ss)))
  {
  }

  /** Drives every row of the stream; the callback sees each verdict once, in order. */
  method DriveSession(v: DofView, engine: Engine, utf8: Text -> bool)
    returns (reported: seq<(nat, Status)>, r: Result<nat, LowerError>)
    requires Valid(v)
    modifies engine
    ensures var s := Drive(v, engine.ad, old(engine.log), utf8);
            engine.log == s.log && r == s.result && reported == Numbered(s.statuses)
    ensures SessionActions.Calm(v, engine.log, |old(engine.log)|)
  {
    hide DriveOne, DriveRows, Stream, RestOf, Numbered, Count, SessionActions.Calm;
    NoneYet();
    SessionActions.SessionIsCalm(v, engine.ad, engine.log, utf8);
    reported := [];
    var fault := engine.OnEvent(true);
    if fault.Some? {
      return reported, Err(fault.value);
    }
    ghost var ss: seq<Status> := [];
    ghost var log0 := engine.log;
    var accepted, index := 0, 0;
    var it := new EcbIter(v);
    while true
      invariant fresh(it) && it.Ok() && it.view == v
      invariant reported == Numbered(ss) && index == |ss| && accepted == Count(ss)
      invariant DriveRows(v, engine.ad, it.Rest(), ss, engine.log, utf8)
             == DriveRows(v, engine.ad, Stream(v, 0), [], log0, utf8)
      decreases |it.Rest()|
    {
      var item := it.Next();
      if item.None? {
        DriveEnd(v, engine.ad, ss, engine.log, utf8);
        break;
      }
      DriveNext(v, engine.ad, item.value, it.Rest(), ss, engine.log, utf8);
      if item.value.Err? {
        return reported, Err(item.value.error);
      }
      var status := DriveEcb(v, engine, item.value.value, utf8);
      if status.Err? {
        return reported, Err(status.error);
      }
      NumberedNext(ss, status.value);
      CountNext(ss, status.value);
      if status.value.Accepted? {
        accepted := accepted + 1;
      }
      reported := reported + [(index, status.value)];
      ss := ss + [status.value];
      index := index + 1;
    }
    fault := engine.OnEvent(false);
    if fault.Some? {
      return reported, Err(fault.value);
    }
    return reported, Ok(accepted);
  }
}
