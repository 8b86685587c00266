/** What driving one ECB, and a whole session, does to an adapter. */
module SessionSpec {
  import opened Bytes
  import opened Dof
  import opened Ecb

  type Text = seq<Byte>

  datatype Target = Target(provider: Text, mod: Text, func: Text, name: Text)

  datatype Reject =
    | NoMatch | NoProvider | NotImplemented | DestructiveDisabled | AggKindUnsupported | ResourceExhausted
    | LoweringFailed

  datatype Status = Accepted(id: U64) | Rejected(reason: Reject) | ZeroMatch

  /** The calls an adapter has seen that can change it, with their outcomes. */
  datatype Event =
    | Began | Ended
    | Attached(id: U64, target: Target) | AttachRefused(refused: Target)
    | Bound(bound: U64, difo: seq<Byte>, bindOk: bool)
    | Recorded(on: U64, action: Action, bytes: seq<Byte>, ok: bool)
    | Declared(variable: nat, operator: nat)
    | Detached(gone: U64)

  type Log = seq<Event>

  /** An arbitrary adapter: every answer may depend on everything it was asked before. */
  datatype Adapter = Adapter(
    supports: (Log, Text) -> bool,
    attach: (Log, Target) -> Result<U64, Reject>,
    bind: (Log, U64, seq<Byte>) -> Option<Reject>,
    record: (Log, U64, Action, seq<Byte>) -> Option<Reject>,
    declare: (Log, nat, nat) -> Option<Reject>,
    onEvent: (Log, bool) -> Option<LowerError>)

  // ---------------------------------------------------------------- probe descriptions

  function Terminated(b: seq<Byte>): (r: seq<Byte>)
    ensures r <= b && 0 !in r && (|r| < |b| ==> b[|r|] == 0)
  {
    if |b| == 0 || b[0] == 0 then [] else [b[0]] + Terminated(b[1..])
  }

  /** A string-table entry; out of range or not UTF-8 reads as empty. */
  function ReadCstr(b: seq<Byte>, off: nat, utf8: Text -> bool): Text {
    if off >= |b| then []
    else
      var s := Terminated(b[off..]);
      if utf8(s) then s else []
  }

  function Resolve(v: DofView, section: U32, utf8: Text -> bool): Result<Option<Target>, LowerError> {
    match SectionAt(v, section)
    case None => Err(SectionIndexOutOfRange(section, v.count))
    case Some(h) =>
      if h.kind != PROBE_DESC then Err(SectionIndexOutOfRange(section, v.count))
      else
        match SectionBytes(v, section)
        case Err(e) => Err(e)
        case Ok(p) =>
          if h.entsize < 16 || h.entsize > |p| then Ok(None)
          else
            match SectionBytes(v, U32At(p, 0))
            case Err(e) => Err(e)
            case Ok(tab) =>
              Ok(Some(Target(
                ReadCstr(tab, U32At(p, 4), utf8), ReadCstr(tab, U32At(p, 8), utf8), ReadCstr(tab, U32At(p, 12), utf8),
                ReadCstr(tab, if h.entsize >= 20 then U32At(p, 16) else 0, utf8))))
  }

  // ---------------------------------------------------------------- one ECB

  /** The action walk: the first reason to reject, if any, unless the walk itself fails. */
  datatype Walked = Walked(verdict: Result<Option<Reject>, LowerError>, log: Log)

  function DifoBytes(v: DofView, a: Action): Result<seq<Byte>, LowerError> {
    if a.difo == 0 then Ok([]) else SectionBytes(v, a.difo)
  }

  function OneAction(v: DofView, ad: Adapter, id: U64, a: Action, why: Option<Reject>, log: Log): Walked {
    if why.Some? then Walked(Ok(why), log)
    else if a.kind.Destructive? then Walked(Ok(Some(DestructiveDisabled)), log)
    else
      match DifoBytes(v, a)
      case Err(e) => Walked(Err(e), log)
      case Ok(bytes) =>
        var answer := ad.record(log, id, a, bytes);
        var log' := log + [Recorded(id, a, bytes, answer.None?)];
        if a.kind.AggSentinel? then Aggregate(ad, a, answer, log') else Walked(Ok(answer), log')
  }

  /** A sentinel also declares its aggregation, if its code names an operator; an earlier refusal wins. */
  function Aggregate(ad: Adapter, a: Action, why: Option<Reject>, log: Log): Walked
    requires a.kind.AggSentinel?
  {
    var variable, operator := a.arg % 0x1_0000_0000, a.kind.code / 256;
    if IsAggKind(operator) then
      var answer := ad.declare(log, variable, operator);
      Walked(Ok(if why.Some? then why else answer), log + [Declared(variable, operator)])
    else
      Walked(Ok(if why.Some? then why else Some(AggKindUnsupported)), log)
  }

  function WalkFrom(v: DofView, ad: Adapter, ecb: EcbRow, table: (seq<Byte>, nat), id: U64, i: nat,
      why: Option<Reject>, log: Log): Walked
    decreases ecb.count - i
  {
    if i >= ecb.count then Walked(Ok(why), log)
    else
      match ActionAt(ecb, table, i)
      case Err(e) => Walked(Err(e), log)
      case Ok(a) =>
        var w := OneAction(v, ad, id, a, why, log);
        if w.verdict.Err? then w else WalkFrom(v, ad, ecb, table, id, i + 1, w.verdict.value, w.log)
  }

  function WalkChain(v: DofView, ad: Adapter, ecb: EcbRow, id: U64, log: Log): Walked {
    if ecb.count == 0 then Walked(Ok(None), log)
    else
      match ActionTable(v, ecb)
      case Err(e) => Walked(Err(e), log)
      case Ok(table) => WalkFrom(v, ad, ecb, table, id, 0, None, log)
  }

  datatype Outcome = Outcome(status: Result<Status, LowerError>, log: Log)

  /** After the predicate: walk the actions, and detach again if one was refused. */
  function Conclude(v: DofView, ad: Adapter, ecb: EcbRow, id: U64, log: Log): Outcome {
    var w := WalkChain(v, ad, ecb, id, log);
    match w.verdict
    case Err(e) => Outcome(Err(e), w.log)
    case Ok(None) => Outcome(Ok(Accepted(id)), w.log)
    case Ok(Some(r)) => Outcome(Ok(Rejected(r)), w.log + [Detached(id)])
  }

  function Chain(v: DofView, ad: Adapter, ecb: EcbRow, id: U64, log: Log): Outcome {
    if ecb.pred == 0 then Conclude(v, ad, ecb, id, log)
    else
      match SectionBytes(v, ecb.pred)
      case Err(e) => Outcome(Err(e), log)
      case Ok(difo) =>
        match ad.bind(log, id, difo)
        case Some(r) => Outcome(Ok(Rejected(r)), log + [Bound(id, difo, false)] + [Detached(id)])
        case None => Conclude(v, ad, ecb, id, log + [Bound(id, difo, true)])
  }

  function DriveOne(v: DofView, ad: Adapter, ecb: EcbRow, log: Log, utf8: Text -> bool): Outcome {
    match Resolve(v, ecb.probes, utf8)
    case Err(e) => Outcome(Err(e), log)
    case Ok(None) => Outcome(Ok(ZeroMatch), log)
    case Ok(Some(target)) =>
      if !ad.supports(log, target.provider) then Outcome(Ok(Rejected(NoProvider)), log)
      else
        match ad.attach(log, target)
        case Err(r) => Outcome(Ok(Rejected(r)), log + [AttachRefused(target)])
        case Ok(id) => Chain(v, ad, ecb, id, log + [Attached(id, target)])
  }

  // ---------------------------------------------------------------- a whole session

  /** The verdicts reported so far (the k-th call of the status callback carries index k), and how it ended. */
  datatype Session = Session(statuses: seq<Status>, log: Log, result: Result<nat, LowerError>)

  function Count(ss: seq<Status>): nat {
    if |ss| == 0 then 0 else Count(ss[..|ss| - 1]) + if ss[|ss| - 1].Accepted? then 1 else 0
  }

  function DriveRows(v: DofView, ad: Adapter, rows: seq<Result<EcbRow, LowerError>>, statuses: seq<Status>, log: Log,
      utf8: Text -> bool): Session
    decreases |rows|
  {
    if |rows| == 0 then
      match ad.onEvent(log, false)
      case Some(e) => Session(statuses, log + [Ended], Err(e))
      case None => Session(statuses, log + [Ended], Ok(Count(statuses)))
    else if rows[0].Err? then Session(statuses, log, Err(rows[0].error))
    else
      var o := DriveOne(v, ad, rows[0].value, log, utf8);
      match o.status
      case Err(e) => Session(statuses, o.log, Err(e))
      case Ok(s) => DriveRows(v, ad, rows[1..], statuses + [s], o.log, utf8)
  }

  function Drive(v: DofView, ad: Adapter, log: Log, utf8: Text -> bool): Session {
    match ad.onEvent(log, true)
    case Some(e) => Session([], log + [Began], Err(e))
    case None => DriveRows(v, ad, Stream(v, 0), [], log + [Began], utf8)
  }
}
