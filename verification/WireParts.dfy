/** The length-prefixed pieces a BFR7 program is made of, and how each is read and written. */
module WireParts {
  import opened Bytes
  import opened Wire

  datatype WireError =
    | Truncated | UnsupportedMagic(magic: seq<Byte>) | BadProbeType(ty: Byte)
    | PathTooLong(len: nat) | BasenameOutOfRange(len: nat) | SymbolOutOfRange(len: nat)
    | ProviderOutOfRange(len: nat) | ProbeOutOfRange(len: nat) | KfuncNameOutOfRange(len: nat)

  /** Reading an encoding yields its value, or `Truncated` when the input stops inside it. */
  ghost predicate Reads<T>(r: Result<Read<T>, WireError>, value: T, size: nat, available: nat) {
    r == if size <= available then Ok(Read(value, size)) else Err(Truncated)
  }

  // ---------------------------------------------------------------- relocation tables

  /** Counted tables whose entries carry their own name lengths after a fixed header. */
  datatype Table = Kfuncs | FieldRelocs

  function HeaderSize(t: Table): nat {
    if t.Kfuncs? then 5 else 8
  }

  function EntrySize(t: Table, b: seq<Byte>): (n: nat)
    requires |b| >= HeaderSize(t)
    ensures n >= HeaderSize(t)
  {
    if t.Kfuncs? then 5 + b[4] as int else 8 + b[6] as int + b[7] as int
  }

  /** The number of bytes the first `n` entries take. */
  function Walk(t: Table, b: seq<Byte>, n: nat): (r: Result<nat, WireError>)
    ensures r.Ok? ==> r.value <= |b|
    decreases n
  {
    if n == 0 then Ok(0)
    else if |b| < HeaderSize(t) || |b| < EntrySize(t, b) then Err(Truncated)
    else
      match Walk(t, b[EntrySize(t, b)..], n - 1)
      case Err(e) => Err(e)
      case Ok(used) => Ok(EntrySize(t, b) + used)
  }

  /** The whole table, count included. */
  function ReadTable(t: Table, b: seq<Byte>): (r: Result<Read<seq<Byte>>, WireError>)
    ensures r.Ok? ==> 4 <= r.value.used <= |b| && r.value.value == b[..r.value.used]
  {
    if |b| < 4 then Err(Truncated)
    else
      match Walk(t, b[4..], U32At(b, 0))
      case Err(e) => Err(e)
      case Ok(used) => Ok(Read(b[..4 + used], 4 + used))
  }

  predicate IsEntry(t: Table, e: seq<Byte>) {
    |e| >= HeaderSize(t) && EntrySize(t, e) == |e|
  }

  function Flatten(es: seq<seq<Byte>>): seq<Byte> {
    if |es| == 0 then [] else es[0] + Flatten(es[1..])
  }

  ghost predicate AreEntries(t: Table, es: seq<seq<Byte>>) {
    |es| < 0x1_0000_0000 && forall e :: e in es ==> IsEntry(t, e)
  }

  function TableBytes(es: seq<seq<Byte>>): seq<Byte> {
    ToLe(|es|, 4) + Flatten(es)
  }

  lemma EntryMeets(t: Table, e: seq<Byte>, b: seq<Byte>)
    requires IsEntry(t, e) && Meets(b, e)
    ensures |e| <= |b| <==> |b| >= HeaderSize(t) && EntrySize(t, b) <= |b|
    ensures |e| <= |b| ==> EntrySize(t, b) == |e|
  {
  }

  lemma {:induction false} WalkReads(t: Table, es: seq<seq<Byte>>, b: seq<Byte>)
    requires (forall e :: e in es ==> IsEntry(t, e)) && Meets(b, Flatten(es))
    ensures Walk(t, b, |es|) == if |Flatten(es)| <= |b| then Ok(|Flatten(es)|) else Err(Truncated)
    decreases |es|
  {
    if |es| > 0 {
      hide EntrySize, HeaderSize, IsEntry;
      MeetsSplit(b, es[0], Flatten(es[1..]));
      EntryMeets(t, es[0], b);
      if |es[0]| <= |b| {
        WalkReads(t, es[1..], b[|es[0]|..]);
      }
    }
  }

  lemma TableReads(t: Table, es: seq<seq<Byte>>, b: seq<Byte>)
    requires AreEntries(t, es) && Meets(b, TableBytes(es))
    ensures Reads(ReadTable(t, b), TableBytes(es), |TableBytes(es)|, |b|)
  {
    hide ToLe, U32At, Walk, Flatten;
    MeetsSplit(b, ToLe(|es|, 4), Flatten(es));
    if |b| >= 4 {
      ReadsU32(b, |es|);
      WalkReads(t, es, b[4..]);
      if |TableBytes(es)| <= |b| {
        MeetsAll(b, TableBytes(es));
      }
    }
  }

  /** Every successful walk goes over entries laid end to end. */
  lemma {:induction false} WalkEntries(t: Table, b: seq<Byte>, n: nat) returns (es: seq<seq<Byte>>)
    requires Walk(t, b, n).Ok?
    ensures |es| == n && (forall e :: e in es ==> IsEntry(t, e))
    ensures Flatten(es) == b[..Walk(t, b, n).value]
    decreases n
  {
    if n == 0 {
      es := [];
    } else {
      var size := EntrySize(t, b);
      var rest := WalkEntries(t, b[size..], n - 1);
      es := [b[..size]] + rest;
      assert es[1..] == rest;
      Glue(b, size, Walk(t, b[size..], n - 1).value);
    }
  }

  lemma TableEntries(t: Table, b: seq<Byte>) returns (es: seq<seq<Byte>>)
    requires ReadTable(t, b).Ok?
    ensures AreEntries(t, es) && ReadTable(t, b).value.value == TableBytes(es)
  {
    hide ToLe, U32At, Walk, Flatten;
    var n := U32At(b, 0);
    es := WalkEntries(t, b[4..], n);
    WritesBack(b);
    Glue(b, 4, Walk(t, b[4..], n).value);
  }

  // ---------------------------------------------------------------- parts

  /** Which lengths a counted string may have, and the error for the others. */
  datatype Limit = NoLimit | PathLimit | BasenameLimit | SymbolLimit | ProviderLimit | ProbeLimit
  {
    predicate Allows(n: nat) {
      match this
      case NoLimit => true
      case PathLimit => n <= 256
      case BasenameLimit => 1 <= n <= 64
      case SymbolLimit => 1 <= n <= 256
      case ProviderLimit => 1 <= n <= 64
      case ProbeLimit => 1 <= n <= 256
    }

    function Error(n: nat): WireError {
      match this
      case NoLimit => Truncated
      case PathLimit => PathTooLong(n)
      case BasenameLimit => BasenameOutOfRange(n)
      case SymbolLimit => SymbolOutOfRange(n)
      case ProviderLimit => ProviderOutOfRange(n)
      case ProbeLimit => ProbeOutOfRange(n)
    }
  }

  datatype Part = Sized(limit: Limit) | Fixed(n: nat) | Rows(width: nat) | Entries(table: Table)

  function ReadPart(p: Part, b: seq<Byte>): (r: Result<Read<seq<Byte>>, WireError>)
    ensures r.Ok? ==> r.value.used <= |b| && (p.Fixed? ==> |r.value.value| == p.n)
  {
    match p
    case Fixed(n) => if |b| < n then Err(Truncated) else Ok(Read(b[..n], n))
    case Entries(t) => ReadTable(t, b)
    case Sized(limit) =>
      if |b| < 4 then Err(Truncated)
      else if !limit.Allows(U32At(b, 0)) then Err(limit.Error(U32At(b, 0)))
      else if |b| < 4 + U32At(b, 0) then Err(Truncated)
      else Ok(Read(b[4..4 + U32At(b, 0)], 4 + U32At(b, 0)))
    case Rows(w) =>
      if |b| < 4 then Err(Truncated)
      else
        var size := U32At(b, 0) * w;
        if |b| < 4 + size then Err(Truncated) else Ok(Read(b[4..4 + size], 4 + size))
  }

  function WritePart(p: Part, c: seq<Byte>): seq<Byte> {
    match p
    case Fixed(n) => c
    case Entries(t) => c
    case Sized(limit) => ToLe(|c|, 4) + c
    case Rows(w) => ToLe(if w == 0 then 0 else |c| / w, 4) + c
  }

  /** Contents the part can carry. */
  ghost predicate Carries(p: Part, c: seq<Byte>) {
    match p
    case Fixed(n) => |c| == n
    case Entries(t) => exists es :: AreEntries(t, es) && c == TableBytes(es)
    case Sized(limit) => |c| < 0x1_0000_0000 && limit.Allows(|c|)
    case Rows(w) => w > 0 && |c| % w == 0 && |c| / w < 0x1_0000_0000
  }

  lemma SizedReads(limit: Limit, c: seq<Byte>, b: seq<Byte>)
    requires Carries(Sized(limit), c) && Meets(b, WritePart(Sized(limit), c))
    ensures Reads(ReadPart(Sized(limit), b), c, 4 + |c|, |b|)
  {
    hide ToLe, U32At;
    MeetsSplit(b, ToLe(|c|, 4), c);
    if |b| >= 4 {
      ReadsU32(b, |c|);
      if 4 + |c| <= |b| {
        MeetsAll(b[4..], c);
        assert b[4..4 + |c|] == b[4..][..|c|];
      }
    }
  }

  lemma RowsRead(w: nat, c: seq<Byte>, b: seq<Byte>)
    requires Carries(Rows(w), c) && Meets(b, WritePart(Rows(w), c))
    ensures Reads(ReadPart(Rows(w), b), c, 4 + |c|, |b|)
  {
    hide ToLe, U32At;
    var n := |c| / w;
    assert n * w == |c|;
    MeetsSplit(b, ToLe(n, 4), c);
    if |b| >= 4 {
      ReadsU32(b, n);
      if 4 + |c| <= |b| {
        MeetsAll(b[4..], c);
        assert b[4..4 + |c|] == b[4..][..|c|];
      }
    }
  }

  lemma PartReads(p: Part, c: seq<Byte>, b: seq<Byte>)
    requires Carries(p, c) && Meets(b, WritePart(p, c))
    ensures Reads(ReadPart(p, b), c, |WritePart(p, c)|, |b|)
  {
    hide ToLe, ReadTable, TableBytes, AreEntries;
    match p
    case Fixed(n) =>
      if n <= |b| { MeetsAll(b, c); }
    case Entries(t) =>
      var es :| AreEntries(t, es) && c == TableBytes(es);
      TableReads(t, es, b);
    case Sized(limit) => SizedReads(limit, c, b);
    case Rows(w) => RowsRead(w, c, b);
  }

  // ---------------------------------------------------------------- sequences of parts

  ghost predicate Shaped(ps: seq<Part>, cs: seq<seq<Byte>>) {
    |ps| == |cs| && forall i :: 0 <= i < |ps| && ps[i].Fixed? ==> |cs[i]| == ps[i].n
  }

  function ReadParts(ps: seq<Part>, b: seq<Byte>): (r: Result<Read<seq<seq<Byte>>>, WireError>)
    ensures r.Ok? ==> r.value.used <= |b| && Shaped(ps, r.value.value)
  {
    if |ps| == 0 then Ok(Read([], 0))
    else
      match ReadPart(ps[0], b)
      case Err(e) => Err(e)
      case Ok(c) =>
        match ReadParts(ps[1..], b[c.used..])
        case Err(e) => Err(e)
        case Ok(cs) => Ok(Read([c.value] + cs.value, c.used + cs.used))
  }

  function WriteParts(ps: seq<Part>, cs: seq<seq<Byte>>): seq<Byte>
    requires |ps| == |cs|
  {
    if |ps| == 0 then [] else WritePart(ps[0], cs[0]) + WriteParts(ps[1..], cs[1..])
  }

  ghost predicate CarriesAll(ps: seq<Part>, cs: seq<seq<Byte>>) {
    |ps| == |cs| && forall i :: 0 <= i < |ps| ==> Carries(ps[i], cs[i])
  }

  lemma {:induction false} PartsRead(ps: seq<Part>, cs: seq<seq<Byte>>, b: seq<Byte>)
    requires CarriesAll(ps, cs) && Meets(b, WriteParts(ps, cs))
    ensures Reads(ReadParts(ps, b), cs, |WriteParts(ps, cs)|, |b|)
    decreases |ps|
  {
    hide Carries, ReadPart, WritePart;
    if |ps| > 0 {
      MeetsSplit(b, WritePart(ps[0], cs[0]), WriteParts(ps[1..], cs[1..]));
      PartReads(ps[0], cs[0], b);
      var n := |WritePart(ps[0], cs[0])|;
      if n <= |b| {
        PartsRead(ps[1..], cs[1..], b[n..]);
        assert [cs[0]] + cs[1..] == cs;
      }
    }
  }

  lemma {:induction false} PartsConcat(ps: seq<Part>, cs: seq<seq<Byte>>, qs: seq<Part>, ds: seq<seq<Byte>>)
    requires |ps| == |cs| && |qs| == |ds|
    ensures WriteParts(ps + qs, cs + ds) == WriteParts(ps, cs) + WriteParts(qs, ds)
    decreases |ps|
  {
    hide WritePart;
    if |ps| == 0 {
      assert ps + qs == qs && cs + ds == ds;
    } else {
      PartsConcat(ps[1..], cs[1..], qs, ds);
      assert (ps + qs)[1..] == ps[1..] + qs && (cs + ds)[1..] == cs[1..] + ds;
    }
  }

  /** The last piece of a table part is a well-formed table whatever the input was. */
  lemma {:induction false} ReadPartsTable(ps: seq<Part>, b: seq<Byte>, i: nat) returns (es: seq<seq<Byte>>)
    requires i < |ps| && ps[i].Entries? && ReadParts(ps, b).Ok?
    ensures AreEntries(ps[i].table, es) && ReadParts(ps, b).value.value[i] == TableBytes(es)
    decreases |ps|
  {
    hide ReadTable, TableBytes, AreEntries;
    var c := ReadPart(ps[0], b).value;
    if i == 0 {
      es := TableEntries(ps[0].table, b);
    } else {
      es := ReadPartsTable(ps[1..], b[c.used..], i - 1);
    }
  }
}
