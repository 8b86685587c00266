/** The program iterator: a cursor moves over the wrapper, one checked piece at a time. */
module Bfr7Reader {
  import opened Bytes
  import opened Wire
  import opened WireParts
  import opened Bfr7Spec
  import Modular

  /** Parts read so far, put before the outcome of reading the rest. */
  ghost function Resume(done: seq<seq<Byte>>, used: nat, rest: Result<Read<seq<seq<Byte>>>, WireError>)
    : Result<Read<seq<seq<Byte>>>, WireError>
  {
    if rest.Err? then rest else Ok(Read(done + rest.value.value, used + rest.value.used))
  }

  lemma ResumeStart(ps: seq<Part>, b: seq<Byte>)
    ensures Resume([], 0, ReadParts(ps, b)) == ReadParts(ps, b)
  {
    hide ReadParts;
    var r := ReadParts(ps, b);
    if r.Ok? { assert [] + r.value.value == r.value.value; }
  }

  lemma ResumeEnd(done: seq<seq<Byte>>, used: nat, b: seq<Byte>)
    ensures Resume(done, used, ReadParts([], b)) == Ok(Read(done, used))
  {
    assert done + [] == done;
  }

  lemma ReadCons(p: Part, ps: seq<Part>, b: seq<Byte>)
    ensures var c := ReadPart(p, b);
            ReadParts([p] + ps, b) ==
            if c.Err? then Err(c.error) else Resume([c.value.value], c.value.used, ReadParts(ps, b[c.value.used..]))
  {
    hide ReadPart;
    assert ([p] + ps)[1..] == ps;
  }

  lemma ResumeStep(done: seq<seq<Byte>>, used: nat, p: Part, ps: seq<Part>, b: seq<Byte>, at: nat)
    requires at <= |b|
    ensures var c := ReadPart(p, b[at..]);
            Resume(done, used, ReadParts([p] + ps, b[at..])) ==
            if c.Err? then Err(c.error)
            else Resume(done + [c.value.value], used + c.value.used, ReadParts(ps, b[at + c.value.used..]))
  {
    hide ReadPart, ReadParts;
    ReadCons(p, ps, b[at..]);
    var c := ReadPart(p, b[at..]);
    if c.Ok? {
      Glue(b, at, c.value.used);
      var rest := ReadParts(ps, b[at + c.value.used..]);
      if rest.Ok? {
        assert done + ([c.value.value] + rest.value.value) == done + [c.value.value] + rest.value.value;
      }
    }
  }

  /** `need`, a length word, its limit, `need` again. */
  method ReadSized(b: seq<Byte>, at: nat, limit: Limit) returns (r: Result<Read<seq<Byte>>, WireError>)
    requires at <= |b|
    ensures r == ReadPart(Sized(limit), b[at..])
  {
    hide U32At;
    if |b| < at + 4 {
      return Err(Truncated);
    }
    U32Tail(b, at);
    var len: nat := U32At(b, at);
    if !limit.Allows(len) {
      return Err(limit.Error(len));
    }
    if |b| < at + 4 + len {
      return Err(Truncated);
    }
    SliceTail(b, at, 4, 4 + len);
    return Ok(Read(b[at + 4..at + 4 + len], 4 + len));
  }

  method ReadRows(b: seq<Byte>, at: nat, width: nat) returns (r: Result<Read<seq<Byte>>, WireError>, count: nat)
    requires at <= |b| && width > 0
    ensures r == ReadPart(Rows(width), b[at..])
    ensures r.Ok? ==> count == |r.value.value| / width
  {
    hide U32At;
    count := 0;
    if |b| < at + 4 {
      return Err(Truncated), 0;
    }
    U32Tail(b, at);
    count := U32At(b, at);
    var size := count * width;
    if |b| < at + 4 + size {
      return Err(Truncated), 0;
    }
    SliceTail(b, at, 4, 4 + size);
    WholeRows(count, width);
    r := Ok(Read(b[at + 4..at + 4 + size], 4 + size));
  }

  lemma WholeRows(n: nat, w: nat)
    requires w > 0
    ensures n * w / w == n
  {
    Modular.Unique(n * w, n, 0, w);
  }

  lemma U32Tail(b: seq<Byte>, at: nat)
    requires at + 4 <= |b|
    ensures U32At(b, at) == U32At(b[at..], 0)
  {
    assert b[at..][0..4] == b[at..at + 4];
  }

  lemma SliceTail(b: seq<Byte>, at: nat, i: nat, j: nat)
    requires i <= j && at + j <= |b|
    ensures b[at..][i..j] == b[at + i..at + j]
  {
  }

  ghost function Further(done: nat, rest: Result<nat, WireError>): Result<nat, WireError> {
    if rest.Err? then rest else Ok(done + rest.value)
  }

  /** The name lengths an entry's header announces. */
  function Names(t: Table, b: seq<Byte>, at: nat): nat
    requires at + HeaderSize(t) <= |b|
  {
    if t.Kfuncs? then b[at + 4] as int else b[at + 6] as int + b[at + 7] as int
  }

  lemma EntrySizeAt(t: Table, b: seq<Byte>, at: nat)
    requires at + HeaderSize(t) <= |b|
    ensures EntrySize(t, b[at..]) == HeaderSize(t) + Names(t, b, at)
  {
  }

  lemma WalkStep(t: Table, b: seq<Byte>, at: nat, n: nat)
    requires at <= |b| && n > 0
    ensures |b| < at + HeaderSize(t) ==> Walk(t, b[at..], n) == Err(Truncated)
    ensures |b| >= at + HeaderSize(t) ==>
              var next := at + HeaderSize(t) + Names(t, b, at);
              Walk(t, b[at..], n) ==
              if |b| < next then Err(Truncated) else Further(next - at, Walk(t, b[next..], n - 1))
  {
    hide EntrySize, HeaderSize, Names;
    if |b| >= at + HeaderSize(t) {
      EntrySizeAt(t, b, at);
      var size := EntrySize(t, b[at..]);
      if at + size <= |b| {
        Glue(b, at, size);
      }
    }
  }

  lemma WalkEnd(t: Table, b: seq<Byte>)
    ensures Walk(t, b, 0) == Ok(0)
  {
  }

  /** Skips over a counted table and slices it verbatim, count included. */
  method ReadEntries(b: seq<Byte>, at: nat, t: Table) returns (r: Result<Read<seq<Byte>>, WireError>)
    requires at <= |b|
    ensures r == ReadTable(t, b[at..])
  {
    hide U32At, Walk;
    if |b| < at + 4 {
      return Err(Truncated);
    }
    U32Tail(b, at);
    var n := U32At(b, at);
    var cursor := at + 4;
    ghost var entries := b[at..][4..];
    Glue(b, at, 4);
    assert Walk(t, entries, n) == Further(0, Walk(t, b[cursor..], n));
    for i := 0 to n
      invariant at + 4 <= cursor <= |b|
      invariant Walk(t, entries, n) == Further(cursor - at - 4, Walk(t, b[cursor..], n - i))
    {
      WalkStep(t, b, cursor, n - i);
      if |b| < cursor + HeaderSize(t) {
        return Err(Truncated);
      }
      var size := HeaderSize(t) + Names(t, b, cursor);
      if |b| < cursor + size {
        return Err(Truncated);
      }
      cursor := cursor + size;
    }
    WalkEnd(t, b[cursor..]);
    SliceTail(b, at, 0, cursor - at);
    assert b[at..][..cursor - at] == b[at..][0..cursor - at];
    return Ok(Read(b[at..cursor], cursor - at));
  }

  /** The trailer of a probe type, or the error the decoder reports. */
  ghost function TrailerOutcome(ty: Byte, b: seq<Byte>): Result<Read<Trailer>, WireError> {
    match TrailerLayout(ty)
    case None => Err(BadProbeType(ty))
    case Some(layout) =>
      match ReadParts(layout, b)
      case Err(e) => Err(e)
      case Ok(cs) => Ok(Read(TrailerView(ty, cs.value), cs.used))
  }

  method ReadU64(b: seq<Byte>, at: nat) returns (r: Result<Read<seq<Byte>>, WireError>, v: U64)
    requires at <= |b|
    ensures r == ReadPart(Fixed(8), b[at..])
    ensures r.Ok? ==> r.value.used == 8 && at + 8 <= |b| && v == U64At(r.value.value, 0)
  {
    v := 0;
    if |b| < at + 8 {
      return Err(Truncated), 0;
    }
    SliceTail(b, at, 0, 8);
    assert b[at..][..8] == b[at..][0..8];
    assert b[at..at + 8][0..8] == b[at..at + 8];
    return Ok(Read(b[at..at + 8], 8)), U64At(b, at);
  }

  method ReadTrailer(b: seq<Byte>, at: nat, ty: Byte) returns (r: Result<Read<Trailer>, WireError>)
    requires at <= |b|
    ensures r == TrailerOutcome(ty, b[at..])
  {
    hide ReadPart, ReadParts, U64At, Resume;
    ResumeStart(if TrailerLayout(ty).Some? then TrailerLayout(ty).value else [], b[at..]);
    if ty == 2 || ty == 3 {
      var path := ReadSized(b, at, PathLimit);
      PathParts();
      ResumeStep([], 0, Sized(PathLimit), [Fixed(8)], b, at);
      if path.Err? { return Err(path.error); }
      var mid := at + path.value.used;
      var bytes, off := ReadU64(b, mid);
      ResumeStep([] + [path.value.value], path.value.used, Fixed(8), [], b, mid);
      if bytes.Err? { return Err(bytes.error); }
      ResumeEnd([] + [path.value.value] + [bytes.value.value], path.value.used + 8, b[mid + 8..]);
      return Ok(Read(Path(path.value.value, off), path.value.used + 8));
    } else if ty == 4 || ty == 5 {
      r := ReadSymbol(b, at, ty);
    } else if ty == 9 {
      r := ReadUsdt(b, at);
    } else if ty == 10 {
      var bytes, period := ReadU64(b, at);
      assert [Fixed(8)] + [] == [Fixed(8)];
      ResumeStep([], 0, Fixed(8), [], b, at);
      if bytes.Err? { return Err(bytes.error); }
      ResumeEnd([] + [bytes.value.value], 8, b[at + 8..]);
      return Ok(Read(ProfileTimer(period), 8));
    } else if ty == 0 || ty == 1 || ty == 6 || ty == 7 || ty == 8 {
      ResumeEnd([], 0, b[at..]);
      return Ok(Read(NoTrailer, 0));
    } else {
      return Err(BadProbeType(ty));
    }
  }

  lemma PathParts()
    ensures [Sized(PathLimit)] + [Fixed(8)] == [Sized(PathLimit), Fixed(8)] && [Fixed(8)] + [] == [Fixed(8)]
  {
  }

  method ReadSymbol(b: seq<Byte>, at: nat, ty: Byte) returns (r: Result<Read<Trailer>, WireError>)
    requires at <= |b| && (ty == 4 || ty == 5)
    ensures r == TrailerOutcome(ty, b[at..])
  {
    hide ReadPart, ReadParts, U64At, Resume;
    ghost var layout := [Sized(BasenameLimit), Sized(SymbolLimit)];
    ResumeStart(layout, b[at..]);
    assert layout == [Sized(BasenameLimit)] + [Sized(SymbolLimit)] && [Sized(SymbolLimit)] + [] == [Sized(SymbolLimit)];
    var bn := ReadSized(b, at, BasenameLimit);
    ResumeStep([], 0, Sized(BasenameLimit), [Sized(SymbolLimit)], b, at);
    if bn.Err? { return Err(bn.error); }
    var mid := at + bn.value.used;
    var sym := ReadSized(b, mid, SymbolLimit);
    ResumeStep([] + [bn.value.value], bn.value.used, Sized(SymbolLimit), [], b, mid);
    if sym.Err? { return Err(sym.error); }
    ResumeEnd([] + [bn.value.value] + [sym.value.value], bn.value.used + sym.value.used, b[mid + sym.value.used..]);
    return Ok(Read(Symbol(bn.value.value, sym.value.value), bn.value.used + sym.value.used));
  }

  method ReadUsdt(b: seq<Byte>, at: nat) returns (r: Result<Read<Trailer>, WireError>)
    requires at <= |b|
    ensures r == TrailerOutcome(9, b[at..])
  {
    hide ReadPart, ReadParts, U64At, Resume;
    ghost var layout := [Sized(BasenameLimit), Sized(ProviderLimit), Sized(ProbeLimit)];
    ResumeStart(layout, b[at..]);
    assert layout == [Sized(BasenameLimit)] + [Sized(ProviderLimit), Sized(ProbeLimit)];
    assert [Sized(ProviderLimit)] + [Sized(ProbeLimit)] == [Sized(ProviderLimit), Sized(ProbeLimit)];
    assert [Sized(ProbeLimit)] + [] == [Sized(ProbeLimit)];
    var bn := ReadSized(b, at, BasenameLimit);
    ResumeStep([], 0, Sized(BasenameLimit), [Sized(ProviderLimit), Sized(ProbeLimit)], b, at);
    if bn.Err? { return Err(bn.error); }
    var mid := at + bn.value.used;
    var prov := ReadSized(b, mid, ProviderLimit);
    ResumeStep([] + [bn.value.value], bn.value.used, Sized(ProviderLimit), [Sized(ProbeLimit)], b, mid);
    if prov.Err? { return Err(prov.error); }
    var end := mid + prov.value.used;
    var probe := ReadSized(b, end, ProbeLimit);
    ResumeStep([] + [bn.value.value] + [prov.value.value], bn.value.used + prov.value.used, Sized(ProbeLimit), [], b,
               end);
    if probe.Err? { return Err(probe.error); }
    var used := bn.value.used + prov.value.used + probe.value.used;
    ResumeEnd([] + [bn.value.value] + [prov.value.value] + [probe.value.value], used, b[end + probe.value.used..]);
    return Ok(Read(Usdt(bn.value.value, prov.value.value, probe.value.value), used));
  }

  /** The parts after the trailer, as one outcome. */
  ghost function BodyOutcome(name: seq<Byte>, flags: U32, trailer: Trailer, b: seq<Byte>): Result<Read<View>,
      WireError> {
    match ReadParts(BodyLayout(HasFieldRelocs(flags)), b)
    case Err(e) => Err(e)
    case Ok(cs) => Ok(Read(BodyView(name, flags, trailer, cs.value), cs.used))
  }

  method ReadBody(b: seq<Byte>, at: nat, name: seq<Byte>, flags: U32, trailer: Trailer)
    returns (r: Result<Read<View>, WireError>)
    requires at <= |b|
    ensures r == BodyOutcome(name, flags, trailer, b[at..])
  {
    hide ReadPart, ReadParts, Resume, HasFieldRelocs;
    ghost var tables := [Entries(Kfuncs)] + if HasFieldRelocs(flags) then [Entries(FieldRelocs)] else [];
    ghost var layout := BodyLayout(HasFieldRelocs(flags));
    assert layout == [Sized(NoLimit)] + ([Rows(52)] + ([Rows(8)] + tables));
    ResumeStart(layout, b[at..]);

    var schema := ReadSized(b, at, NoLimit);
    ResumeStep([], 0, Sized(NoLimit), [Rows(52)] + ([Rows(8)] + tables), b, at);
    if schema.Err? { return Err(schema.error); }
    var used := schema.value.used;

    var maps, numMaps := ReadRows(b, at + used, 52);
    ResumeStep([] + [schema.value.value], used, Rows(52), [Rows(8)] + tables, b, at + used);
    if maps.Err? { return Err(maps.error); }
    used := used + maps.value.used;

    var insns, numInsns := ReadRows(b, at + used, 8);
    ResumeStep([] + [schema.value.value] + [maps.value.value], used, Rows(8), tables, b, at + used);
    if insns.Err? { return Err(insns.error); }
    used := used + insns.value.used;

    ghost var done := [] + [schema.value.value] + [maps.value.value] + [insns.value.value];
    var kfuncs, fields, more := ReadTables(b, at + used, HasFieldRelocs(flags), done, used);
    if kfuncs.Err? { return Err(kfuncs.error); }
    if fields.Err? { return Err(fields.error); }
    return Ok(Read(
      View(name, flags, flags % 256, trailer, schema.value.value, numMaps, maps.value.value, numInsns,
           insns.value.value, kfuncs.value.value, fields.value.value),
      used + more));
  }

  /** The kernel-function table and, behind its flag, the field-relocation table. */
  method ReadTables(b: seq<Byte>, at: nat, flagged: bool, ghost done: seq<seq<Byte>>, ghost used: nat)
    returns (kfuncs: Result<Read<seq<Byte>>, WireError>, fields: Result<Read<seq<Byte>>, WireError>, more: nat)
    requires at <= |b|
    ensures var parts := [Entries(Kfuncs)] + if flagged then [Entries(FieldRelocs)] else [];
            Resume(done, used, ReadParts(parts, b[at..])) ==
            if kfuncs.Err? then Err(kfuncs.error)
            else if fields.Err? then Err(fields.error)
            else Ok(Read(done + [kfuncs.value.value] + (if flagged then [fields.value.value] else []), used + more))
    ensures fields.Ok? && !flagged ==> fields.value.value == []
  {
    hide ReadTable, ReadParts, Resume;
    ghost var rest := if flagged then [Entries(FieldRelocs)] else [];
    fields, more := Ok(Read([], 0)), 0;
    kfuncs := ReadEntries(b, at, Kfuncs);
    ResumeStep(done, used, Entries(Kfuncs), rest, b, at);
    if kfuncs.Err? {
      return;
    }
    more := kfuncs.value.used;
    ghost var soFar := done + [kfuncs.value.value];
    assert soFar + [] == soFar;
    if flagged {
      fields := ReadEntries(b, at + more, FieldRelocs);
      ResumeStep(soFar, used + more, Entries(FieldRelocs), [], b, at + more);
      assert [Entries(FieldRelocs)] + [] == [Entries(FieldRelocs)];
      if fields.Err? {
        return;
      }
      ResumeEnd(soFar + [fields.value.value], used + more + fields.value.used, b[at + more + fields.value.used..]);
      more := more + fields.value.used;
    } else {
      ResumeEnd(soFar, used + more, b[at + more..]);
    }
  }

  /** `decode_one_program`. */
  method DecodeOne(b: seq<Byte>, off: nat) returns (r: Result<Read<View>, WireError>)
    requires off <= |b|
    ensures r == DecodeProgram(b[off..])
  {
    hide ReadParts, U32At, TrailerLayout, TrailerView, BodyLayout, HasFieldRelocs, BodyView;
    if |b| < off + 36 {
      return Err(Truncated);
    }
    SliceTail(b, off, 0, 32);
    assert b[off..][..32] == b[off..][0..32];
    var name := b[off..off + 32];
    FlagsTail(b, off);
    var flags := U32At(b, off + 32);
    Glue(b, off, 36);
    var trailer := ReadTrailer(b, off + 36, flags % 256);
    if trailer.Err? {
      return Err(trailer.error);
    }
    var used := 36 + trailer.value.used;
    Glue(b, off, used);
    var body := ReadBody(b, off + used, name, flags, trailer.value.value);
    if body.Err? {
      return Err(body.error);
    }
    return Ok(Read(body.value.value, used + body.value.used));
  }

  lemma FlagsTail(b: seq<Byte>, off: nat)
    requires off + 36 <= |b|
    ensures U32At(b, off + 32) == U32At(b[off..], 32)
  {
    assert b[off..][32..36] == b[off + 32..off + 36];
  }

  class ProgramIter {
    const bytes: seq<Byte>
    var cursor: nat
    var remaining: nat
    var failed: bool

    ghost predicate Ok()
      reads this
    {
      cursor <= |bytes|
    }

    /** `decode_bfr7`: checks the header and starts after it. */
    static method Open(bytes: seq<Byte>) returns (r: Result<ProgramIter, WireError>)
      ensures r.Ok? ==> fresh(r.value) && r.value.Ok() && r.value.bytes == bytes && !r.value.failed
      ensures r.Ok? ==> DecodeWrapper(bytes) == Result.Ok(DecodePrograms(bytes, r.value.cursor, r.value.remaining))
      ensures r.Err? ==> DecodeWrapper(bytes) == Err(r.error)
    {
      if |bytes| < 8 {
        return Err(Truncated);
      }
      if bytes[..4] != MAGIC {
        return Err(UnsupportedMagic(bytes[..4]));
      }
      var it := new ProgramIter(bytes, U32At(bytes, 4));
      return Result.Ok(it);
    }

    constructor (bytes: seq<Byte>, remaining: nat)
      requires |bytes| >= 8
      ensures this.bytes == bytes && cursor == 8 && this.remaining == remaining && !failed && Ok()
    {
      this.bytes, this.cursor, this.remaining, this.failed := bytes, 8, remaining, false;
    }

    /** One step: a program advances the cursor; an error is reported once and stops the iterator for good. */
    method Next() returns (item: Option<Result<View, WireError>>)
      requires Ok()
      modifies this
      ensures Ok()
      ensures old(failed || remaining == 0) ==> item.None? && unchanged(this)
      ensures !old(failed || remaining == 0) ==>
                match DecodeProgram(bytes[old(cursor)..])
                case Ok(p) =>
                  && item == Some(Result.Ok(p.value)) && !failed
                  && cursor == old(cursor) + p.used && remaining == old(remaining) - 1
                case Err(e) => item == Some(Err(e)) && cursor == old(cursor) && remaining == old(remaining) && failed
    {
      if failed || remaining == 0 {
        return None;
      }
      var r := DecodeOne(bytes, cursor);
      match r {
        case Ok(p) =>
          cursor, remaining := cursor + p.used, remaining - 1;
          return Some(Result.Ok(p.value));
        case Err(e) =>
          failed := true;
          return Some(Err(e));
      }
    }

    /** Draining a fresh iterator yields exactly what the wrapper decodes to. */
    method DrainAll() returns (run: Run)
      requires Ok() && !failed
      modifies this
      ensures run == DecodePrograms(bytes, old(cursor), old(remaining))
      ensures Ok() && cursor == run.cursor && (failed <==> run.error.Some?)
    {
      hide DecodeProgram;
      var out: seq<View> := [];
      ghost var all := DecodePrograms(bytes, cursor, remaining);
      assert [] + all.programs == all.programs;
      while true
        invariant Ok() && !failed
        invariant var d := DecodePrograms(bytes, cursor, remaining);
                  Run(out + d.programs, d.cursor, d.error) == DecodePrograms(bytes, old(cursor), old(remaining))
        decreases remaining
      {
        var item := Next();
        match item {
          case None => return Run(out, cursor, None);
          case Some(Err(e)) => return Run(out, cursor, Some(e));
          case Some(Ok(p)) =>
            ghost var rest := DecodePrograms(bytes, cursor, remaining).programs;
            assert out + ([p] + rest) == out + [p] + rest;
            out := out + [p];
        }
      }
    }
  }
}
