/** The wrapper builder: programs are appended to a sink piece by piece. */
module Bfr7Writer {
  import opened Bytes
  import opened WireParts
  import opened Bfr7Spec
  import FieldReloc

  lemma WriteCons(p: Part, c: seq<Byte>, ps: seq<Part>, cs: seq<seq<Byte>>)
    requires |ps| == |cs|
    ensures WriteParts([p] + ps, [c] + cs) == WritePart(p, c) + WriteParts(ps, cs)
  {
    hide WritePart;
    assert ([p] + ps)[1..] == ps && ([c] + cs)[1..] == cs;
  }

  lemma WriteOne(p: Part, c: seq<Byte>)
    ensures WriteParts([p], [c]) == WritePart(p, c)
  {
    hide WritePart;
    assert WriteParts([p][1..], [c][1..]) == [];
  }

  lemma WriteTwo(p: Part, c: seq<Byte>, q: Part, d: seq<Byte>)
    ensures WriteParts([p, q], [c, d]) == WritePart(p, c) + WritePart(q, d)
  {
    hide WritePart, WriteParts;
    WriteCons(p, c, [q], [d]);
    WriteOne(q, d);
    assert [p] + [q] == [p, q] && [c] + [d] == [c, d];
  }

  lemma WriteThree(p: Part, c: seq<Byte>, q: Part, d: seq<Byte>, r: Part, e: seq<Byte>)
    ensures WriteParts([p, q, r], [c, d, e]) == WritePart(p, c) + (WritePart(q, d) + WritePart(r, e))
  {
    hide WritePart, WriteParts;
    WriteCons(p, c, [q, r], [d, e]);
    WriteTwo(q, d, r, e);
    assert [p] + [q, r] == [p, q, r] && [c] + [d, e] == [c, d, e];
  }

  /** Checks the trailer's lengths, then writes its pieces. */
  method WriteTrailer(t: Trailer) returns (out: seq<Byte>, err: Option<WireError>)
    ensures err == TrailerError(t)
    ensures err.None? ==> out == WriteParts(TrailerParts(t), TrailerContents(t))
  {
    hide ToLe;
    out, err := [], None;
    match t {
      case NoTrailer =>
      case Path(path, off) =>
        if |path| > 256 {
          return [], Some(PathTooLong(|path| % 0x1_0000_0000));
        }
        WriteTwo(Sized(PathLimit), path, Fixed(8), ToLe(off, 8));
        out := ToLe(|path|, 4) + path + ToLe(off, 8);
      case Symbol(bn, sym) =>
        if |bn| == 0 || |bn| > 64 {
          return [], Some(BasenameOutOfRange(|bn| % 0x1_0000_0000));
        }
        if |sym| == 0 || |sym| > 256 {
          return [], Some(SymbolOutOfRange(|sym| % 0x1_0000_0000));
        }
        WriteTwo(Sized(BasenameLimit), bn, Sized(SymbolLimit), sym);
        out := (ToLe(|bn|, 4) + bn) + (ToLe(|sym|, 4) + sym);
      case Usdt(bn, prov, probe) =>
        if |bn| == 0 || |bn| > 64 {
          return [], Some(BasenameOutOfRange(|bn| % 0x1_0000_0000));
        }
        if |prov| == 0 || |prov| > 64 {
          return [], Some(ProviderOutOfRange(|prov| % 0x1_0000_0000));
        }
        if |probe| == 0 || |probe| > 256 {
          return [], Some(ProbeOutOfRange(|probe| % 0x1_0000_0000));
        }
        WriteThree(Sized(BasenameLimit), bn, Sized(ProviderLimit), prov, Sized(ProbeLimit), probe);
        out := (ToLe(|bn|, 4) + bn) + ((ToLe(|prov|, 4) + prov) + (ToLe(|probe|, 4) + probe));
      case ProfileTimer(period) =>
        WriteOne(Fixed(8), ToLe(period, 8));
        out := ToLe(period, 8);
    }
  }

  method WriteMaps(ms: seq<MapSpec>) returns (out: seq<Byte>)
    ensures out == MapsBytes(ms)
  {
    hide ToLe, MapBytes;
    out := [];
    for i := 0 to |ms|
      invariant out == MapsBytes(ms[..i])
    {
      assert ms[..i + 1][..i] == ms[..i];
      out := out + MapBytes(ms[i]);
    }
    assert ms[..|ms|] == ms;
  }

  lemma {:induction false} KfuncErrorFirst(ks: seq<Kfunc>, i: nat)
    requires i < |ks| && !KfuncFits(ks[i]) && forall k :: k in ks[..i] ==> KfuncFits(k)
    ensures KfuncError(ks) == Some(KfuncNameOutOfRange(|ks[i].name|))
    decreases i
  {
    if i > 0 {
      assert ks[0] in ks[..i];
      assert ks[1..][..i - 1] == ks[1..i];
      assert forall k :: k in ks[1..i] ==> k in ks[..i];
      KfuncErrorFirst(ks[1..], i - 1);
    }
  }

  lemma {:induction false} KfuncErrorIff(ks: seq<Kfunc>)
    ensures KfuncError(ks).None? <==> forall k :: k in ks ==> KfuncFits(k)
    decreases |ks|
  {
    if |ks| > 0 {
      KfuncErrorIff(ks[1..]);
      assert ks == [ks[0]] + ks[1..];
    }
  }

  /** The encoder's error is absent exactly for encodable programs. */
  lemma EncodeErrorIff(p: ProgramSpec)
    ensures EncodeError(p).None? <==> Encodable(p)
  {
    hide TrailerError, KfuncError, FieldReloc.Accepted, KfuncFits;
    KfuncErrorIff(p.kfuncs);
  }

  method WriteKfuncs(ks: seq<Kfunc>) returns (out: seq<Byte>, err: Option<WireError>)
    ensures err == KfuncError(ks)
    ensures err.None? ==> (forall k :: k in ks ==> KfuncFits(k)) && out == TableBytes(KfuncEntries(ks))
  {
    hide ToLe, Flatten, KfuncError;
    KfuncErrorIff(ks);
    out := ToLe(|ks|, 4);
    ghost var head := out;
    FieldReloc.FlattenNothing();
    for i := 0 to |ks|
      invariant forall k :: k in ks[..i] ==> KfuncFits(k)
      invariant out == head + Flatten(KfuncEntries(ks[..i]))
    {
      var k := ks[i];
      if |k.name| == 0 || |k.name| > 255 {
        KfuncErrorFirst(ks, i);
        return out, Some(KfuncNameOutOfRange(|k.name|));
      }
      assert ks[..i + 1] == ks[..i] + [k];
      FieldReloc.FlattenSnoc(KfuncEntries(ks[..i]), KfuncEntry(k));
      assert KfuncEntries(ks[..i + 1]) == KfuncEntries(ks[..i]) + [KfuncEntry(k)];
      ghost var sofar := Flatten(KfuncEntries(ks[..i]));
      assert head + (sofar + KfuncEntry(k)) == head + sofar + KfuncEntry(k);
      out := out + (ToLe(k.insn, 4) + ([|k.name|] + k.name));
    }
    assert ks[..|ks|] == ks;
    err := None;
  }

  lemma BodyWritten(p: ProgramSpec)
    requires Encodable(p)
    ensures WriteParts(BodyLayout(p.relocs != []), BodyContents(p)) ==
      ToLe(|p.schema|, 4) + p.schema + (ToLe(|p.maps|, 4) + MapsBytes(p.maps)) + (ToLe(|p.insns| / 8, 4) + p.insns)
      + TableBytes(KfuncEntries(p.kfuncs))
      + (if p.relocs != [] then TableBytes(FieldReloc.AllEntries(p.relocs)) else [])
  {
    hide ToLe, MapsBytes, TableBytes, WriteParts;
    var maps, kfuncs := MapsBytes(p.maps), TableBytes(KfuncEntries(p.kfuncs));
    assert |maps| / 52 == |p.maps|;
    var ps, cs := [Sized(NoLimit), Rows(52), Rows(8)], [p.schema, maps, p.insns];
    WriteThree(Sized(NoLimit), p.schema, Rows(52), maps, Rows(8), p.insns);
    if p.relocs != [] {
      var fields := TableBytes(FieldReloc.AllEntries(p.relocs));
      WriteTwo(Entries(Kfuncs), kfuncs, Entries(FieldRelocs), fields);
      PartsConcat(ps, cs, [Entries(Kfuncs), Entries(FieldRelocs)], [kfuncs, fields]);
      assert ps + [Entries(Kfuncs), Entries(FieldRelocs)] == BodyLayout(true);
      assert cs + [kfuncs, fields] == BodyContents(p);
    } else {
      WriteOne(Entries(Kfuncs), kfuncs);
      PartsConcat(ps, cs, [Entries(Kfuncs)], [kfuncs]);
      assert ps + [Entries(Kfuncs)] == BodyLayout(false);
      assert cs + [kfuncs] == BodyContents(p);
    }
  }

  class WrapperBuilder {
    var sink: seq<Byte>

    /** The header is written at once. */
    constructor (sink: seq<Byte>, numProgs: U32)
      ensures this.sink == sink + EncodeHeader(numProgs)
    {
      this.sink := sink + EncodeHeader(numProgs);
    }

    /** Appends one program, or reports its first fault after appending a part of it. */
    method PushProgram(p: ProgramSpec) returns (err: Option<WireError>)
      modifies this
      ensures err == EncodeError(p) && (err.None? <==> Encodable(p))
      ensures Encodable(p) ==> sink == old(sink) + EncodeProgram(p)
      ensures old(sink) <= sink
    {
      hide ToLe, TrailerError, KfuncError, MapsBytes, TableBytes, WriteParts, Name32, KfuncFits, FieldReloc.Accepted,
           BodyContents, BodyLayout;
      EncodeErrorIff(p);
      ghost var start := sink;
      sink := sink + Name32(p.name) + ToLe(Flags(p), 4);
      var trailer, e := WriteTrailer(p.trailer);
      sink := sink + trailer;
      if e.Some? {
        return e;
      }
      ghost var atBody := sink;
      sink := sink + (ToLe(|p.schema|, 4) + p.schema);
      var maps := WriteMaps(p.maps);
      sink := sink + (ToLe(|p.maps|, 4) + maps);
      sink := sink + (ToLe(|p.insns| / 8, 4) + p.insns);
      var kfuncs, e2 := WriteKfuncs(p.kfuncs);
      sink := sink + kfuncs;
      if e2.Some? {
        return e2;
      }
      if p.relocs != [] {
        var before := sink;
        var ok;
        sink, ok := FieldReloc.Write(sink, p.relocs);
        if !ok {
          return Some(Truncated);
        }
      }
      BodyWritten(p);
      Assembled(start, p, trailer, atBody, sink);
      return None;
    }
  }

  lemma Assembled(start: seq<Byte>, p: ProgramSpec, trailer: seq<Byte>, atBody: seq<Byte>, end: seq<Byte>)
    requires Encodable(p) && trailer == WriteParts(TrailerParts(p.trailer), TrailerContents(p.trailer))
    requires atBody == start + Name32(p.name) + ToLe(Flags(p), 4) + trailer
    requires end == atBody + (ToLe(|p.schema|, 4) + p.schema) + (ToLe(|p.maps|, 4) + MapsBytes(p.maps))
                    + (ToLe(|p.insns| / 8, 4) + p.insns) + TableBytes(KfuncEntries(p.kfuncs))
                    + (if p.relocs != [] then TableBytes(FieldReloc.AllEntries(p.relocs)) else [])
    ensures end == start + EncodeProgram(p) && start <= end
  {
    hide ToLe, MapsBytes, TableBytes, WriteParts, Name32, BodyLayout, BodyContents, Encodable, TrailerParts,
         TrailerContents;
    BodyWritten(p);
    var body := WriteParts(BodyLayout(p.relocs != []), BodyContents(p));
    assert end == atBody + body;
    assert start + (Name32(p.name) + (ToLe(Flags(p), 4) + (trailer + body)))
        == start + Name32(p.name) + ToLe(Flags(p), 4) + trailer + body;
  }
}
