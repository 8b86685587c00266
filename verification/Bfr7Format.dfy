/** The BFR7 format on bytes: which trailers belong to which probe types, which lengths are allowed, what is where. */
module Bfr7Format {
  import opened Bytes
  import opened Wire
  import opened WireParts
  import opened Bfr7Spec
  import opened Bfr7Codec
  import Bfr7Writer
  import FieldReloc
  import Modular

  /** The probe type and the trailer go together. */
  predicate TypeFits(ty: int, t: Trailer) {
    match t
    case NoTrailer => ty in {0, 1, 6, 7, 8}
    case Path(_, _) => ty in {2, 3}
    case Symbol(_, _) => ty in {4, 5}
    case Usdt(_, _, _) => ty == 9
    case ProfileTimer(_) => ty == 10
  }

  /** The strings of a trailer are as long as the format allows. */
  predicate TrailerInRange(t: Trailer) {
    match t
    case NoTrailer => true
    case Path(path, _) => |path| <= 256
    case Symbol(bn, sym) => 1 <= |bn| <= 64 && 1 <= |sym| <= 256
    case Usdt(bn, prov, probe) => 1 <= |bn| <= 64 && 1 <= |prov| <= 64 && 1 <= |probe| <= 256
    case ProfileTimer(_) => true
  }

  ghost predicate InRange(p: ProgramSpec) {
    && TrailerInRange(p.trailer)
    && (forall k :: k in p.kfuncs ==> 1 <= |k.name| <= 255)
    && (forall r :: r in p.relocs ==> 1 <= |r.structName| <= 255 && 1 <= |r.fieldName| <= 255)
  }

  /** The encoder accepts a program exactly when its strings are in range. */
  lemma EncodableIffInRange(p: ProgramSpec)
    ensures Encodable(p) <==> InRange(p)
  {
    assert forall k: Kfunc :: KfuncFits(k) <==> 1 <= |k.name| <= 255;
    assert forall r: FieldReloc.Reloc ::
        FieldReloc.Accepted(r) <==> 1 <= |r.structName| <= 255 && 1 <= |r.fieldName| <= 255;
  }

  lemma LayoutFits(ty: Byte, t: Trailer)
    ensures TrailerLayout(ty) == Some(TrailerParts(t)) <==> TypeFits(ty, t)
  {
  }

  /** The encoding, read from any bytes that follow it, gives the program back. */
  ghost predicate ComesBack(p: ProgramSpec, rest: seq<Byte>)
    requires Encodable(p)
  {
    DecodeProgram(EncodeProgram(p) + rest) == Ok(Read(Expected(p), |EncodeProgram(p)|))
  }

  /**
   * A program with strings in range comes back from encoding and decoding exactly when its trailer belongs to its
   * probe type, its instructions are whole, and its counts and lengths fit 32 bits.
   */
  lemma ComesBackIff(p: ProgramSpec, rest: seq<Byte>)
    requires InRange(p)
    ensures Encodable(p)
    ensures ComesBack(p, rest) <==>
            && TypeFits(p.probeType, p.trailer) && |p.insns| % 8 == 0
            && |p.schema| < 0x1_0000_0000 && |p.maps| < 0x1_0000_0000 && |p.insns| / 8 < 0x1_0000_0000
            && |p.kfuncs| < 0x1_0000_0000 && |p.relocs| < 0x1_0000_0000
  {
    hide EncodeProgram, DecodeProgram, Expected, Encodable, InRange, TypeFits, TrailerLayout, TrailerParts;
    EncodableIffInRange(p);
    SurvivesIff(p, rest);
    LayoutFits(p.probeType, p.trailer);
  }

  /** What comes back: the name cut and padded, the flags word, everything else as it was. */
  lemma ComesBackAs(p: ProgramSpec)
    requires Encodable(p)
    ensures var v := Expected(p);
            && |v.name| == 32
            && (forall i :: 0 <= i < 32 ==> v.name[i] == if i < 31 && i < |p.name| then p.name[i] else 0)
            && v.flags == p.probeType + (if p.relocs == [] then 0 else 256) && v.probeType == p.probeType
            && v.trailer == p.trailer && v.schema == p.schema && v.insns == p.insns && v.numInsns == |p.insns| / 8
            && v.numMaps == |p.maps| && v.maps == MapsBytes(p.maps) && v.kfuncs == TableBytes(KfuncEntries(p.kfuncs))
            && v.fields == if p.relocs == [] then [] else TableBytes(FieldReloc.AllEntries(p.relocs))
  {
    hide MapsBytes, TableBytes;
  }

  // ---------------------------------------------------------------- what the decoder refuses

  /** The first part that cannot be read decides the error: the input ends, or a length is out of its range. */
  lemma {:induction false} PartsFail(ps: seq<Part>, b: seq<Byte>) returns (i: nat, n: nat)
    requires ReadParts(ps, b).Err?
    ensures var e := ReadParts(ps, b).error;
            e == Truncated || (i < |ps| && ps[i].Sized? && e == ps[i].limit.Error(n) && !ps[i].limit.Allows(n))
    decreases |ps|
  {
    hide U32At, Walk;
    if ReadPart(ps[0], b).Err? {
      i := 0;
      n := if |b| >= 4 then U32At(b, 0) else 0;
      TableFails(ps[0], b);
    } else {
      i, n := PartsFail(ps[1..], b[ReadPart(ps[0], b).value.used..]);
      i := i + 1;
    }
  }

  lemma TableFails(p: Part, b: seq<Byte>)
    ensures p.Entries? && ReadPart(p, b).Err? ==> ReadPart(p, b).error == Truncated
  {
    hide U32At, Walk;
    if p.Entries? && |b| >= 4 {
      WalkFails(p.table, b[4..], U32At(b, 0));
    }
  }

  lemma {:induction false} WalkFails(t: Table, b: seq<Byte>, n: nat)
    ensures Walk(t, b, n).Err? ==> Walk(t, b, n).error == Truncated
    decreases n
  {
    hide EntrySize;
    if n > 0 && |b| >= HeaderSize(t) && |b| >= EntrySize(t, b) {
      WalkFails(t, b[EntrySize(t, b)..], n - 1);
    }
  }

  /** What an error of the decoder says about the input. */
  ghost predicate ErrorMeans(e: WireError, ty: int) {
    match e
    case Truncated => true
    case BadProbeType(t) => t == ty && ty > 10
    case PathTooLong(n) => ty in {2, 3} && n > 256
    case BasenameOutOfRange(n) => ty in {4, 5, 9} && (n == 0 || n > 64)
    case SymbolOutOfRange(n) => ty in {4, 5} && (n == 0 || n > 256)
    case ProviderOutOfRange(n) => ty == 9 && (n == 0 || n > 64)
    case ProbeOutOfRange(n) => ty == 9 && (n == 0 || n > 256)
    case KfuncNameOutOfRange(_) => false
    case UnsupportedMagic(_) => false
  }

  lemma TrailerFailMeans(ty: Byte, i: nat, n: nat)
    requires TrailerLayout(ty).Some?
    requires var ps := TrailerLayout(ty).value; i < |ps| && ps[i].Sized? && !ps[i].limit.Allows(n)
    ensures ErrorMeans(TrailerLayout(ty).value[i].limit.Error(n), ty)
  {
  }

  lemma BodyFailMeans(flagged: bool, i: nat, n: nat)
    requires var ps := BodyLayout(flagged); i < |ps| && ps[i].Sized?
    ensures BodyLayout(flagged)[i].limit.Allows(n)
  {
  }

  lemma TypeByte(b: seq<Byte>)
    requires |b| >= 36
    ensures U32At(b, 32) % 256 == b[32]
  {
    hide FromLe;
    var s := b[32..36];
    FromLeStep(s);
    Modular.Unique(U32At(b, 32), FromLe(s[1..]), s[0], 256);
  }

  /**
   * Every error of the program decoder names its cause; in particular a program is refused for its probe type exactly
   * when the type is above ten, whatever follows.
   */
  lemma DecodeErrorMeans(b: seq<Byte>)
    ensures var r := DecodeProgram(b); r.Err? && r.error != Truncated ==> |b| >= 36 && ErrorMeans(r.error, b[32])
    ensures |b| >= 36 && b[32] > 10 ==> DecodeProgram(b) == Err(BadProbeType(b[32]))
  {
    hide ReadParts, U32At, TrailerView, BodyView, HasFieldRelocs, TrailerLayout, BodyLayout;
    if |b| >= 36 {
      TypeByte(b);
      var flags := U32At(b, 32);
      var ty: Byte := b[32];
      LayoutKnown(ty);
      if TrailerLayout(ty).Some? {
        var layout := TrailerLayout(ty).value;
        var t := ReadParts(layout, b[36..]);
        if t.Err? {
          var i, n := PartsFail(layout, b[36..]);
          if t.error != Truncated { TrailerFailMeans(ty, i, n); }
        } else {
          var body, rest := BodyLayout(HasFieldRelocs(flags)), b[36 + t.value.used..];
          if ReadParts(body, rest).Err? {
            var i, n := PartsFail(body, rest);
            if ReadParts(body, rest).error != Truncated { BodyFailMeans(HasFieldRelocs(flags), i, n); }
          }
        }
      }
    }
  }

  lemma LayoutKnown(ty: Byte)
    ensures TrailerLayout(ty).Some? <==> ty <= 10
  {
  }

  /** What was decoded has the trailer of its type, with strings in range, and whole instructions. */
  lemma DecodedInRange(b: seq<Byte>)
    requires DecodeProgram(b).Ok?
    ensures var v := DecodeProgram(b).value.value;
            && |b| >= 36 && v.name == b[..32] && v.probeType == b[32]
            && TypeFits(v.probeType, v.trailer) && TrailerInRange(v.trailer) && v.numInsns * 8 == |v.insns|
  {
    hide ReadParts, U32At, U64At, BodyLayout, TrailerLayout, TrailerView, HasFieldRelocs;
    DecodedIsConsistent(b);
    TypeByte(b);
    var v := DecodeProgram(b).value.value;
    LayoutFits(v.probeType, v.trailer);
    TrailerReadInRange(v.probeType, b[36..]);
  }

  lemma {:induction false} PartsAllowed(ps: seq<Part>, b: seq<Byte>, i: nat)
    requires i < |ps| && ReadParts(ps, b).Ok? && ps[i].Sized?
    ensures ps[i].limit.Allows(|ReadParts(ps, b).value.value[i]|)
    decreases |ps|
  {
    hide U32At, ReadTable;
    if i > 0 {
      PartsAllowed(ps[1..], b[ReadPart(ps[0], b).value.used..], i - 1);
    }
  }

  lemma TrailerReadInRange(ty: Byte, b: seq<Byte>)
    requires TrailerLayout(ty).Some? && ReadParts(TrailerLayout(ty).value, b).Ok?
    ensures TrailerInRange(TrailerView(ty, ReadParts(TrailerLayout(ty).value, b).value.value))
  {
    hide ReadParts, U64At;
    var ps := TrailerLayout(ty).value;
    forall i | 0 <= i < |ps| && ps[i].Sized?
      ensures ps[i].limit.Allows(|ReadParts(ps, b).value.value[i]|)
    {
      PartsAllowed(ps, b, i);
    }
  }

  // ---------------------------------------------------------------- what is where

  function Prefixed(s: seq<Byte>): seq<Byte> {
    ToLe(|s|, 4) + s
  }

  /** The bytes of a trailer: strings behind their lengths, numbers as eight bytes. */
  function TrailerWire(t: Trailer): seq<Byte> {
    match t
    case NoTrailer => []
    case Path(path, off) => Prefixed(path) + ToLe(off, 8)
    case Symbol(bn, sym) => Prefixed(bn) + Prefixed(sym)
    case Usdt(bn, prov, probe) => Prefixed(bn) + (Prefixed(prov) + Prefixed(probe))
    case ProfileTimer(period) => ToLe(period, 8)
  }

  lemma TrailerOnWire(t: Trailer)
    ensures WriteParts(TrailerParts(t), TrailerContents(t)) == TrailerWire(t)
  {
    hide ToLe, WriteParts;
    match t
    case NoTrailer => WriteNothing();
    case Path(path, off) => Bfr7Writer.WriteTwo(Sized(PathLimit), path, Fixed(8), ToLe(off, 8));
    case Symbol(bn, sym) => Bfr7Writer.WriteTwo(Sized(BasenameLimit), bn, Sized(SymbolLimit), sym);
    case Usdt(bn, prov, probe) =>
      Bfr7Writer.WriteThree(Sized(BasenameLimit), bn, Sized(ProviderLimit), prov, Sized(ProbeLimit), probe);
    case ProfileTimer(period) => Bfr7Writer.WriteOne(Fixed(8), ToLe(period, 8));
  }

  lemma WriteNothing()
    ensures WriteParts([], []) == []
  {
  }

  /**
   * A program on the wire: 32 name bytes, the flags word, the trailer, then schema, maps, instructions, kernel
   * functions and, if there are any, field relocations, each behind its length or count.
   */
  lemma ProgramLayout(p: ProgramSpec)
    requires Encodable(p)
    ensures EncodeProgram(p) ==
            Name32(p.name) + (ToLe(p.probeType + (if p.relocs == [] then 0 else 256), 4) + (TrailerWire(p.trailer) + (
            ToLe(|p.schema|, 4) + p.schema + (ToLe(|p.maps|, 4) + MapsBytes(p.maps))
            + (ToLe(|p.insns| / 8, 4) + p.insns) + (ToLe(|p.kfuncs|, 4) + Flatten(KfuncEntries(p.kfuncs)))
            + if p.relocs == [] then [] else ToLe(|p.relocs|, 4) + Flatten(FieldReloc.AllEntries(p.relocs)))))
  {
    hide ToLe, MapsBytes, WriteParts, BodyLayout, BodyContents, TrailerParts, TrailerContents, TrailerWire, Flatten,
         Name32, Encodable;
    EncodableTables(p);
    TrailerOnWire(p.trailer);
    Bfr7Writer.BodyWritten(p);
  }

  lemma EncodableTables(p: ProgramSpec)
    requires Encodable(p)
    ensures (forall k :: k in p.kfuncs ==> KfuncFits(k)) && (forall r :: r in p.relocs ==> FieldReloc.Accepted(r))
  {
  }

  lemma PartRewrites(p: Part, b: seq<Byte>)
    requires ReadPart(p, b).Ok? && (p.Rows? ==> p.width > 0)
    ensures WritePart(p, ReadPart(p, b).value.value) == b[..ReadPart(p, b).value.used]
  {
    hide ToLe, U32At, Walk;
    match p
    case Sized(limit) =>
      WritesBack(b);
      Glue(b, 4, U32At(b, 0));
      assert b[4..][..U32At(b, 0)] == b[4..4 + U32At(b, 0)];
    case Rows(w) =>
      WritesBack(b);
      Multiple(U32At(b, 0), w);
      Glue(b, 4, U32At(b, 0) * w);
      assert b[4..][..U32At(b, 0) * w] == b[4..4 + U32At(b, 0) * w];
    case _ =>
  }

  lemma {:induction false} PartsRewrite(ps: seq<Part>, b: seq<Byte>)
    requires ReadParts(ps, b).Ok? && forall p :: p in ps && p.Rows? ==> p.width > 0
    ensures WriteParts(ps, ReadParts(ps, b).value.value) == b[..ReadParts(ps, b).value.used]
    decreases |ps|
  {
    hide ReadPart, WritePart;
    if |ps| > 0 {
      PartRewrites(ps[0], b);
      var c := ReadPart(ps[0], b).value;
      PartsRewrite(ps[1..], b[c.used..]);
      var rest := ReadParts(ps[1..], b[c.used..]).value;
      assert ([c.value] + rest.value)[1..] == rest.value;
      Glue(b, c.used, rest.used);
    }
  }

  /** The bytes behind the trailer, from what the decoder hands out. */
  function BodyWire(v: View): seq<Byte> {
    Prefixed(v.schema) + (ToLe(v.numMaps, 4) + v.maps) + (ToLe(v.numInsns, 4) + v.insns) + v.kfuncs + v.fields
  }

  lemma BodyRewrites(name: seq<Byte>, flags: U32, t: Trailer, b: seq<Byte>)
    requires ReadParts(BodyLayout(HasFieldRelocs(flags)), b).Ok?
    ensures var r := ReadParts(BodyLayout(HasFieldRelocs(flags)), b).value;
            BodyWire(BodyView(name, flags, t, r.value)) == b[..r.used]
  {
    hide ToLe, ReadParts, WriteParts, HasFieldRelocs;
    var layout := BodyLayout(HasFieldRelocs(flags));
    PartsRewrite(layout, b);
    BodyParts(HasFieldRelocs(flags), ReadParts(layout, b).value.value);
  }

  lemma BodyParts(flagged: bool, cs: seq<seq<Byte>>)
    requires |cs| == |BodyLayout(flagged)|
    ensures WriteParts(BodyLayout(flagged), cs) ==
            Prefixed(cs[0]) + (ToLe(|cs[1]| / 52, 4) + cs[1]) + (ToLe(|cs[2]| / 8, 4) + cs[2]) + cs[3]
            + if flagged then cs[4] else []
  {
    hide ToLe, WriteParts, WritePart, Prefixed;
    var ps, head := [Sized(NoLimit), Rows(52), Rows(8)], [cs[0], cs[1], cs[2]];
    HeadParts(cs[0], cs[1], cs[2]);
    TailParts(flagged, cs[3..]);
    var qs := [Entries(Kfuncs)] + if flagged then [Entries(FieldRelocs)] else [];
    PartsConcat(ps, head, qs, cs[3..]);
    assert ps + qs == BodyLayout(flagged) && head + cs[3..] == cs;
    var x, y := WriteParts(ps, head), if flagged then cs[4] else [];
    assert x + (cs[3] + y) == x + cs[3] + y;
  }

  lemma HeadParts(schema: seq<Byte>, maps: seq<Byte>, insns: seq<Byte>)
    ensures WriteParts([Sized(NoLimit), Rows(52), Rows(8)], [schema, maps, insns]) ==
            Prefixed(schema) + (ToLe(|maps| / 52, 4) + maps) + (ToLe(|insns| / 8, 4) + insns)
  {
    hide ToLe, WriteParts;
    Bfr7Writer.WriteThree(Sized(NoLimit), schema, Rows(52), maps, Rows(8), insns);
    var x, y, z := Prefixed(schema), ToLe(|maps| / 52, 4) + maps, ToLe(|insns| / 8, 4) + insns;
    assert x + (y + z) == x + y + z;
  }

  lemma TailParts(flagged: bool, cs: seq<seq<Byte>>)
    requires |cs| == if flagged then 2 else 1
    ensures WriteParts([Entries(Kfuncs)] + (if flagged then [Entries(FieldRelocs)] else []), cs) ==
            cs[0] + if flagged then cs[1] else []
  {
    hide ToLe, WriteParts;
    if flagged {
      Bfr7Writer.WriteTwo(Entries(Kfuncs), cs[0], Entries(FieldRelocs), cs[1]);
      assert [Entries(Kfuncs)] + [Entries(FieldRelocs)] == [Entries(Kfuncs), Entries(FieldRelocs)];
      assert cs == [cs[0], cs[1]];
    } else {
      Bfr7Writer.WriteOne(Entries(Kfuncs), cs[0]);
      assert [Entries(Kfuncs)] + [] == [Entries(Kfuncs)] && cs == [cs[0]] && cs[0] + [] == cs[0];
    }
  }

  lemma TrailerRewrites(ty: Byte, b: seq<Byte>)
    requires TrailerLayout(ty).Some? && ReadParts(TrailerLayout(ty).value, b).Ok?
    ensures var r := ReadParts(TrailerLayout(ty).value, b).value; TrailerWire(TrailerView(ty, r.value)) == b[..r.used]
  {
    hide ToLe, ReadParts, WriteParts, U64At, TrailerWire;
    var ps := TrailerLayout(ty).value;
    var cs := ReadParts(ps, b).value.value;
    PartsRewrite(ps, b);
    ViewParts(ty, cs);
    TrailerOnWire(TrailerView(ty, cs));
  }

  /** A trailer view is written as the pieces it was made of. */
  lemma ViewParts(ty: Byte, cs: seq<seq<Byte>>)
    requires TrailerLayout(ty).Some? && Shaped(TrailerLayout(ty).value, cs)
    ensures var t := TrailerView(ty, cs); TrailerParts(t) == TrailerLayout(ty).value && TrailerContents(t) == cs
  {
    hide ToLe, U64At;
    if ty == 2 || ty == 3 { EightBytes(cs[1]); }
    if ty == 10 { EightBytes(cs[0]); }
  }

  lemma EightBytes(c: seq<Byte>)
    requires |c| == 8
    ensures ToLe(U64At(c, 0), 8) == c
  {
    hide ToLe, U64At;
    WritesBack(c);
    assert c[..8] == c;
  }

  /** Whatever was decoded, written back piece by piece, is the bytes that were read, to the last one. */
  lemma DecodedRewrites(b: seq<Byte>)
    requires DecodeProgram(b).Ok?
    ensures var r := DecodeProgram(b).value;
            b[..r.used] == r.value.name + (ToLe(r.value.flags, 4) + (TrailerWire(r.value.trailer) + BodyWire(r.value)))
  {
    hide ReadParts, U32At, TrailerLayout, TrailerView, TrailerWire, BodyWire, BodyLayout, HasFieldRelocs, ToLe;
    var flags := U32At(b, 32);
    var ty: Byte := flags % 256;
    var t := ReadParts(TrailerLayout(ty).value, b[36..]).value;
    var rest := b[36 + t.used..];
    var body := ReadParts(BodyLayout(HasFieldRelocs(flags)), rest).value;
    TrailerRewrites(ty, b[36..]);
    BodyRewrites(b[..32], flags, TrailerView(ty, t.value), rest);
    U32Shift(b, 32);
    WritesBack(b[32..]);
    Glue(b, 36, t.used);
    Pieces(b, t.used, body.used);
  }

  lemma Pieces(b: seq<Byte>, i: nat, j: nat)
    requires 36 + i + j <= |b|
    ensures b[..36 + i + j] == b[..32] + (b[32..][..4] + (b[36..][..i] + b[36 + i..][..j]))
  {
  }

  /** Map records lie one after another. */
  lemma {:induction false} MapsLayout(ms: seq<MapSpec>, i: nat)
    requires i < |ms|
    ensures |MapsBytes(ms)| == 52 * |ms| && MapsBytes(ms)[52 * i..52 * i + 52] == MapBytes(ms[i])
    decreases |ms|
  {
    hide MapBytes;
    var n := |ms| - 1;
    var before, last := MapsBytes(ms[..n]), MapBytes(ms[n]);
    if i < n {
      MapsLayout(ms[..n], i);
      assert (before + last)[52 * i..52 * i + 52] == before[52 * i..52 * i + 52];
    } else {
      assert (before + last)[52 * n..52 * n + 52] == last;
    }
  }

  /** A wrapper on the wire: the letters BFR7, the number of programs, the programs. */
  lemma WrapperLayout(ps: seq<ProgramSpec>)
    requires AllEncodable(ps) && |ps| < 0x1_0000_0000
    ensures EncodeWrapper(ps) == [0x42, 0x46, 0x52, 0x37] + ToLe(|ps|, 4) + EncodePrograms(ps)
  {
    hide ToLe, EncodePrograms, AllEncodable;
  }

  /** A wrapper is refused as a whole exactly when it is shorter than its header or begins with other letters. */
  lemma WrapperRefusedIff(b: seq<Byte>)
    ensures DecodeWrapper(b).Err? <==> |b| < 8 || b[..4] != [0x42, 0x46, 0x52, 0x37]
    ensures |b| >= 8 && DecodeWrapper(b).Err? ==> DecodeWrapper(b) == Err(UnsupportedMagic(b[..4]))
  {
    hide DecodePrograms, U32At;
  }

  /** What an error of the encoder says about the program. */
  ghost predicate EncodeErrorMeans(e: WireError, p: ProgramSpec) {
    var t := p.trailer;
    match e
    case PathTooLong(n) => t.Path? && |t.path| > 256 && n == |t.path| % 0x1_0000_0000
    case BasenameOutOfRange(n) =>
      || (t.Symbol? && !(1 <= |t.basename| <= 64) && n == |t.basename| % 0x1_0000_0000)
      || (t.Usdt? && !(1 <= |t.usdtBasename| <= 64) && n == |t.usdtBasename| % 0x1_0000_0000)
    case SymbolOutOfRange(n) => t.Symbol? && !(1 <= |t.symbol| <= 256) && n == |t.symbol| % 0x1_0000_0000
    case ProviderOutOfRange(n) => t.Usdt? && !(1 <= |t.provider| <= 64) && n == |t.provider| % 0x1_0000_0000
    case ProbeOutOfRange(n) => t.Usdt? && !(1 <= |t.probe| <= 256) && n == |t.probe| % 0x1_0000_0000
    case KfuncNameOutOfRange(n) =>
      TrailerInRange(t) && exists k :: k in p.kfuncs && n == |k.name| && !(1 <= |k.name| <= 255)
    case Truncated =>
      && TrailerInRange(t) && (forall k :: k in p.kfuncs ==> 1 <= |k.name| <= 255)
      && exists r :: r in p.relocs && !(1 <= |r.structName| <= 255 && 1 <= |r.fieldName| <= 255)
    case _ => false
  }

  lemma {:induction false} KfuncErrorMeans(ks: seq<Kfunc>)
    ensures var e := KfuncError(ks);
            e.Some? ==> exists k :: k in ks && e.value == KfuncNameOutOfRange(|k.name|) && !(1 <= |k.name| <= 255)
    decreases |ks|
  {
    if |ks| > 0 {
      assert ks[0] in ks;
      KfuncErrorMeans(ks[1..]);
      assert forall k :: k in ks[1..] ==> k in ks;
    }
  }

  lemma RelocErrorMeans(rs: seq<FieldReloc.Reloc>)
    ensures var e := RelocError(rs);
            e.Some? ==> e.value == Truncated
                        && exists r :: r in rs && !(1 <= |r.structName| <= 255 && 1 <= |r.fieldName| <= 255)
  {
    if RelocError(rs).Some? {
      var r :| r in rs && !FieldReloc.Accepted(r);
    }
  }

  /** The encoder reports an error exactly for programs out of range, and the error names a string that is. */
  lemma EncodeErrorIs(p: ProgramSpec)
    ensures EncodeError(p).None? <==> InRange(p)
    ensures EncodeError(p).Some? ==> EncodeErrorMeans(EncodeError(p).value, p)
  {
    hide TrailerError, KfuncError, RelocError, InRange, TrailerInRange, Encodable;
    EncodableIffInRange(p);
    Bfr7Writer.EncodeErrorIff(p);
    TrailerErrorMeans(p);
    KfuncErrorMeans(p.kfuncs);
    KfuncsInRange(p.kfuncs);
    RelocErrorMeans(p.relocs);
  }

  lemma TrailerErrorMeans(p: ProgramSpec)
    ensures TrailerError(p.trailer).None? <==> TrailerInRange(p.trailer)
    ensures TrailerError(p.trailer).Some? ==> EncodeErrorMeans(TrailerError(p.trailer).value, p)
  {
  }

  lemma KfuncsInRange(ks: seq<Kfunc>)
    ensures KfuncError(ks).None? ==> forall k :: k in ks ==> 1 <= |k.name| <= 255
  {
    hide KfuncError;
    Bfr7Writer.KfuncErrorIff(ks);
  }
}
