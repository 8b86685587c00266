/** The BFR7 wrapper: programs behind a counted header, each with a trailer chosen by its probe type. */
module Bfr7Spec {
  import opened Bytes
  import opened Wire
  import opened WireParts
  import FieldReloc

  type Text = seq<Byte>

  const MAGIC: seq<Byte> := [0x42, 0x46, 0x52, 0x37]

  datatype Trailer =
    | NoTrailer
    | Path(path: Text, fileOffset: U64)
    | Symbol(basename: Text, symbol: Text)
    | Usdt(usdtBasename: Text, provider: Text, probe: Text)
    | ProfileTimer(period: U64)

  datatype MapSpec = MapSpec(mapType: U32, keySize: U32, valueSize: U32, maxEntries: U32, fakeFd: U32, name: Text)

  datatype Kfunc = Kfunc(insn: U32, name: Text)

  datatype ProgramSpec = ProgramSpec(
    name: Text, probeType: Byte, trailer: Trailer, schema: seq<Byte>, maps: seq<MapSpec>, insns: seq<Byte>,
    kfuncs: seq<Kfunc>, relocs: seq<FieldReloc.Reloc>)

  /** One decoded program; `fields` is empty when the flag bit is clear. */
  datatype View = View(
    name: seq<Byte>, flags: U32, probeType: Byte, trailer: Trailer, schema: seq<Byte>, numMaps: nat, maps: seq<Byte>,
    numInsns: nat, insns: seq<Byte>, kfuncs: seq<Byte>, fields: seq<Byte>)

  // ---------------------------------------------------------------- layout

  /** The trailer parts of a probe type; none for a type the decoder refuses. */
  function TrailerLayout(ty: Byte): Option<seq<Part>> {
    match ty
    case 2 => Some([Sized(PathLimit), Fixed(8)])
    case 3 => Some([Sized(PathLimit), Fixed(8)])
    case 4 => Some([Sized(BasenameLimit), Sized(SymbolLimit)])
    case 5 => Some([Sized(BasenameLimit), Sized(SymbolLimit)])
    case 9 => Some([Sized(BasenameLimit), Sized(ProviderLimit), Sized(ProbeLimit)])
    case 10 => Some([Fixed(8)])
    case 0 => Some([])
    case 1 => Some([])
    case 6 => Some([])
    case 7 => Some([])
    case 8 => Some([])
    case _ => None
  }

  /** Schema, maps, instructions and the relocation tables, in wire order. */
  function BodyLayout(fieldRelocs: bool): seq<Part> {
    [Sized(NoLimit), Rows(52), Rows(8), Entries(Kfuncs)] + if fieldRelocs then [Entries(FieldRelocs)] else []
  }

  /** Bit 8 of the flags. */
  predicate HasFieldRelocs(flags: U32) {
    (flags / 256) % 2 == 1
  }

  // ---------------------------------------------------------------- decoding

  function TrailerView(ty: Byte, cs: seq<seq<Byte>>): Trailer
    requires TrailerLayout(ty).Some? && Shaped(TrailerLayout(ty).value, cs)
  {
    if ty == 2 || ty == 3 then Path(cs[0], U64At(cs[1], 0))
    else if ty == 4 || ty == 5 then Symbol(cs[0], cs[1])
    else if ty == 9 then Usdt(cs[0], cs[1], cs[2])
    else if ty == 10 then ProfileTimer(U64At(cs[0], 0))
    else NoTrailer
  }

  function BodyView(name: seq<Byte>, flags: U32, trailer: Trailer, cs: seq<seq<Byte>>): View
    requires |cs| == |BodyLayout(HasFieldRelocs(flags))|
  {
    View(name, flags, flags % 256, trailer, cs[0], |cs[1]| / 52, cs[1], |cs[2]| / 8, cs[2], cs[3],
         if HasFieldRelocs(flags) then cs[4] else [])
  }

  function DecodeProgram(b: seq<Byte>): (r: Result<Read<View>, WireError>)
    ensures r.Ok? ==> 36 <= r.value.used <= |b|
  {
    if |b| < 36 then Err(Truncated)
    else
      var flags := U32At(b, 32);
      var ty: Byte := flags % 256;
      match TrailerLayout(ty)
      case None => Err(BadProbeType(ty))
      case Some(layout) =>
        match ReadParts(layout, b[36..])
        case Err(e) => Err(e)
        case Ok(trailer) =>
          match ReadParts(BodyLayout(HasFieldRelocs(flags)), b[36 + trailer.used..])
          case Err(e) => Err(e)
          case Ok(body) =>
            var view := BodyView(b[..32], flags, TrailerView(ty, trailer.value), body.value);
            Ok(Read(view, 36 + trailer.used + body.used))
  }

  /** What draining the program iterator yields: the programs, the cursor, and the error that stopped it. */
  datatype Run = Run(programs: seq<View>, cursor: nat, error: Option<WireError>)

  function DecodePrograms(b: seq<Byte>, cursor: nat, n: nat): Run
    requires cursor <= |b|
    decreases n
  {
    if n == 0 then Run([], cursor, None)
    else
      match DecodeProgram(b[cursor..])
      case Err(e) => Run([], cursor, Some(e))
      case Ok(p) =>
        var rest := DecodePrograms(b, cursor + p.used, n - 1);
        rest.(programs := [p.value] + rest.programs)
  }

  function DecodeWrapper(b: seq<Byte>): Result<Run, WireError> {
    if |b| < 8 then Err(Truncated)
    else if b[..4] != MAGIC then Err(UnsupportedMagic(b[..4]))
    else Ok(DecodePrograms(b, 8, U32At(b, 4)))
  }

  // ---------------------------------------------------------------- encoding

  function Zeros(n: nat): (s: seq<Byte>)
    ensures |s| == n
  {
    seq(n, _ => 0)
  }

  /** NUL-padded to 32 bytes, cut after 31. */
  function Name32(s: Text): (r: seq<Byte>)
    ensures |r| == 32 && forall i :: 0 <= i < 32 ==> r[i] == if i < 31 && i < |s| then s[i] else 0
  {
    var n := if |s| < 31 then |s| else 31;
    s[..n] + Zeros(32 - n)
  }

  function Flags(p: ProgramSpec): U32 {
    if p.relocs == [] then p.probeType else p.probeType + 0x100
  }

  function MapBytes(m: MapSpec): (r: seq<Byte>)
    ensures |r| == 52
  {
    ToLe(m.mapType, 4) + ToLe(m.keySize, 4) + ToLe(m.valueSize, 4) + ToLe(m.maxEntries, 4) + ToLe(m.fakeFd, 4)
    + Name32(m.name)
  }

  function MapsBytes(ms: seq<MapSpec>): (r: seq<Byte>)
    ensures |r| == 52 * |ms|
  {
    if |ms| == 0 then [] else MapsBytes(ms[..|ms| - 1]) + MapBytes(ms[|ms| - 1])
  }

  predicate KfuncFits(k: Kfunc) {
    1 <= |k.name| <= 255
  }

  function KfuncEntry(k: Kfunc): seq<Byte>
    requires KfuncFits(k)
  {
    ToLe(k.insn, 4) + ([|k.name|] + k.name)
  }

  function KfuncEntries(ks: seq<Kfunc>): (es: seq<seq<Byte>>)
    requires forall k :: k in ks ==> KfuncFits(k)
    ensures |es| == |ks| && forall i :: 0 <= i < |ks| ==> es[i] == KfuncEntry(ks[i])
  {
    seq(|ks|, i requires 0 <= i < |ks| => KfuncEntry(ks[i]))
  }

  /** The parts a trailer is written as, whatever the probe type says. */
  function TrailerParts(t: Trailer): seq<Part> {
    match t
    case NoTrailer => []
    case Path(_, _) => [Sized(PathLimit), Fixed(8)]
    case Symbol(_, _) => [Sized(BasenameLimit), Sized(SymbolLimit)]
    case Usdt(_, _, _) => [Sized(BasenameLimit), Sized(ProviderLimit), Sized(ProbeLimit)]
    case ProfileTimer(_) => [Fixed(8)]
  }

  function TrailerContents(t: Trailer): (cs: seq<seq<Byte>>)
    ensures |cs| == |TrailerParts(t)|
  {
    match t
    case NoTrailer => []
    case Path(path, off) => [path, ToLe(off, 8)]
    case Symbol(bn, sym) => [bn, sym]
    case Usdt(bn, prov, probe) => [bn, prov, probe]
    case ProfileTimer(period) => [ToLe(period, 8)]
  }

  /** The first length the encoder objects to in a trailer. */
  function TrailerError(t: Trailer): Option<WireError> {
    match t
    case NoTrailer => None
    case Path(path, _) => Check(PathLimit, path)
    case Symbol(bn, sym) => First(Check(BasenameLimit, bn), Check(SymbolLimit, sym))
    case Usdt(bn, prov, probe) =>
      First(Check(BasenameLimit, bn), First(Check(ProviderLimit, prov), Check(ProbeLimit, probe)))
    case ProfileTimer(_) => None
  }

  function Check(limit: Limit, s: Text): Option<WireError> {
    if limit.Allows(|s|) then None else Some(limit.Error(|s| % 0x1_0000_0000))
  }

  function First(a: Option<WireError>, b: Option<WireError>): Option<WireError> {
    if a.Some? then a else b
  }

  function KfuncError(ks: seq<Kfunc>): Option<WireError> {
    if |ks| == 0 then None
    else if !KfuncFits(ks[0]) then Some(KfuncNameOutOfRange(|ks[0].name|))
    else KfuncError(ks[1..])
  }

  function RelocError(rs: seq<FieldReloc.Reloc>): Option<WireError> {
    if forall r :: r in rs ==> FieldReloc.Accepted(r) then None else Some(Truncated)
  }

  /** The error the encoder returns: the trailer is checked first, then kernel functions, then field relocations. */
  function EncodeError(p: ProgramSpec): Option<WireError> {
    First(TrailerError(p.trailer), First(KfuncError(p.kfuncs), RelocError(p.relocs)))
  }

  ghost predicate Encodable(p: ProgramSpec) {
    && TrailerError(p.trailer).None?
    && (forall k :: k in p.kfuncs ==> KfuncFits(k))
    && (forall r :: r in p.relocs ==> FieldReloc.Accepted(r))
  }

  ghost function BodyContents(p: ProgramSpec): (cs: seq<seq<Byte>>)
    requires Encodable(p)
    ensures |cs| == |BodyLayout(p.relocs != [])|
  {
    [p.schema, MapsBytes(p.maps), p.insns, TableBytes(KfuncEntries(p.kfuncs))]
    + if p.relocs != [] then [TableBytes(FieldReloc.AllEntries(p.relocs))] else []
  }

  ghost function EncodeProgram(p: ProgramSpec): seq<Byte>
    requires Encodable(p)
  {
    Name32(p.name) + (ToLe(Flags(p), 4)
    + (WriteParts(TrailerParts(p.trailer), TrailerContents(p.trailer))
    + WriteParts(BodyLayout(p.relocs != []), BodyContents(p))))
  }

  ghost predicate AllEncodable(ps: seq<ProgramSpec>) {
    forall p :: p in ps ==> Encodable(p)
  }

  ghost function EncodePrograms(ps: seq<ProgramSpec>): seq<Byte>
    requires AllEncodable(ps)
  {
    if |ps| == 0 then [] else EncodeProgram(ps[0]) + EncodePrograms(ps[1..])
  }

  function EncodeHeader(numProgs: U32): (r: seq<Byte>)
    ensures |r| == 8
  {
    MAGIC + ToLe(numProgs, 4)
  }

  /** The program a decoder should see: names padded, tables verbatim. */
  ghost function Expected(p: ProgramSpec): View
    requires Encodable(p)
  {
    View(Name32(p.name), Flags(p), p.probeType, p.trailer, p.schema, |p.maps|, MapsBytes(p.maps), |p.insns| / 8,
         p.insns, TableBytes(KfuncEntries(p.kfuncs)),
         if p.relocs != [] then TableBytes(FieldReloc.AllEntries(p.relocs)) else [])
  }
}
