/** Decoding undoes encoding, program by program and for whole wrappers, and truncation is always noticed. */
module Bfr7Codec {
  import opened Bytes
  import opened Wire
  import opened WireParts
  import opened Bfr7Spec
  import FieldReloc
  import Modular

  /** The caller's side of the bargain: every count and length fits its 32-bit field. */
  ghost predicate SizesFit(p: ProgramSpec) {
    && |p.schema| < 0x1_0000_0000 && |p.maps| < 0x1_0000_0000 && |p.insns| / 8 < 0x1_0000_0000
    && |p.kfuncs| < 0x1_0000_0000 && |p.relocs| < 0x1_0000_0000
  }

  /** The trailer is the one the probe type calls for and the instructions are whole. */
  ghost predicate Consistent(p: ProgramSpec) {
    TrailerLayout(p.probeType) == Some(TrailerParts(p.trailer)) && |p.insns| % 8 == 0
  }

  ghost predicate Sound(p: ProgramSpec) {
    Encodable(p) && SizesFit(p) && Consistent(p)
  }

  // ---------------------------------------------------------------- the pieces of one program

  lemma FlagsRead(p: ProgramSpec)
    ensures Flags(p) % 256 == p.probeType && (HasFieldRelocs(Flags(p)) <==> p.relocs != [])
  {
  }

  lemma TrailerCarried(t: Trailer)
    requires TrailerError(t).None?
    ensures CarriesAll(TrailerParts(t), TrailerContents(t))
  {
    hide ToLe;
  }

  lemma TrailerShaped(t: Trailer)
    ensures Shaped(TrailerParts(t), TrailerContents(t))
  {
    hide ToLe;
  }

  lemma TrailerRead(ty: Byte, t: Trailer)
    requires TrailerLayout(ty) == Some(TrailerParts(t))
    ensures Shaped(TrailerLayout(ty).value, TrailerContents(t)) && TrailerView(ty, TrailerContents(t)) == t
  {
    TrailerShaped(t);
    hide ToLe, U64At;
    match t
    case Path(path, off) => TimerRead(off);
    case ProfileTimer(period) => TimerRead(period);
    case _ =>
  }

  lemma TimerRead(v: U64)
    ensures U64At(ToLe(v, 8), 0) == v
  {
    hide ToLe, U64At;
    assert ToLe(v, 8)[..8] == ToLe(v, 8);
    ReadsU64(ToLe(v, 8), v);
  }

  lemma KfuncsAreEntries(ks: seq<Kfunc>)
    requires |ks| < 0x1_0000_0000 && forall k :: k in ks ==> KfuncFits(k)
    ensures AreEntries(Kfuncs, KfuncEntries(ks))
  {
    KfuncEntriesShape(ks);
  }

  /** A kernel-function entry is its instruction index, its name's length and the name. */
  lemma KfuncLayout(k: Kfunc)
    requires KfuncFits(k)
    ensures var e := KfuncEntry(k); |e| == 5 + |k.name| && U32At(e, 0) == k.insn && e[4] == |k.name| && e[5..] == k.name
  {
    hide ToLe, U32At;
    var e := KfuncEntry(k);
    assert e[..4] == ToLe(k.insn, 4);
    ReadsU32(e, k.insn);
  }

  /** A map record is five 32-bit words and a padded name, in this order. */
  lemma MapLayout(m: MapSpec)
    ensures var r := MapBytes(m);
            && U32At(r, 0) == m.mapType && U32At(r, 4) == m.keySize && U32At(r, 8) == m.valueSize
            && U32At(r, 12) == m.maxEntries && U32At(r, 16) == m.fakeFd && r[20..] == Name32(m.name)
  {
    hide ToLe, FromLe, Name32;
    var r := MapBytes(m);
    FiveWords(ToLe(m.mapType, 4), ToLe(m.keySize, 4), ToLe(m.valueSize, 4), ToLe(m.maxEntries, 4), ToLe(m.fakeFd, 4),
              Name32(m.name));
    Widths();
    LeRoundTrip(m.mapType, 4);
    LeRoundTrip(m.keySize, 4);
    LeRoundTrip(m.valueSize, 4);
    LeRoundTrip(m.maxEntries, 4);
    LeRoundTrip(m.fakeFd, 4);
  }

  lemma FiveWords(a: seq<Byte>, b: seq<Byte>, c: seq<Byte>, d: seq<Byte>, e: seq<Byte>, f: seq<Byte>)
    requires |a| == |b| == |c| == |d| == |e| == 4
    ensures var r := a + b + c + d + e + f;
            r[0..4] == a && r[4..8] == b && r[8..12] == c && r[12..16] == d && r[16..20] == e && r[20..] == f
  {
    var r := a + b + c + d + e + f;
    assert r == (a + b + c) + (d + e + f);
    assert r[12..16] == (d + e + f)[0..4] && r[16..20] == (d + e + f)[4..8] && r[20..] == (d + e + f)[8..];
  }

  lemma RelocsAreEntries(rs: seq<FieldReloc.Reloc>)
    requires |rs| < 0x1_0000_0000 && forall r :: r in rs ==> FieldReloc.Accepted(r)
    ensures AreEntries(FieldRelocs, FieldReloc.AllEntries(rs))
  {
    FieldReloc.ViewsOfEntries(rs);
  }

  lemma BodyCarried(p: ProgramSpec)
    requires Encodable(p) && SizesFit(p) && |p.insns| % 8 == 0
    ensures CarriesAll(BodyLayout(p.relocs != []), BodyContents(p))
  {
    hide AreEntries, TableBytes, MapsBytes;
    KfuncsAreEntries(p.kfuncs);
    RelocsAreEntries(p.relocs);
    assert Carries(Entries(Kfuncs), TableBytes(KfuncEntries(p.kfuncs)));
    assert Carries(Entries(FieldRelocs), TableBytes(FieldReloc.AllEntries(p.relocs)));
    assert |MapsBytes(p.maps)| % 52 == 0 && |MapsBytes(p.maps)| / 52 == |p.maps|;
  }

  lemma HeaderRead(name: seq<Byte>, flags: U32, b: seq<Byte>, rest: seq<Byte>)
    requires |name| == 32 && Meets(b, name + (ToLe(flags, 4) + rest))
    ensures |b| >= 36 ==> b[..32] == name && U32At(b, 32) == flags && Meets(b[36..], rest)
  {
    hide ToLe, U32At;
    MeetsSplit(b, name, ToLe(flags, 4) + rest);
    if |b| >= 36 {
      MeetsSplit(b[32..], ToLe(flags, 4), rest);
      Glue(b, 32, 4);
      ReadsU32(b[32..], flags);
      U32Shift(b, 32);
    }
  }

  lemma U32Shift(b: seq<Byte>, at: nat)
    requires at + 4 <= |b|
    ensures U32At(b[at..], 0) == U32At(b, at)
  {
    assert b[at..][0..4] == b[at..at + 4];
  }

  ghost function TrailerBytes(p: ProgramSpec): seq<Byte> {
    WriteParts(TrailerParts(p.trailer), TrailerContents(p.trailer))
  }

  ghost function BodyBytes(p: ProgramSpec): seq<Byte>
    requires Encodable(p)
  {
    WriteParts(BodyLayout(p.relocs != []), BodyContents(p))
  }

  lemma ExpectedBody(p: ProgramSpec)
    requires Encodable(p)
    ensures Flags(p) % 256 == p.probeType && HasFieldRelocs(Flags(p)) == (p.relocs != [])
    ensures BodyView(Name32(p.name), Flags(p), p.trailer, BodyContents(p)) == Expected(p)
  {
    hide ToLe, MapsBytes, TableBytes, Name32;
    FlagsRead(p);
    assert |MapsBytes(p.maps)| / 52 == |p.maps|;
  }

  lemma TrailerReads(p: ProgramSpec, b: seq<Byte>)
    requires Sound(p) && Meets(b, TrailerBytes(p))
    ensures TrailerLayout(p.probeType).Some?
    ensures Reads(ReadParts(TrailerLayout(p.probeType).value, b), TrailerContents(p.trailer), |TrailerBytes(p)|, |b|)
    ensures Shaped(TrailerLayout(p.probeType).value, TrailerContents(p.trailer))
    ensures TrailerView(p.probeType, TrailerContents(p.trailer)) == p.trailer
  {
    hide TrailerParts, TrailerContents, TrailerView, CarriesAll, ReadParts, WriteParts, Meets;
    TrailerCarried(p.trailer);
    TrailerRead(p.probeType, p.trailer);
    PartsRead(TrailerParts(p.trailer), TrailerContents(p.trailer), b);
  }

  lemma BodyReads(p: ProgramSpec, b: seq<Byte>)
    requires Sound(p) && Meets(b, BodyBytes(p))
    ensures Reads(ReadParts(BodyLayout(p.relocs != []), b), BodyContents(p), |BodyBytes(p)|, |b|)
  {
    hide BodyLayout, BodyContents, CarriesAll, ReadParts, WriteParts, Meets;
    BodyCarried(p);
    PartsRead(BodyLayout(p.relocs != []), BodyContents(p), b);
  }

  /** One program, read from any input that agrees with its encoding as far as it goes. */
  lemma ProgramReads(p: ProgramSpec, b: seq<Byte>)
    requires Sound(p) && Meets(b, EncodeProgram(p))
    ensures Reads(DecodeProgram(b), Expected(p), |EncodeProgram(p)|, |b|)
  {
    hide ToLe, U32At, TrailerLayout, TrailerParts, TrailerContents, TrailerView, Flags, Expected, BodyView, BodyLayout,
         BodyContents, HasFieldRelocs, ReadParts, WriteParts, Name32, Encodable, SizesFit, Consistent, Meets, Shaped;
    var trailer, body := TrailerBytes(p), BodyBytes(p);
    HeaderRead(Name32(p.name), Flags(p), b, trailer + body);
    ExpectedBody(p);
    if |b| >= 36 {
      MeetsSplit(b[36..], trailer, body);
      TrailerReads(p, b[36..]);
      if 36 + |trailer| <= |b| {
        Glue(b, 36, |trailer|);
        BodyReads(p, b[36 + |trailer|..]);
      }
    }
  }

  // ---------------------------------------------------------------- whole wrappers

  ghost predicate AllSound(ps: seq<ProgramSpec>) {
    forall p :: p in ps ==> Sound(p)
  }

  ghost function AllExpected(ps: seq<ProgramSpec>): (vs: seq<View>)
    requires AllEncodable(ps)
    ensures |vs| == |ps| && forall i :: 0 <= i < |ps| ==> vs[i] == Expected(ps[i])
  {
    if |ps| == 0 then [] else [Expected(ps[0])] + AllExpected(ps[1..])
  }

  /** A run that ended well with exactly these programs, or ran out of input after some proper prefix of them. */
  ghost predicate Yields(run: Run, vs: seq<View>, end: nat, available: nat) {
    if end <= available then run == Run(vs, end, None)
    else run.error == Some(Truncated) && run.programs < vs && run.cursor <= available
  }

  lemma {:induction false} ProgramsRead(b: seq<Byte>, cursor: nat, ps: seq<ProgramSpec>)
    requires AllSound(ps) && AllEncodable(ps) && cursor <= |b| && Meets(b[cursor..], EncodePrograms(ps))
    ensures Yields(DecodePrograms(b, cursor, |ps|), AllExpected(ps), cursor + |EncodePrograms(ps)|, |b|)
    decreases |ps|
  {
    hide Sound, Encodable, EncodeProgram, DecodeProgram, Expected, Meets;
    if |ps| > 0 {
      var n := |EncodeProgram(ps[0])|;
      MeetsSplit(b[cursor..], EncodeProgram(ps[0]), EncodePrograms(ps[1..]));
      ProgramReads(ps[0], b[cursor..]);
      if cursor + n <= |b| {
        Glue(b, cursor, n);
        ProgramsRead(b, cursor + n, ps[1..]);
        var run := DecodePrograms(b, cursor + n, |ps| - 1);
        PrefixCons(Expected(ps[0]), run.programs, AllExpected(ps[1..]));
      }
    }
  }

  lemma PrefixCons(v: View, a: seq<View>, b: seq<View>)
    ensures a < b ==> [v] + a < [v] + b
  {
  }

  ghost function EncodeWrapper(ps: seq<ProgramSpec>): seq<Byte>
    requires AllEncodable(ps) && |ps| < 0x1_0000_0000
  {
    EncodeHeader(|ps|) + EncodePrograms(ps)
  }

  lemma WrapperHeaderRead(n: U32, rest: seq<Byte>, b: seq<Byte>)
    requires Meets(b, EncodeHeader(n) + rest) && |b| >= 8
    ensures b[..4] == MAGIC && U32At(b, 4) == n && Meets(b[8..], rest)
  {
    hide ToLe, U32At;
    MeetsSplit(b, EncodeHeader(n), rest);
    assert b[..8][..4] == b[..4] && b[..8][4..] == b[4..][..4];
    ReadsU32(b[4..], n);
    U32Shift(b, 4);
  }

  lemma WrapperReads(ps: seq<ProgramSpec>, b: seq<Byte>)
    requires AllSound(ps) && AllEncodable(ps) && |ps| < 0x1_0000_0000 && Meets(b, EncodeWrapper(ps))
    ensures |b| < 8 ==> DecodeWrapper(b) == Err(Truncated)
    ensures |b| >= 8 ==> DecodeWrapper(b).Ok?
    ensures |b| >= 8 ==> Yields(DecodeWrapper(b).value, AllExpected(ps), |EncodeWrapper(ps)|, |b|)
  {
    hide AllSound, AllEncodable, EncodePrograms, DecodePrograms, EncodeHeader, U32At, AllExpected, Yields, Meets;
    if |b| >= 8 {
      WrapperHeaderRead(|ps|, EncodePrograms(ps), b);
      ProgramsRead(b, 8, ps);
    }
  }

  /** Decoding an encoded wrapper followed by anything yields exactly its programs and stops at its end. */
  lemma RoundTrip(ps: seq<ProgramSpec>, rest: seq<Byte>)
    requires AllSound(ps) && AllEncodable(ps) && |ps| < 0x1_0000_0000
    ensures DecodeWrapper(EncodeWrapper(ps) + rest) == Ok(Run(AllExpected(ps), |EncodeWrapper(ps)|, None))
  {
    hide AllSound, AllEncodable, EncodePrograms, DecodeWrapper, AllExpected, Meets;
    MeetsSuffixed(EncodeWrapper(ps), rest);
    WrapperReads(ps, EncodeWrapper(ps) + rest);
  }

  /** Every strict prefix yields some of the programs, in order and unaltered, and then `Truncated`. */
  lemma TruncationDetected(ps: seq<ProgramSpec>, k: nat)
    requires AllSound(ps) && AllEncodable(ps) && |ps| < 0x1_0000_0000 && k < |EncodeWrapper(ps)|
    ensures k < 8 ==> DecodeWrapper(EncodeWrapper(ps)[..k]) == Err(Truncated)
    ensures k >= 8 ==> var r := DecodeWrapper(EncodeWrapper(ps)[..k]);
                       r.Ok? && r.value.error == Some(Truncated) && r.value.programs < AllExpected(ps)
  {
    hide AllSound, AllEncodable, EncodePrograms, DecodeWrapper, AllExpected, Meets;
    MeetsPrefix(EncodeWrapper(ps), k);
    WrapperReads(ps, EncodeWrapper(ps)[..k]);
  }

  // ---------------------------------------------------------------- when a program survives the trip

  /** Any decoded program has the trailer of its probe type and whole instructions. */
  lemma DecodedIsConsistent(b: seq<Byte>)
    requires DecodeProgram(b).Ok?
    ensures var v := DecodeProgram(b).value.value;
            && TrailerLayout(v.probeType) == Some(TrailerParts(v.trailer)) && |v.insns| % 8 == 0
            && v.numInsns * 8 == |v.insns|
  {
    hide ToLe, U32At, U64At, ReadTable, ReadParts;
    var flags := U32At(b, 32);
    var ty: Byte := flags % 256;
    var trailer := ReadParts(TrailerLayout(ty).value, b[36..]).value;
    TrailerOfType(ty, trailer.value);
    var layout, rest := BodyLayout(HasFieldRelocs(flags)), b[36 + trailer.used..];
    RowsWhole(layout, rest, 2);
  }

  lemma TrailerOfType(ty: Byte, cs: seq<seq<Byte>>)
    requires TrailerLayout(ty).Some? && Shaped(TrailerLayout(ty).value, cs)
    ensures TrailerLayout(ty).value == TrailerParts(TrailerView(ty, cs))
  {
    hide U64At;
  }

  /** What a part can have read: a string shorter than 2^32 bytes, or fewer than 2^32 whole rows. */
  ghost predicate WordSized(p: Part, c: seq<Byte>) {
    && (p.Sized? ==> |c| < 0x1_0000_0000)
    && (p.Rows? && p.width > 0 ==> |c| % p.width == 0 && |c| / p.width < 0x1_0000_0000)
  }

  lemma PartWordSized(p: Part, b: seq<Byte>)
    requires ReadPart(p, b).Ok?
    ensures WordSized(p, ReadPart(p, b).value.value)
  {
    hide U32At, ReadTable;
    if p.Rows? && p.width > 0 {
      Multiple(U32At(b, 0), p.width);
    }
  }

  lemma {:induction false} PartsWordSized(ps: seq<Part>, b: seq<Byte>, i: nat)
    requires i < |ps| && ReadParts(ps, b).Ok?
    ensures WordSized(ps[i], ReadParts(ps, b).value.value[i])
    decreases |ps|
  {
    hide ReadPart, WordSized;
    var c := ReadPart(ps[0], b).value;
    PartWordSized(ps[0], b);
    if i > 0 {
      PartsWordSized(ps[1..], b[c.used..], i - 1);
    }
  }

  lemma RowsWhole(ps: seq<Part>, b: seq<Byte>, i: nat)
    requires i < |ps| && ps[i].Rows? && ps[i].width > 0 && ReadParts(ps, b).Ok?
    ensures |ReadParts(ps, b).value.value[i]| % ps[i].width == 0
  {
    hide ReadParts;
    PartsWordSized(ps, b, i);
  }

  lemma Multiple(n: nat, w: nat)
    requires w > 0
    ensures (n * w) % w == 0 && n * w / w == n
  {
    Modular.Unique(n * w, n, 0, w);
  }

  /** Entries laid end to end can be told apart in one way only. */
  lemma {:induction false} FlattenUnique(t: Table, es: seq<seq<Byte>>, fs: seq<seq<Byte>>)
    requires (forall e :: e in es ==> IsEntry(t, e)) && (forall f :: f in fs ==> IsEntry(t, f))
    requires Flatten(es) == Flatten(fs)
    ensures es == fs
    decreases |es|
  {
    hide IsEntry;
    if |es| == 0 || |fs| == 0 {
      if |es| > 0 { EntryNotEmpty(t, es[0]); }
      if |fs| > 0 { EntryNotEmpty(t, fs[0]); }
    } else {
      var e, f, b := es[0], fs[0], Flatten(es);
      MeetsSuffixed(e, Flatten(es[1..]));
      MeetsSuffixed(f, Flatten(fs[1..]));
      EntryMeets(t, e, b);
      EntryMeets(t, f, b);
      assert e == b[..|e|] && f == b[..|f|];
      assert Flatten(es[1..]) == b[|e|..] && Flatten(fs[1..]) == b[|f|..];
      FlattenUnique(t, es[1..], fs[1..]);
      assert es == [e] + es[1..] && fs == [f] + fs[1..];
    }
  }

  lemma EntryNotEmpty(t: Table, e: seq<Byte>)
    requires IsEntry(t, e)
    ensures |e| > 0
  {
  }

  /** A table that was read back has a count that fits its word. */
  lemma TableCountFits(t: Table, es: seq<seq<Byte>>, fs: seq<seq<Byte>>)
    requires (forall e :: e in es ==> IsEntry(t, e)) && AreEntries(t, fs) && TableBytes(es) == TableBytes(fs)
    ensures |es| < 0x1_0000_0000
  {
    hide ToLe, Flatten, IsEntry;
    var b := TableBytes(es);
    assert Flatten(es) == b[4..] && Flatten(fs) == b[4..];
    FlattenUnique(t, es, fs);
  }

  lemma KfuncEntriesShape(ks: seq<Kfunc>)
    requires forall k :: k in ks ==> KfuncFits(k)
    ensures forall e :: e in KfuncEntries(ks) ==> IsEntry(Kfuncs, e)
  {
    hide ToLe;
    forall e | e in KfuncEntries(ks)
      ensures IsEntry(Kfuncs, e)
    {
      var i :| 0 <= i < |ks| && KfuncEntries(ks)[i] == e;
      assert e[4] == |ks[i].name|;
    }
  }

  /** A decoded program's lengths and counts all fit their 32-bit words. */
  lemma DecodedSizesFit(p: ProgramSpec, b: seq<Byte>)
    requires Encodable(p) && DecodeProgram(b).Ok? && DecodeProgram(b).value.value == Expected(p)
    ensures SizesFit(p)
  {
    hide ToLe, U32At, ReadParts, TrailerLayout, TrailerView, TableBytes, AreEntries, MapsBytes, Name32, Flags,
         TrailerError, KfuncFits, FieldReloc.Accepted;
    var flags := U32At(b, 32);
    var trailer := ReadParts(TrailerLayout(flags % 256).value, b[36..]).value;
    var layout, rest := BodyLayout(HasFieldRelocs(flags)), b[36 + trailer.used..];
    PartsWordSized(layout, rest, 0);
    PartsWordSized(layout, rest, 1);
    PartsWordSized(layout, rest, 2);
    var ks := ReadPartsTable(layout, rest, 3);
    EncodedTables(p);
    TableCountFits(Kfuncs, KfuncEntries(p.kfuncs), ks);
    FlagsRead(p);
    if p.relocs != [] {
      var fs := ReadPartsTable(layout, rest, 4);
      TableCountFits(FieldRelocs, FieldReloc.AllEntries(p.relocs), fs);
    }
    assert |MapsBytes(p.maps)| / 52 == |p.maps|;
  }

  lemma EncodedTables(p: ProgramSpec)
    requires Encodable(p)
    ensures forall e :: e in KfuncEntries(p.kfuncs) ==> IsEntry(Kfuncs, e)
    ensures forall e :: e in FieldReloc.AllEntries(p.relocs) ==> IsEntry(FieldRelocs, e)
  {
    hide IsEntry;
    KfuncEntriesShape(p.kfuncs);
    FieldReloc.ViewsOfEntries(p.relocs);
  }

  /**
   * The encoder compares neither the trailer with the probe type nor the instruction length with whole slots,
   * and it cuts every length and count to 32 bits. A program it accepts comes back unchanged exactly when
   * none of that matters.
   */
  lemma SurvivesIff(p: ProgramSpec, rest: seq<Byte>)
    requires Encodable(p)
    ensures DecodeProgram(EncodeProgram(p) + rest) == Ok(Read(Expected(p), |EncodeProgram(p)|)) <==>
            Consistent(p) && SizesFit(p)
  {
    hide EncodeProgram, DecodeProgram, Meets, Encodable, SizesFit;
    var b := EncodeProgram(p) + rest;
    if Consistent(p) && SizesFit(p) {
      MeetsSuffixed(EncodeProgram(p), rest);
      ProgramReads(p, b);
    } else if DecodeProgram(b).Ok? && DecodeProgram(b).value.value == Expected(p) {
      DecodedIsConsistent(b);
      DecodedSizesFit(p, b);
    }
  }

  /** A timer trailer on a tracepoint is accepted by the encoder and does not come back. */
  lemma MismatchedTrailerLost(rest: seq<Byte>)
    ensures var p := ProgramSpec([], 8, ProfileTimer(0), [], [], [], [], []);
            Encodable(p) && DecodeProgram(EncodeProgram(p) + rest) != Ok(Read(Expected(p), |EncodeProgram(p)|))
  {
    hide EncodeProgram, DecodeProgram, Expected;
    var p := ProgramSpec([], 8, ProfileTimer(0), [], [], [], [], []);
    SurvivesIff(p, rest);
  }

  /** In any decoded program the field-relocation slice walks cleanly to its end. */
  lemma FieldSectionRewalks(b: seq<Byte>)
    requires DecodeProgram(b).Ok? && HasFieldRelocs(DecodeProgram(b).value.value.flags)
    ensures var f := DecodeProgram(b).value.value.fields;
            |f| >= 4 && var run := FieldReloc.Drain(f, 4, U32At(f, 0)); run.ending.Finished? && run.cursor == |f|
  {
    hide ToLe, U32At, ReadTable, ReadParts, TrailerLayout, TrailerView, HasFieldRelocs, TableBytes, AreEntries;
    var flags := U32At(b, 32);
    var trailer := ReadParts(TrailerLayout(flags % 256).value, b[36..]).value;
    var layout, rest := BodyLayout(true), b[36 + trailer.used..];
    var es := ReadPartsTable(layout, rest, 4);
    FieldReloc.SectionRewalks(es);
  }
}
