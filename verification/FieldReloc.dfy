/** The field-relocation section: its encoder, its record reader and the iterator over a slice. */
module FieldReloc {
  import opened Bytes
  import opened Wire
  import opened WireParts

  datatype Reloc = Reloc(insn: U32, access: Byte, byteOff: Byte, structName: seq<Byte>, fieldName: seq<Byte>)

  const NAME_MAX := 255

  predicate NameFits(name: seq<Byte>) {
    1 <= |name| <= NAME_MAX
  }

  predicate Accepted(r: Reloc) {
    NameFits(r.structName) && NameFits(r.fieldName)
  }

  function EntryBytes(r: Reloc): seq<Byte>
    requires Accepted(r)
  {
    ToLe(r.insn, 4) + ([r.access, r.byteOff, |r.structName|, |r.fieldName|] + (r.structName + r.fieldName))
  }

  function AllEntries(rs: seq<Reloc>): (es: seq<seq<Byte>>)
    requires forall r :: r in rs ==> Accepted(r)
    ensures |es| == |rs| && forall i :: 0 <= i < |rs| ==> es[i] == EntryBytes(rs[i])
  {
    seq(|rs|, i requires 0 <= i < |rs| => EntryBytes(rs[i]))
  }

  /** What a record of the section says. */
  function View(e: seq<Byte>): Reloc
    requires IsEntry(FieldRelocs, e)
  {
    Reloc(U32At(e, 0), e[4], e[5], e[8..8 + e[6] as int], e[8 + e[6] as int..])
  }

  /** A relocation on the wire: instruction index, access, byte offset, two name lengths, the names. */
  lemma EntryLayout(r: Reloc)
    requires Accepted(r)
    ensures var e, n := EntryBytes(r), |r.structName|;
            && |e| == 8 + n + |r.fieldName| && U32At(e, 0) == r.insn && e[4] == r.access && e[5] == r.byteOff
            && e[6] == n && e[7] == |r.fieldName| && e[8..8 + n] == r.structName && e[8 + n..] == r.fieldName
  {
    hide ToLe, U32At;
    var e := EntryBytes(r);
    assert e[..4] == ToLe(r.insn, 4);
    ReadsU32(e, r.insn);
  }

  lemma EntryView(r: Reloc)
    requires Accepted(r)
    ensures IsEntry(FieldRelocs, EntryBytes(r)) && View(EntryBytes(r)) == r
  {
    hide ToLe, U32At;
    var e, s := EntryBytes(r), |r.structName|;
    assert e[..4] == ToLe(r.insn, 4);
    ReadsU32(e, r.insn);
    assert e[4] == r.access && e[5] == r.byteOff && e[6] == s && e[7] == |r.fieldName|;
    assert e[8..8 + s] == r.structName && e[8 + s..] == r.fieldName;
  }

  /** Writes the section; a bad name stops the encoder after the records before it. */
  method Write(sink: seq<Byte>, rs: seq<Reloc>) returns (out: seq<Byte>, ok: bool)
    ensures ok <==> forall r :: r in rs ==> 1 <= |r.structName| <= 255 && 1 <= |r.fieldName| <= 255
    ensures ok <==> forall r :: r in rs ==> Accepted(r)
    ensures ok ==> out == sink + TableBytes(AllEntries(rs))
    ensures sink <= out
  {
    hide ToLe, Flatten;
    out := sink + ToLe(|rs|, 4);
    ghost var head := out;
    FlattenNothing();
    for i := 0 to |rs|
      invariant forall r :: r in rs[..i] ==> Accepted(r)
      invariant out == head + Flatten(AllEntries(rs[..i]))
    {
      var r := rs[i];
      if !NameFits(r.structName) || !NameFits(r.fieldName) {
        assert r in rs;
        return out, false;
      }
      assert rs[..i + 1] == rs[..i] + [r];
      FlattenSnoc(AllEntries(rs[..i]), EntryBytes(r));
      assert AllEntries(rs[..i + 1]) == AllEntries(rs[..i]) + [EntryBytes(r)];
      ghost var sofar := Flatten(AllEntries(rs[..i]));
      assert head + (sofar + EntryBytes(r)) == head + sofar + EntryBytes(r);
      var lens: seq<Byte> := [r.access, r.byteOff, |r.structName|, |r.fieldName|];
      out := out + (ToLe(r.insn, 4) + (lens + (r.structName + r.fieldName)));
    }
    assert rs[..|rs|] == rs;
    assert sink + (ToLe(|rs|, 4) + Flatten(AllEntries(rs))) == sink + ToLe(|rs|, 4) + Flatten(AllEntries(rs));
    ok := true;
  }

  lemma FlattenNothing()
    ensures Flatten([]) == []
  {
  }

  lemma FlattenCons(e: seq<Byte>, es: seq<seq<Byte>>)
    ensures Flatten([e] + es) == e + Flatten(es)
  {
    assert ([e] + es)[1..] == es;
  }

  lemma {:induction false} FlattenSnoc(es: seq<seq<Byte>>, e: seq<Byte>)
    ensures Flatten(es + [e]) == Flatten(es) + e
    decreases |es|
  {
    hide Flatten;
    FlattenNothing();
    if |es| == 0 {
      FlattenCons(e, []);
      assert es + [e] == [e] + [] && es == [];
    } else {
      var x, r := es[0], es[1..];
      FlattenSnoc(r, e);
      FlattenCons(x, r);
      FlattenCons(x, r + [e]);
      assert es == [x] + r && es + [e] == [x] + (r + [e]);
      assert x + (Flatten(r) + e) == x + Flatten(r) + e;
    }
  }

  // ---------------------------------------------------------------- reading back

  /** One record read. The header check covers seven bytes but eight are read: the missing one is a panic. */
  datatype Step = Got(next: nat, reloc: Reloc) | Short | Panic

  function ReadOne(b: seq<Byte>, off: nat): (s: Step)
    ensures s.Got? ==> off < s.next <= |b|
  {
    if |b| < off + 7 then Short
    else if |b| == off + 7 then Panic
    else
      var mid := off + 8 + b[off + 6] as int;
      var end := mid + b[off + 7] as int;
      if |b| < end then Short
      else Got(end, Reloc(U32At(b, off), b[off + 4], b[off + 5], b[off + 8..mid], b[mid..end]))
  }

  /** A record that is read is a whole entry, and its fields are the entry's. */
  lemma GotReads(b: seq<Byte>, off: nat)
    requires ReadOne(b, off).Got?
    ensures var next := ReadOne(b, off).next;
            IsEntry(FieldRelocs, b[off..next]) && ReadOne(b, off).reloc == View(b[off..next])
  {
    hide U32At;
    var next := ReadOne(b, off).next;
    var e := b[off..next];
    assert forall i :: 0 <= i < |e| ==> e[i] == b[off + i];
    U32Inside(b, off, e);
    var mid := 8 + e[6] as int;
    SliceInside(b, off, e, 8, mid);
    SliceInside(b, off, e, mid, |e|);
    assert e[mid..|e|] == e[mid..];
  }

  /** What draining an iterator yields: the records, where it stopped, and why. */
  datatype Ending = Finished | Failed | Panicked
  datatype Run = Run(relocs: seq<Reloc>, cursor: nat, ending: Ending)

  function Drain(b: seq<Byte>, cursor: nat, n: nat): Run
    decreases n
  {
    if n == 0 then Run([], cursor, Finished)
    else
      match ReadOne(b, cursor)
      case Short => Run([], cursor, Failed)
      case Panic => Run([], cursor, Panicked)
      case Got(next, r) => var rest := Drain(b, next, n - 1); rest.(relocs := [r] + rest.relocs)
  }

  lemma ReadEntry(pre: seq<Byte>, e: seq<Byte>, post: seq<Byte>)
    requires IsEntry(FieldRelocs, e)
    ensures ReadOne(pre + (e + post), |pre|) == Got(|pre| + |e|, View(e))
  {
    hide U32At;
    var b := pre + (e + post);
    assert b[|pre|..|pre| + |e|] == e;
    assert forall i :: 0 <= i < |e| ==> b[|pre| + i] == e[i];
    U32Inside(b, |pre|, e);
    var mid := 8 + e[6] as int;
    SliceInside(b, |pre|, e, 8, mid);
    SliceInside(b, |pre|, e, mid, |e|);
    assert e[mid..|e|] == e[mid..];
  }

  lemma U32Inside(b: seq<Byte>, at: nat, e: seq<Byte>)
    requires at + |e| <= |b| && b[at..at + |e|] == e && |e| >= 4
    ensures U32At(b, at) == U32At(e, 0)
  {
    SliceInside(b, at, e, 0, 4);
  }

  function Views(es: seq<seq<Byte>>): seq<Reloc>
    requires forall e :: e in es ==> IsEntry(FieldRelocs, e)
  {
    if |es| == 0 then [] else [View(es[0])] + Views(es[1..])
  }

  lemma {:induction false} DrainEntries(pre: seq<Byte>, es: seq<seq<Byte>>)
    requires forall e :: e in es ==> IsEntry(FieldRelocs, e)
    ensures Drain(pre + Flatten(es), |pre|, |es|) == Run(Views(es), |pre| + |Flatten(es)|, Finished)
    decreases |es|
  {
    hide View, ReadOne, IsEntry;
    if |es| > 0 {
      var e, rest := es[0], Flatten(es[1..]);
      ReadEntry(pre, e, rest);
      DrainEntries(pre + e, es[1..]);
      assert pre + e + rest == pre + (e + rest);
    }
  }

  /**
   * Any well-formed section is walked to its last byte: every record is yielded, no error and no panic
   * occurs, and the cursor ends at the end of the slice.
   */
  lemma SectionRewalks(es: seq<seq<Byte>>)
    requires AreEntries(FieldRelocs, es)
    ensures |TableBytes(es)| >= 4 && U32At(TableBytes(es), 0) == |es|
    ensures Drain(TableBytes(es), 4, |es|) == Run(Views(es), |TableBytes(es)|, Finished)
  {
    hide ToLe, U32At, Drain, Flatten, Views, IsEntry;
    var b := TableBytes(es);
    assert b[..4] == ToLe(|es|, 4);
    ReadsU32(b, |es|);
    DrainEntries(ToLe(|es|, 4), es);
  }

  lemma {:induction false} ViewsOfEntries(rs: seq<Reloc>)
    requires forall r :: r in rs ==> Accepted(r)
    ensures forall e :: e in AllEntries(rs) ==> IsEntry(FieldRelocs, e)
    ensures Views(AllEntries(rs)) == rs
    decreases |rs|
  {
    hide View, EntryBytes, IsEntry;
    if |rs| > 0 {
      EntryView(rs[0]);
      ViewsOfEntries(rs[1..]);
      assert AllEntries(rs)[1..] == AllEntries(rs[1..]);
      assert AllEntries(rs)[0] == EntryBytes(rs[0]);
      assert AllEntries(rs) == [EntryBytes(rs[0])] + AllEntries(rs[1..]);
    }
  }

  /** Draining what was encoded gives the relocations back in order. */
  lemma RoundTrip(rs: seq<Reloc>)
    requires |rs| < 0x1_0000_0000 && forall r :: r in rs ==> Accepted(r)
    ensures var b := TableBytes(AllEntries(rs));
            && |b| >= 4 && U32At(b, 0) == |rs|
            && Drain(b, 4, |rs|) == Run(rs, |b|, Finished)
  {
    hide Drain, Views, TableBytes, AllEntries, U32At;
    ViewsOfEntries(rs);
    SectionRewalks(AllEntries(rs));
  }

  /** The first `k` records are intact and exactly seven bytes follow them. */
  ghost predicate SevenBytesAfter(b: seq<Byte>, cursor: nat, k: nat)
    requires cursor <= |b|
  {
    var w := Walk(FieldRelocs, b[cursor..], k);
    w.Ok? && cursor + w.value + 7 == |b|
  }

  lemma SizeHere(b: seq<Byte>, cursor: nat)
    requires cursor + 8 <= |b|
    ensures EntrySize(FieldRelocs, b[cursor..]) == 8 + b[cursor + 6] as int + b[cursor + 7] as int
  {
  }

  lemma GotMeans(b: seq<Byte>, cursor: nat)
    requires ReadOne(b, cursor).Got?
    ensures cursor + 8 <= |b| && ReadOne(b, cursor).next == cursor + 8 + b[cursor + 6] as int + b[cursor + 7] as int
  {
    hide U32At;
  }

  lemma StepSkips(b: seq<Byte>, cursor: nat, k: nat)
    requires cursor <= |b| && ReadOne(b, cursor).Got?
    ensures var next, w := ReadOne(b, cursor).next, Walk(FieldRelocs, b[cursor..], k + 1);
            var v := Walk(FieldRelocs, b[next..], k);
            (w.Ok? <==> v.Ok?) && (w.Ok? ==> cursor + w.value == next + v.value)
  {
    hide ReadOne, EntrySize;
    GotMeans(b, cursor);
    SizeHere(b, cursor);
    Glue(b, cursor, ReadOne(b, cursor).next - cursor);
  }

  lemma StepStops(b: seq<Byte>, cursor: nat)
    requires cursor <= |b| && !ReadOne(b, cursor).Got?
    ensures forall k: nat :: Walk(FieldRelocs, b[cursor..], k).Ok? ==> k == 0
  {
    hide U32At;
    if |b| >= cursor + 8 {
      assert b[cursor..][6] == b[cursor + 6] && b[cursor..][7] == b[cursor + 7];
    }
  }

  /**
   * On arbitrary bytes the iterator finishes exactly where the wrapper decoder's own walk succeeds, and it
   * panics exactly when some proper prefix of the records is intact with seven bytes left after it.
   */
  lemma {:induction false} DrainMeaning(b: seq<Byte>, cursor: nat, n: nat)
    requires cursor <= |b|
    ensures var run, w := Drain(b, cursor, n), Walk(FieldRelocs, b[cursor..], n);
            (run.ending.Finished? <==> w.Ok?) && (w.Ok? ==> run.cursor == cursor + w.value)
    ensures Drain(b, cursor, n).ending.Panicked? <==> exists k: nat :: k < n && SevenBytesAfter(b, cursor, k)
    decreases n
  {
    hide Walk;
    if n > 0 {
      var step := ReadOne(b, cursor);
      WalkNothing(b, cursor);
      if step.Got? {
        DrainMeaning(b, step.next, n - 1);
        StepSkips(b, cursor, n - 1);
        if k: nat :| k < n && SevenBytesAfter(b, cursor, k) {
          assert k > 0;
          StepSkips(b, cursor, k - 1);
          assert SevenBytesAfter(b, step.next, k - 1);
        }
        if k: nat :| k < n - 1 && SevenBytesAfter(b, step.next, k) {
          StepSkips(b, cursor, k);
          assert SevenBytesAfter(b, cursor, k + 1);
        }
      } else {
        StepStops(b, cursor);
        assert step.Panic? <==> SevenBytesAfter(b, cursor, 0);
      }
    } else {
      WalkNothing(b, cursor);
    }
  }

  /** A count of one followed by seven bytes makes the iterator panic on its first step. */
  lemma SevenBytesPanic(tail: seq<Byte>)
    requires |tail| == 7
    ensures var b := ToLe(1, 4) + tail;
            |b| == 11 && U32At(b, 0) == 1 && Drain(b, 4, U32At(b, 0)) == Run([], 4, Panicked)
  {
    hide ToLe, U32At;
    var b := ToLe(1, 4) + tail;
    assert b[..4] == ToLe(1, 4);
    ReadsU32(b, 1);
  }

  lemma WalkNothing(b: seq<Byte>, cursor: nat)
    requires cursor <= |b|
    ensures Walk(FieldRelocs, b[cursor..], 0) == Ok(0)
  {
  }

  /** The iterator over a slice. */
  class Iter {
    const bytes: seq<Byte>
    var cursor: nat
    var remaining: nat
    var failed: bool

    /** `decode_field_relocs`, which refuses a slice without a count. */
    static method Open(bytes: seq<Byte>) returns (it: Option<Iter>)
      ensures it.None? <==> |bytes| < 4
      ensures it.Some? ==> fresh(it.value) && it.value.bytes == bytes && it.value.cursor == 4 && !it.value.failed
      ensures it.Some? ==> it.value.remaining == U32At(bytes, 0)
    {
      if |bytes| < 4 {
        return None;
      }
      var i := new Iter(bytes, U32At(bytes, 0));
      return Some(i);
    }

    constructor (bytes: seq<Byte>, remaining: nat)
      ensures this.bytes == bytes && cursor == 4 && this.remaining == remaining && !failed
    {
      this.bytes, this.cursor, this.remaining, this.failed := bytes, 4, remaining, false;
    }

    /** One step: nothing once failed or exhausted, otherwise the next record or the error that ends it. */
    method Next() returns (step: Option<Step>)
      modifies this
      ensures old(failed || remaining == 0) ==> step.None? && unchanged(this)
      ensures !old(failed || remaining == 0) ==> step == Some(ReadOne(bytes, old(cursor)))
      ensures step.Some? && step.value.Got? ==> cursor == step.value.next && remaining == old(remaining) - 1 && !failed
      ensures step.Some? && !step.value.Got? ==> cursor == old(cursor) && remaining == old(remaining)
      ensures step.Some? ==> (failed <==> step.value.Short?)
    {
      if failed || remaining == 0 {
        return None;
      }
      var s := ReadOne(bytes, cursor);
      match s {
        case Got(next, _) => cursor, remaining := next, remaining - 1;
        case Short => failed := true;
        case Panic =>
      }
      return Some(s);
    }

    /** Drains the iterator as a `for` loop does. */
    method DrainAll() returns (run: Run)
      requires !failed
      modifies this
      ensures run == Drain(bytes, old(cursor), old(remaining)) && cursor == run.cursor
    {
      hide ReadOne;
      var out: seq<Reloc> := [];
      ghost var all := Drain(bytes, cursor, remaining);
      assert [] + all.relocs == all.relocs;
      while true
        invariant !failed
        invariant var d := Drain(bytes, cursor, remaining);
                  Run(out + d.relocs, d.cursor, d.ending) == Drain(bytes, old(cursor), old(remaining))
        decreases remaining
      {
        ghost var d := Drain(bytes, cursor, remaining);
        var step := Next();
        match step {
          case None => return Run(out, cursor, Finished);
          case Some(Short) => return Run(out, cursor, Failed);
          case Some(Panic) => return Run(out, cursor, Panicked);
          case Some(Got(next, r)) =>
            ghost var rest := Drain(bytes, cursor, remaining).relocs;
            assert out + ([r] + rest) == out + [r] + rest;
            out := out + [r];
        }
      }
    }
  }
}
