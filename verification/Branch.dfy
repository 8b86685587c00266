/** Lowering state: instructions are appended, labels recorded, and branch offsets patched at the end. */
module Branch {
  import opened Bytes
  import opened StaticCheck

  /** A branch emitted at byte `at`, to the label of source instruction `dest`. */
  datatype Pending = Pending(at: nat, dest: nat)

  /** Division rounding toward zero. */
  function TruncDiv8(x: int): int {
    if x >= 0 then x / 8 else -((-x) / 8)
  }

  /** The displacement in instructions, before it is cut to 16 bits. */
  function Slot(target: nat, at: nat): int {
    TruncDiv8(target - at - 8)
  }

  function Patch(body: seq<Byte>, target: nat, at: nat): (r: seq<Byte>)
    requires at + 8 <= |body|
    ensures |r| == |body|
  {
    Store(body, at + 2, ToLe(Slot(target, at) % 0x1_0000, 2))
  }

  ghost predicate Inside(body: seq<Byte>, ps: seq<Pending>) {
    forall p :: p in ps ==> p.at + 8 <= |body|
  }

  /** Patches in order until a label is missing; what was patched before stays patched. */
  function FixAll(body: seq<Byte>, labels: seq<nat>, ps: seq<Pending>): (r: (seq<Byte>, bool))
    requires Inside(body, ps)
    ensures |r.0| == |body|
    decreases |ps|
  {
    if |ps| == 0 then (body, true)
    else if ps[0].dest >= |labels| then (body, false)
    else FixAll(Patch(body, labels[ps[0].dest], ps[0].at), labels, ps[1..])
  }

  // ---------------------------------------------------------------- one branch

  ghost predicate Fits16(x: int) {
    -0x8000 <= x < 0x8000
  }

  /** Cutting to 16 bits keeps a displacement exactly when it fits. */
  lemma CutKeepsIff(x: int)
    ensures Signed16(x % 0x1_0000) == x <==> Fits16(x)
  {
  }

  lemma SlotAligned(target: nat, at: nat)
    requires target % 8 == 0 && at % 8 == 0
    ensures Slot(target, at) == target / 8 - at / 8 - 1
  {
  }

  lemma PatchReads(body: seq<Byte>, target: nat, at: nat)
    requires at + 8 <= |body|
    ensures U16At(Patch(body, target, at), at + 2) == Slot(target, at) % 0x1_0000
  {
    hide ToLe, FromLe, Store, Slot;
    var v := Slot(target, at) % 0x1_0000;
    StoreSlice(body, at + 2, ToLe(v, 2), 0, 0);
    Widths();
    LeRoundTrip(v, 2);
  }

  /** A patch changes nothing but its own two bytes. */
  lemma PatchKeeps(body: seq<Byte>, target: nat, at: nat, i: nat, j: nat)
    requires at + 8 <= |body| && i <= j <= |body|
    ensures j <= at + 2 || at + 4 <= i ==> Patch(body, target, at)[i..j] == body[i..j]
  {
    hide ToLe, Store, Slot;
    StoreSlice(body, at + 2, ToLe(Slot(target, at) % 0x1_0000, 2), i, j);
  }

  // ---------------------------------------------------------------- all of them

  /** Bytes `i..j` hold none of the offset fields. */
  ghost predicate Clear(ps: seq<Pending>, i: nat, j: nat) {
    forall p :: p in ps ==> j <= p.at + 2 || p.at + 4 <= i
  }

  lemma {:induction false} FixKeeps(body: seq<Byte>, labels: seq<nat>, ps: seq<Pending>, i: nat, j: nat)
    requires Inside(body, ps) && i <= j <= |body| && Clear(ps, i, j)
    ensures FixAll(body, labels, ps).0[i..j] == body[i..j]
    decreases |ps|
  {
    hide Patch;
    if |ps| > 0 && ps[0].dest < |labels| {
      PatchKeeps(body, labels[ps[0].dest], ps[0].at, i, j);
      FixKeeps(Patch(body, labels[ps[0].dest], ps[0].at), labels, ps[1..], i, j);
    }
  }

  /** Branches are whole instructions one after another. */
  ghost predicate Apart(ps: seq<Pending>) {
    forall i, j :: 0 <= i < j < |ps| ==> ps[i].at + 8 <= ps[j].at
  }

  ghost predicate Labelled(labels: seq<nat>, ps: seq<Pending>) {
    forall p :: p in ps ==> p.dest < |labels|
  }

  /** The fixup succeeds exactly when every label exists, and then every branch holds its own displacement. */
  lemma {:induction false} FixPatches(body: seq<Byte>, labels: seq<nat>, ps: seq<Pending>, k: nat)
    requires Inside(body, ps) && Apart(ps) && k < |ps| && Labelled(labels, ps)
    ensures U16At(FixAll(body, labels, ps).0, ps[k].at + 2) == Slot(labels[ps[k].dest], ps[k].at) % 0x1_0000
    decreases k
  {
    hide Patch, Slot, U16At;
    var p := ps[0];
    var body1 := Patch(body, labels[p.dest], p.at);
    if k == 0 {
      PatchReads(body, labels[p.dest], p.at);
      FixKeeps(body1, labels, ps[1..], p.at + 2, p.at + 4);
      SameU16(FixAll(body, labels, ps).0, body1, p.at + 2);
    } else {
      FixPatches(body1, labels, ps[1..], k - 1);
    }
  }

  lemma SameU16(a: seq<Byte>, b: seq<Byte>, at: nat)
    requires at + 2 <= |a| && at + 2 <= |b| && a[at..at + 2] == b[at..at + 2]
    ensures U16At(a, at) == U16At(b, at)
  {
  }

  lemma {:induction false} FixOkIff(body: seq<Byte>, labels: seq<nat>, ps: seq<Pending>)
    requires Inside(body, ps)
    ensures FixAll(body, labels, ps).1 <==> Labelled(labels, ps)
    decreases |ps|
  {
    hide Patch;
    if |ps| > 0 {
      if ps[0].dest < |labels| {
        FixOkIff(Patch(body, labels[ps[0].dest], ps[0].at), labels, ps[1..]);
        assert ps == [ps[0]] + ps[1..];
      } else {
        assert ps[0] in ps;
      }
    }
  }

  // ---------------------------------------------------------------- lowering runs

  datatype Op = Emit(insn: seq<Byte>) | EmitBranch(branch: seq<Byte>, dest: nat) | MarkLabel

  datatype Lowered = Lowered(body: seq<Byte>, labels: seq<nat>, pending: seq<Pending>)

  predicate WellSized(op: Op) {
    match op
    case Emit(insn) => |insn| % 8 == 0
    case EmitBranch(insn, _) => |insn| == 8
    case MarkLabel => true
  }

  function Apply(s: Lowered, op: Op): Lowered {
    match op
    case Emit(insn) => s.(body := s.body + insn)
    case EmitBranch(insn, dest) => s.(body := s.body + insn, pending := s.pending + [Pending(|s.body|, dest)])
    case MarkLabel => s.(labels := s.labels + [|s.body|])
  }

  function Runs(s: Lowered, ops: seq<Op>): Lowered {
    if |ops| == 0 then s else Apply(Runs(s, ops[..|ops| - 1]), ops[|ops| - 1])
  }

  lemma {:induction false} RunsConcat(s: Lowered, a: seq<Op>, b: seq<Op>)
    ensures Runs(s, a + b) == Runs(Runs(s, a), b)
    decreases |b|
  {
    hide Apply;
    if |b| == 0 {
      assert a + b == a;
    } else {
      RunsConcat(s, a, b[..|b| - 1]);
      assert (a + b)[..|a + b| - 1] == a + b[..|b| - 1];
    }
  }

  lemma {:induction false} RunsOnlyAdd(s: Lowered, ops: seq<Op>)
    ensures var r := Runs(s, ops); s.body <= r.body && s.labels <= r.labels && s.pending <= r.pending
    decreases |ops|
  {
    if |ops| > 0 {
      RunsOnlyAdd(s, ops[..|ops| - 1]);
    }
  }

  /**
   * What one operation of a run leaves behind for good: emitted code lies where the body ended then, a label is that
   * place, and a branch is remembered with that place and its own destination.
   */
  lemma OpLeavesMark(s: Lowered, before: seq<Op>, op: Op, rest: seq<Op>)
    ensures var a, z := Runs(s, before), Runs(s, before + [op] + rest);
            && a.body <= z.body && a.labels <= z.labels && a.pending <= z.pending
            && match op
               case Emit(code) => |a.body| + |code| <= |z.body| && z.body[|a.body|..|a.body| + |code|] == code
               case EmitBranch(code, dest) =>
                 && |a.body| + |code| <= |z.body| && z.body[|a.body|..|a.body| + |code|] == code
                 && |a.pending| < |z.pending| && z.pending[|a.pending|] == Pending(|a.body|, dest)
               case MarkLabel => |a.labels| < |z.labels| && z.labels[|a.labels|] == |a.body|
  {
    hide Runs;
    var a := Runs(s, before);
    RunsConcat(s, before, [op]);
    RunsConcat(s, before + [op], rest);
    RunsSingle(a, op);
    RunsOnlyAdd(Apply(a, op), rest);
  }

  lemma RunsSingle(s: Lowered, op: Op)
    ensures Runs(s, [op]) == Apply(s, op)
  {
    assert [op][..0] == [];
    assert Runs(s, []) == s;
  }

  ghost predicate Aligned(s: Lowered) {
    && |s.body| % 8 == 0
    && (forall i :: 0 <= i < |s.labels| ==> s.labels[i] % 8 == 0 && s.labels[i] <= |s.body|)
    && (forall i :: 0 <= i < |s.pending| ==> s.pending[i].at % 8 == 0 && s.pending[i].at + 8 <= |s.body|)
    && Apart(s.pending)
  }

  lemma ApplyAligned(s: Lowered, op: Op)
    requires Aligned(s) && WellSized(op)
    ensures Aligned(Apply(s, op))
  {
  }

  /** Every run of whole instructions keeps labels and branches on instruction boundaries. */
  lemma {:induction false} RunsAligned(s: Lowered, ops: seq<Op>)
    requires Aligned(s) && forall op :: op in ops ==> WellSized(op)
    ensures Aligned(Runs(s, ops))
    decreases |ops|
  {
    if |ops| > 0 {
      hide Aligned, WellSized, Apply;
      RunsAligned(s, ops[..|ops| - 1]);
      ApplyAligned(Runs(s, ops[..|ops| - 1]), ops[|ops| - 1]);
    }
  }

  const NOTHING := Lowered([], [], [])

  /** The slots between a branch and its label. */
  ghost function Distance(s: Lowered, k: nat): int
    requires k < |s.pending| && s.pending[k].dest < |s.labels|
  {
    s.labels[s.pending[k].dest] / 8 - s.pending[k].at / 8 - 1
  }

  ghost function Fixed(s: Lowered): seq<Byte>
    requires Aligned(s)
  {
    FixAll(s.body, s.labels, s.pending).0
  }

  lemma FixedOffset(s: Lowered, k: nat)
    requires Aligned(s) && Labelled(s.labels, s.pending) && k < |s.pending|
    ensures var i := s.pending[k].at / 8;
            i * 8 + 8 <= |Fixed(s)| && Off(Fixed(s), i) == Signed16(Distance(s, k) % 0x1_0000)
  {
    hide FixAll, U16At, Signed16;
    var p := s.pending[k];
    SlotAligned(s.labels[p.dest], p.at);
    FixPatches(s.body, s.labels, s.pending, k);
  }

  /**
   * After any lowering run and a successful fixup, a branch lands on its label exactly when the distance fits
   * in 16 bits.
   */
  lemma BranchLandsIff(ops: seq<Op>, k: nat)
    requires forall op :: op in ops ==> WellSized(op)
    requires var s := Runs(NOTHING, ops); Labelled(s.labels, s.pending) && k < |s.pending|
    ensures var s := Runs(NOTHING, ops);
            && Aligned(s)
            && var i := s.pending[k].at / 8;
               && i * 8 + 8 <= |Fixed(s)|
               && (i + 1 + Off(Fixed(s), i) == s.labels[s.pending[k].dest] / 8 <==> Fits16(Distance(s, k)))
  {
    RunsAligned(NOTHING, ops);
    var s := Runs(NOTHING, ops);
    hide Runs, Aligned, FixAll, Off;
    FixedOffset(s, k);
    CutKeepsIff(Distance(s, k));
  }

  /** A branch over 32768 instructions: the fixup succeeds, and the branch points 32767 slots before itself. */
  lemma FarBranchMisses(insn: seq<Byte>, filler: seq<Byte>)
    requires |insn| == 8 && |filler| == 8 * 0x8000
    ensures var s := Runs(NOTHING, [EmitBranch(insn, 0), Emit(filler), MarkLabel]);
            && Aligned(s) && Labelled(s.labels, s.pending) && s.pending == [Pending(0, 0)] && 8 <= |Fixed(s)|
            && s.labels[0] / 8 == 0x8001 && 0 + 1 + Off(Fixed(s), 0) == -0x7fff
  {
    hide FixAll, Off, Runs;
    RunsNothing();
    RunsSnoc(NOTHING, [], EmitBranch(insn, 0));
    RunsSnoc(NOTHING, [EmitBranch(insn, 0)], Emit(filler));
    RunsSnoc(NOTHING, [EmitBranch(insn, 0), Emit(filler)], MarkLabel);
    var s := Runs(NOTHING, [EmitBranch(insn, 0), Emit(filler), MarkLabel]);
    assert s == Lowered([] + insn + filler, [0x4_0008], [Pending(0, 0)]);
    FixedOffset(s, 0);
  }

  lemma RunsNothing()
    ensures Runs(NOTHING, []) == NOTHING
  {
  }

  lemma RunsSnoc(s: Lowered, ops: seq<Op>, op: Op)
    ensures Runs(s, ops + [op]) == Apply(Runs(s, ops), op)
    ensures |ops| == 0 ==> ops + [op] == [op]
    ensures |ops| == 1 ==> ops + [op] == [ops[0], op]
    ensures |ops| == 2 ==> ops + [op] == [ops[0], ops[1], op]
  {
    assert (ops + [op])[..|ops|] == ops;
  }

  /** All bytes outside the offset fields are what was emitted. */
  lemma OthersUnchanged(s: Lowered, i: nat, j: nat)
    requires Aligned(s) && i <= j <= |s.body| && Clear(s.pending, i, j)
    ensures Fixed(s)[i..j] == s.body[i..j]
  {
    FixKeeps(s.body, s.labels, s.pending, i, j);
  }

  /** The checker finds no bad branch at an instruction that was patched with a distance that fits. */
  lemma NoBadBranch(s: Lowered, k: nat)
    requires Aligned(s) && Labelled(s.labels, s.pending) && k < |s.pending| && Fits16(Distance(s, k))
    ensures var i := s.pending[k].at / 8;
            i * 8 + 8 <= |Fixed(s)| && (Fault(Fixed(s), i).Some? ==> !Fault(Fixed(s), i).value.BadBranch?)
  {
    hide FixAll, Off, Imm, Opcode, Dst, Src, Signed16;
    FixedOffset(s, k);
    CutKeepsIff(Distance(s, k));
    var p := s.pending[k];
    assert s.labels[p.dest] / 8 <= |s.body| / 8;
  }

  lemma BadBranchIsAFault(prog: seq<Byte>)
    requires Check(prog).Some? && Check(prog).value.BadBranch?
    ensures var i := Check(prog).value.at; i * 8 + 8 <= |prog| && Fault(prog, i) == Check(prog)
  {
    hide CheckFrom, Starts, FaultlessBefore, Off, Imm, Opcode, Dst, Src;
    CheckMeaning(prog);
    var k :| 0 <= k < |prog| / 8 && FirstFault(prog, k, Check(prog));
  }

  /** So whenever the checker does report a bad branch, it is not one of the patched ones. */
  lemma CheckerAgrees(s: Lowered)
    requires Aligned(s) && Labelled(s.labels, s.pending)
    requires forall k :: 0 <= k < |s.pending| ==> Fits16(Distance(s, k))
    ensures var e := Check(Fixed(s));
            e.Some? && e.value.BadBranch? ==> forall k :: 0 <= k < |s.pending| ==> s.pending[k].at != e.value.at * 8
  {
    hide Fixed, Aligned, Distance, Fault, Check;
    var e := Check(Fixed(s));
    if e.Some? && e.value.BadBranch? {
      BadBranchIsAFault(Fixed(s));
      forall k | 0 <= k < |s.pending|
        ensures s.pending[k].at != e.value.at * 8
      {
        NoBadBranch(s, k);
      }
    }
  }

  // ---------------------------------------------------------------- the state object

  class LowerState {
    var body: seq<Byte>
    var insnOffsets: seq<nat>
    var pendingBranches: seq<Pending>

    ghost function Value(): Lowered
      reads this
    {
      Lowered(body, insnOffsets, pendingBranches)
    }

    ghost predicate Ok()
      reads this
    {
      Inside(body, pendingBranches)
    }

    constructor ()
      ensures Value() == NOTHING && Ok()
    {
      body, insnOffsets, pendingBranches := [], [], [];
    }

    /** Appends a branch with an offset of zero and remembers where it is. */
    method EmitBranchPlaceholder(insn: seq<Byte>, dest: nat)
      requires |insn| == 8 && Ok()
      modifies this
      ensures Ok() && Value() == Apply(old(Value()), EmitBranch(insn, dest))
    {
      var pos := |body|;
      body := body + insn;
      pendingBranches := pendingBranches + [Pending(pos, dest)];
    }

    /** Records where the next source instruction starts. */
    method RecordLabel()
      requires Ok()
      modifies this
      ensures Ok() && Value() == Apply(old(Value()), MarkLabel)
    {
      insnOffsets := insnOffsets + [|body|];
    }

    /** Patches every pending branch; stops at the first whose label was never recorded. */
    method FixupBranches() returns (ok: bool)
      requires Ok()
      modifies this`body
      ensures Ok() && |body| == |old(body)|
      ensures (body, ok) == FixAll(old(body), insnOffsets, pendingBranches)
      ensures ok <==> Labelled(insnOffsets, pendingBranches)
    {
      hide Patch;
      FixOkIff(body, insnOffsets, pendingBranches);
      var i := 0;
      while i < |pendingBranches|
        invariant 0 <= i <= |pendingBranches| && |body| == |old(body)|
        invariant Inside(body, pendingBranches[i..])
        invariant FixAll(body, insnOffsets, pendingBranches[i..]) == FixAll(old(body), insnOffsets, pendingBranches)
      {
        var p := pendingBranches[i];
        assert p in pendingBranches && pendingBranches[i..][1..] == pendingBranches[i + 1..];
        if p.dest >= |insnOffsets| {
          return false;
        }
        body := Patch(body, insnOffsets[p.dest], p.at);
        i := i + 1;
      }
      return true;
    }
  }
}
