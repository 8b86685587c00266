/** Whether jumps land on an instruction, in programs that pass the check and in lowered ones. */
module BranchTargets {
  import opened Bytes
  import opened StaticCheck
  import opened Branch

  // ---------------------------------------------------------------- programs that pass the check

  /** Slot `i` is the second half of a wide instruction. */
  ghost predicate SecondHalf(prog: seq<Byte>, i: nat)
    requires |prog| % 8 == 0
  {
    i >= 1 && i * 8 <= |prog| && Starts(prog, i - 1) && Wide(prog, i - 1)
  }

  /** Without faults every slot is either the start of an instruction or the second half of a wide one, never both. */
  lemma {:induction false} StartsIff(prog: seq<Byte>, i: nat)
    requires |prog| % 8 == 0 && i * 8 <= |prog| && FaultlessBefore(prog, |prog| / 8)
    ensures Starts(prog, i) <==> !SecondHalf(prog, i)
    decreases i
  {
    if i > 0 {
      StartsIff(prog, i - 1);
      if Starts(prog, i - 1) {
        NextAfter(prog, i - 1);
      }
    }
  }

  lemma NextAfter(prog: seq<Byte>, i: nat)
    requires |prog| % 8 == 0 && i * 8 < |prog| && Starts(prog, i) && FaultlessBefore(prog, |prog| / 8)
    ensures Starts(prog, i + 1) <==> !Wide(prog, i)
  {
    hide Dst, Src, Off, Imm;
    assert Fault(prog, i).None?;
    assert i > 0 && Starts(prog, i - 1) ==> Fault(prog, i - 1).None?;
  }

  /** A jump of either class: the 64-bit one without calls and exits, or the 32-bit one. */
  predicate IsJump(op: Byte) {
    IsBranch(op) || op % 8 == 6
  }

  /** Where a jump goes; the 32-bit unconditional jump has its offset in the immediate (section 4.3 of RFC 9669). */
  function Target(prog: seq<Byte>, i: nat): int
    requires i * 8 + 8 <= |prog|
  {
    i + 1 + if Opcode(prog, i) == 0x06 then Imm(prog, i) else Off(prog, i)
  }

  /** There is an instruction, and it starts in slot `t`. */
  ghost predicate LandsOn(prog: seq<Byte>, t: int)
    requires |prog| % 8 == 0
  {
    0 <= t && t * 8 < |prog| && Starts(prog, t)
  }

  /**
   * A jump of a program that passes lands on an instruction exactly when its target is a slot of the program and
   * not a second half. The check keeps 64-bit jumps within the program or at its very end, 32-bit ones nowhere.
   */
  lemma JumpLandsIff(prog: seq<Byte>, i: nat)
    requires Check(prog).None? && i * 8 + 8 <= |prog| && |prog| % 8 == 0 && Starts(prog, i) && IsJump(Opcode(prog, i))
    ensures var t := Target(prog, i);
            && (LandsOn(prog, t) <==> 0 <= t < |prog| / 8 && !SecondHalf(prog, t))
            && (IsBranch(Opcode(prog, i)) ==> 0 <= t <= |prog| / 8)
  {
    hide Fault, CheckFrom, Starts, Off, Imm, Opcode, Obeys;
    CheckMeaning(prog);
    FaultlessIff(prog, i);
    if IsBranch(Opcode(prog, i)) {
      BranchInRange(prog, i);
    }
    if 0 <= Target(prog, i) < |prog| / 8 {
      StartsIff(prog, Target(prog, i));
    }
  }

  lemma BranchInRange(prog: seq<Byte>, i: nat)
    requires i * 8 + 8 <= |prog| && |prog| % 8 == 0 && Obeys(prog, i) && IsBranch(Opcode(prog, i))
    ensures 0 <= i + 1 + Off(prog, i) && (i + 1 + Off(prog, i)) * 8 <= |prog|
  {
    hide Off, Opcode, Dst, Src, Imm;
  }

  /** A jump over one slot, then a wide load: it passes, and the jump goes into the middle of the load. */
  lemma PassesIntoWide()
    ensures var prog := Insn(0x05, 0, 0, 1, 0) + (Insn(0x18, 0, 0, 0, 0) + Insn(0, 0, 0, 0, 0));
            && Check(prog).None? && |prog| == 24 && Starts(prog, 0) && IsJump(Opcode(prog, 0))
            && Target(prog, 0) == 2 && !LandsOn(prog, 2)
  {
    hide Insn, Off, Imm, Dst, Src, Opcode, Check;
    var a, b, c := Insn(0x05, 0, 0, 1, 0), Insn(0x18, 0, 0, 0, 0), Insn(0, 0, 0, 0, 0);
    var prog := a + (b + c);
    assert prog[0..8] == a && prog[8..16] == b && prog[16..24] == c;
    InsnReads(prog, 0, 0x05, 0, 0, 1, 0);
    InsnReads(prog, 1, 0x18, 0, 0, 0, 0);
    InsnReads(prog, 2, 0, 0, 0, 0, 0);
    assert Starts(prog, 0) && Starts(prog, 1) && !Starts(prog, 2);
    PassesIff(prog);
  }

  /** A program of one jump to the next slot passes, and there is no next slot. */
  lemma PassesOffTheEnd()
    ensures var prog := Insn(0x05, 0, 0, 0, 0);
            && Check(prog).None? && |prog| == 8 && Starts(prog, 0) && IsJump(Opcode(prog, 0))
            && Target(prog, 0) == 1 && !LandsOn(prog, 1)
  {
    hide Insn, Off, Imm, Dst, Src, Opcode, Check;
    var prog := Insn(0x05, 0, 0, 0, 0);
    assert prog[0..8] == prog;
    InsnReads(prog, 0, 0x05, 0, 0, 0, 0);
    PassesIff(prog);
  }

  /** A program of one jump of the 32-bit class passes whatever its offset, and lands only if it jumps to itself. */
  lemma NarrowJumpPasses(off: int)
    requires -0x8000 <= off < 0x8000
    ensures var prog := Insn(0x16, 0, 0, off, 0);
            && Check(prog).None? && |prog| == 8 && Starts(prog, 0) && IsJump(Opcode(prog, 0))
            && Target(prog, 0) == 1 + off && (LandsOn(prog, 1 + off) <==> off == -1)
  {
    hide Insn, Off, Imm, Dst, Src, Opcode, Check;
    var prog := Insn(0x16, 0, 0, off, 0);
    assert prog[0..8] == prog;
    InsnReads(prog, 0, 0x16, 0, 0, off, 0);
    PassesIff(prog);
  }

  // ---------------------------------------------------------------- lowered programs

  /** A stretch of code that ends where an instruction would start. */
  ghost predicate Whole(code: seq<Byte>) {
    |code| % 8 == 0 && Starts(code, |code| / 8)
  }

  ghost predicate WholeOp(op: Op) {
    match op
    case Emit(code) => Whole(code)
    case EmitBranch(insn, _) => |insn| == 8 && insn[0] != 0x18
    case MarkLabel => true
  }

  lemma {:induction false} StartsPrefix(a: seq<Byte>, b: seq<Byte>, i: nat)
    requires |a| % 8 == 0 && |b| % 8 == 0 && i * 8 <= |a|
    ensures |a + b| % 8 == 0 && (Starts(a + b, i) <==> Starts(a, i))
    decreases i
  {
    if i >= 1 {
      StartsPrefix(a, b, i - 1);
      assert (a + b)[(i - 1) * 8] == a[(i - 1) * 8];
    }
    if i >= 2 {
      StartsPrefix(a, b, i - 2);
      assert (a + b)[(i - 2) * 8] == a[(i - 2) * 8];
    }
  }

  lemma {:induction false} StartsShift(a: seq<Byte>, b: seq<Byte>, i: nat)
    requires Whole(a) && |b| % 8 == 0 && i * 8 <= |b| && Starts(b, i)
    ensures |a + b| % 8 == 0 && Starts(a + b, |a| / 8 + i)
    decreases i
  {
    var n := |a| / 8;
    if i == 0 {
      StartsPrefix(a, b, n);
    } else if Starts(b, i - 1) && !Wide(b, i - 1) {
      StartsShift(a, b, i - 1);
      assert (a + b)[(n + i - 1) * 8] == b[(i - 1) * 8];
    } else {
      StartsShift(a, b, i - 2);
      assert (a + b)[(n + i - 2) * 8] == b[(i - 2) * 8];
    }
  }

  lemma WholeConcat(a: seq<Byte>, b: seq<Byte>)
    requires Whole(a) && Whole(b)
    ensures Whole(a + b)
  {
    StartsShift(a, b, |b| / 8);
  }

  lemma BranchIsWhole(insn: seq<Byte>)
    requires |insn| == 8 && insn[0] != 0x18
    ensures Whole(insn)
  {
    assert Starts(insn, 0) && !Wide(insn, 0);
  }

  /** The body is whole, and every label is where an instruction starts. */
  ghost predicate LabelsStart(s: Lowered) {
    Whole(s.body) && forall i :: 0 <= i < |s.labels| ==> s.labels[i] <= |s.body| && Starts(s.body, s.labels[i] / 8)
  }

  lemma AppendKeepsLabels(s: Lowered, code: seq<Byte>)
    requires LabelsStart(s) && Whole(code)
    ensures LabelsStart(s.(body := s.body + code))
  {
    hide Starts;
    WholeConcat(s.body, code);
    forall i | 0 <= i < |s.labels|
      ensures Starts(s.body + code, s.labels[i] / 8)
    {
      StartsPrefix(s.body, code, s.labels[i] / 8);
    }
  }

  lemma ApplyKeepsLabels(s: Lowered, op: Op)
    requires LabelsStart(s) && WholeOp(op)
    ensures LabelsStart(Apply(s, op)) && WellSized(op)
  {
    hide Starts;
    match op
    case Emit(code) => AppendKeepsLabels(s, code);
    case EmitBranch(insn, _) => BranchIsWhole(insn); AppendKeepsLabels(s, insn);
    case MarkLabel =>
  }

  lemma {:induction false} RunsKeepLabels(ops: seq<Op>)
    requires forall op :: op in ops ==> WholeOp(op)
    ensures LabelsStart(Runs(NOTHING, ops)) && forall op :: op in ops ==> WellSized(op)
    decreases |ops|
  {
    hide WholeOp, WellSized, Apply;
    if |ops| > 0 {
      hide LabelsStart;
      var n := |ops| - 1;
      RunsKeepLabels(ops[..n]);
      ApplyKeepsLabels(Runs(NOTHING, ops[..n]), ops[n]);
      assert ops == ops[..n] + [ops[n]];
    }
  }

  lemma {:induction false} StartsByOpcodes(p: seq<Byte>, q: seq<Byte>, i: nat)
    requires |p| == |q| && |p| % 8 == 0 && forall j :: 0 <= j < |p| / 8 ==> p[j * 8] == q[j * 8]
    ensures Starts(p, i) <==> Starts(q, i)
    decreases i
  {
    if i >= 1 { StartsByOpcodes(p, q, i - 1); }
    if i >= 2 { StartsByOpcodes(p, q, i - 2); }
  }

  /** Patching offsets moves no instruction. */
  lemma FixedStarts(s: Lowered, i: nat)
    requires Branch.Aligned(s)
    ensures |Fixed(s)| == |s.body| && (Starts(Fixed(s), i) <==> Starts(s.body, i))
  {
    hide FixAll, Starts;
    var f := Fixed(s);
    forall j | 0 <= j < |f| / 8
      ensures f[j * 8] == s.body[j * 8]
    {
      ClearOfOffsets(s, j);
      OthersUnchanged(s, j * 8, j * 8 + 1);
      assert f[j * 8..j * 8 + 1][0] == s.body[j * 8..j * 8 + 1][0];
    }
    StartsByOpcodes(f, s.body, i);
  }

  lemma ClearOfOffsets(s: Lowered, j: nat)
    requires Branch.Aligned(s)
    ensures Clear(s.pending, j * 8, j * 8 + 1)
  {
    forall p | p in s.pending
      ensures j * 8 + 1 <= p.at + 2 || p.at + 4 <= j * 8
    {
      assert p.at % 8 == 0;
    }
  }

  /**
   * After any run of whole instructions and a successful fixup, a branch lands on its label's instruction exactly
   * when the distance fits in 16 bits and code was emitted after the label.
   */
  lemma PatchedBranchLandsIff(ops: seq<Op>, k: nat)
    requires forall op :: op in ops ==> WholeOp(op)
    requires var s := Runs(NOTHING, ops); Labelled(s.labels, s.pending) && k < |s.pending|
    ensures var s := Runs(NOTHING, ops);
            && Branch.Aligned(s)
            && var i, to := s.pending[k].at / 8, s.labels[s.pending[k].dest];
               && i * 8 + 8 <= |Fixed(s)| && |Fixed(s)| % 8 == 0
               && var t := i + 1 + Off(Fixed(s), i);
                  t == to / 8 && LandsOn(Fixed(s), t) <==> Fits16(Distance(s, k)) && to < |s.body|
  {
    hide Runs, WholeOp, WellSized, FixAll, Off, Starts;
    RunsKeepLabels(ops);
    BranchLandsIff(ops, k);
    var s := Runs(NOTHING, ops);
    FixedStarts(s, s.labels[s.pending[k].dest] / 8);
  }

  /** A branch to a label at the end of the body: it reaches the label, and no instruction is there. */
  lemma EndLabelMisses(insn: seq<Byte>)
    requires |insn| == 8 && insn[0] != 0x18
    ensures var ops := [EmitBranch(insn, 0), MarkLabel];
            var s := Runs(NOTHING, ops);
            && (forall op :: op in ops ==> WholeOp(op)) && Branch.Aligned(s) && Labelled(s.labels, s.pending)
            && s.pending == [Pending(0, 0)] && s.labels == [8] && |Fixed(s)| == 8
            && 0 + 1 + Off(Fixed(s), 0) == 1 && !LandsOn(Fixed(s), 1)
  {
    hide Runs, FixAll, Off, Starts;
    RunsNothing();
    RunsSnoc(NOTHING, [], EmitBranch(insn, 0));
    RunsSnoc(NOTHING, [EmitBranch(insn, 0)], MarkLabel);
    var s := Runs(NOTHING, [EmitBranch(insn, 0), MarkLabel]);
    assert s == Lowered([] + insn, [8], [Pending(0, 0)]);
    FixedOffset(s, 0);
  }
}
