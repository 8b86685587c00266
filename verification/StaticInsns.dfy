/** The structural check as a statement about instructions: which byte strings pass, said without its index loop. */
module StaticInsns {
  import opened Bytes
  import opened StaticCheck

  /** What a fault says about the instruction it is reported for. */
  ghost predicate FaultMeans(e: VerifyError, prog: seq<Byte>, i: nat)
    requires i * 8 + 8 <= |prog|
  {
    var op, dst, src, off, n := Opcode(prog, i), Dst(prog, i), Src(prog, i), Off(prog, i), |prog| / 8;
    match e
    case BadLength(_) => false
    case BadRegister(at, reg) => at == i && reg > 10 && (reg == dst || reg == src)
    case DanglingLdDw(at) => at == i && op == 0x18 && (i + 1 >= n || Opcode(prog, i + 1) != 0)
    case StackOob(at, o) =>
      && at == i && o == off && !(-512 <= off < 0)
      && ((op % 8 == 1 && src == 10) || ((op % 8 == 2 || op % 8 == 3) && dst == 10))
    case UnknownHelper(at, h) =>
      && at == i && op == 0x85 && h == Imm(prog, i) && src != 2
      && (src != 0 || h !in {1, 2, 5, 8, 14, 16, 35, 67, 113, 125, 131, 132, 182})
    case BadBranch(at, t) =>
      && at == i && op % 8 == 5 && op != 0x85 && op != 0x95
      && !(0 <= i + 1 + off <= n) && (t - (i + 1 + off)) % 0x1_0000_0000 == 0
  }

  /** Every fault names its own instruction and the rule it breaks. */
  lemma FaultIs(prog: seq<Byte>, i: nat)
    requires i * 8 + 8 <= |prog|
    ensures Fault(prog, i).Some? ==> FaultMeans(Fault(prog, i).value, prog, i)
  {
    hide Off, Imm, Dst, Src, Opcode, Signed32;
    CutTarget(i + 1 + Off(prog, i));
  }

  lemma CutTarget(t: int)
    ensures (AsI32(t) - t) % 0x1_0000_0000 == 0
  {
    Signed32Keeps(t % 0x1_0000_0000, t);
  }

  lemma Signed32Keeps(v: U32, t: int)
    requires v == t % 0x1_0000_0000
    ensures (Signed32(v) - t) % 0x1_0000_0000 == 0
  {
  }

  /** Eight bytes, or sixteen for a wide load, whose second half has a zero opcode. */
  predicate IsInsn(p: seq<Byte>) {
    (|p| == 8 && p[0] != 0x18) || (|p| == 16 && p[0] == 0x18 && p[8] == 0)
  }

  /** The rules for one instruction, in slot `slot` of a program of `n` slots. */
  predicate Lawful(p: seq<Byte>, slot: nat, n: nat)
    requires |p| >= 8
  {
    var group, dst, src, off := p[0] % 8, p[1] % 16, p[1] / 16, Signed16(U16At(p, 2));
    && dst <= 10 && src <= 10
    && (group == 1 && src == 10 ==> -512 <= off < 0)
    && ((group == 2 || group == 3) && dst == 10 ==> -512 <= off < 0)
    && (p[0] == 0x85 ==>
          src == 2 || (src == 0 && Signed32(U32At(p, 4)) in {1, 2, 5, 8, 14, 16, 35, 67, 113, 125, 131, 132, 182}))
    && (group == 5 && p[0] != 0x85 && p[0] != 0x95 ==> 0 <= slot + 1 + off <= n)
  }

  function Joined(ps: seq<seq<Byte>>): seq<Byte> {
    if |ps| == 0 then [] else ps[0] + Joined(ps[1..])
  }

  /** These instructions, laid out from slot `slot` on, all keep the rules. */
  ghost predicate AllLawful(ps: seq<seq<Byte>>, slot: nat, n: nat)
    decreases |ps|
  {
    |ps| == 0 || (IsInsn(ps[0]) && Lawful(ps[0], slot, n) && AllLawful(ps[1..], slot + |ps[0]| / 8, n))
  }

  /** The bytes that slot `i` of a program starts with. */
  lemma SlotReads(prog: seq<Byte>, i: nat, p: seq<Byte>)
    requires i * 8 + |p| <= |prog| && |p| >= 8 && prog[i * 8..i * 8 + |p|] == p
    ensures Opcode(prog, i) == p[0] && Dst(prog, i) == p[1] % 16 && Src(prog, i) == p[1] / 16
    ensures Off(prog, i) == Signed16(U16At(p, 2)) && Imm(prog, i) == Signed32(U32At(p, 4))
    ensures |p| == 16 ==> Opcode(prog, i + 1) == p[8]
  {
    hide FromLe, Signed16, Signed32;
    var at := i * 8;
    assert prog[at..at + |p|][0] == prog[at] && prog[at..at + |p|][1] == prog[at + 1];
    SliceInside(prog, at, p, 2, 4);
    SliceInside(prog, at, p, 4, 8);
    assert |p| == 16 ==> prog[at..at + |p|][8] == prog[at + 8];
  }

  /** The fault-free instruction in a slot is exactly a lawful instruction there. */
  lemma FaultlessInsn(prog: seq<Byte>, i: nat)
    requires i * 8 + 8 <= |prog| && |prog| % 8 == 0 && Fault(prog, i).None?
    ensures var w := if Wide(prog, i) then 16 else 8;
            i * 8 + w <= |prog| && IsInsn(prog[i * 8..i * 8 + w]) && Lawful(prog[i * 8..i * 8 + w], i, |prog| / 8)
  {
    hide Fault, Off, Imm, Dst, Src, U16At, U32At, Signed16, Signed32;
    FaultlessIff(prog, i);
    var w := if Wide(prog, i) then 16 else 8;
    SlotReads(prog, i, prog[i * 8..i * 8 + w]);
  }

  lemma LawfulIsFaultless(prog: seq<Byte>, i: nat, p: seq<Byte>)
    requires i * 8 + |p| <= |prog| && |prog| % 8 == 0 && IsInsn(p) && Lawful(p, i, |prog| / 8)
    requires prog[i * 8..i * 8 + |p|] == p
    ensures Fault(prog, i).None? && (Wide(prog, i) <==> |p| == 16)
  {
    hide Fault, Off, Imm, Dst, Src, U16At, U32At, Signed16, Signed32;
    SlotReads(prog, i, p);
    FaultlessIff(prog, i);
  }

  /** A program that passes can be cut into lawful instructions. */
  lemma {:induction false} CutUp(prog: seq<Byte>, i: nat) returns (ps: seq<seq<Byte>>)
    requires |prog| % 8 == 0 && i * 8 <= |prog| && CheckFrom(prog, i).None?
    ensures Joined(ps) == prog[i * 8..] && AllLawful(ps, i, |prog| / 8)
    decreases |prog| - i * 8
  {
    hide Fault, IsInsn, Lawful;
    if i * 8 == |prog| {
      ps := [];
    } else {
      FaultlessInsn(prog, i);
      var w := if Wide(prog, i) then 16 else 8;
      var rest := CutUp(prog, i + w / 8);
      ps := [prog[i * 8..i * 8 + w]] + rest;
      assert ps[1..] == rest;
      assert prog[i * 8..] == prog[i * 8..i * 8 + w] + prog[i * 8 + w..];
    }
  }

  lemma InsnSize(p: seq<Byte>)
    requires IsInsn(p)
    ensures |p| == 8 || |p| == 16
  {
  }

  /** Lawful instructions laid end to end pass. */
  lemma {:induction false} PutTogether(prog: seq<Byte>, i: nat, ps: seq<seq<Byte>>)
    requires |prog| % 8 == 0 && i * 8 <= |prog| && Joined(ps) == prog[i * 8..] && AllLawful(ps, i, |prog| / 8)
    ensures CheckFrom(prog, i).None?
    decreases |ps|
  {
    hide Fault, IsInsn, Lawful;
    if |ps| > 0 {
      var p, tail := ps[0], prog[i * 8..];
      InsnSize(p);
      assert tail[..|p|] == p && tail[|p|..] == Joined(ps[1..]);
      assert prog[i * 8..i * 8 + |p|] == p && prog[(i + |p| / 8) * 8..] == Joined(ps[1..]);
      LawfulIsFaultless(prog, i, p);
      PutTogether(prog, i + |p| / 8, ps[1..]);
    }
  }

  /** A program passes exactly when it is one or more lawful instructions, laid end to end. */
  lemma PassesIffInsns(prog: seq<Byte>)
    ensures Check(prog).None? <==>
            prog != [] && |prog| % 8 == 0 && exists ps :: Joined(ps) == prog && AllLawful(ps, 0, |prog| / 8)
  {
    hide CheckFrom, AllLawful, Joined;
    assert prog[0..] == prog;
    if Check(prog).None? {
      var ps := CutUp(prog, 0);
    }
    if prog != [] && |prog| % 8 == 0 {
      if ps :| Joined(ps) == prog && AllLawful(ps, 0, |prog| / 8) {
        PutTogether(prog, 0, ps);
      }
    }
  }
}
