/** The structural checker for emitted eBPF. */
module StaticCheck {
  import opened Bytes

  datatype VerifyError =
    | BadLength(len: nat)
    | BadRegister(at: nat, reg: nat)
    | StackOob(at: nat, off: int)
    | BadBranch(at: nat, target: int)
    | DanglingLdDw(at: nat)
    | UnknownHelper(at: nat, helper: int)

  const HELPERS: set<int> := {1, 2, 5, 8, 14, 16, 35, 67, 113, 125, 131, 132, 182}

  /** Two's-complement reading of an unsigned field. */
  function Signed16(v: U16): (r: int)
    ensures -0x8000 <= r < 0x8000 && (r - v) % 0x1_0000 == 0
  {
    if v < 0x8000 then v else v - 0x1_0000
  }

  function Signed32(v: U32): (r: int)
    ensures -0x8000_0000 <= r < 0x8000_0000 && (r - v) % 0x1_0000_0000 == 0
  {
    if v < 0x8000_0000 then v else v - 0x1_0000_0000
  }

  /** A cast to 32 bits. */
  function AsI32(x: int): int {
    Signed32(x % 0x1_0000_0000)
  }

  function Opcode(prog: seq<Byte>, i: nat): Byte
    requires i * 8 + 8 <= |prog|
  {
    prog[i * 8]
  }

  function Off(prog: seq<Byte>, i: nat): int
    requires i * 8 + 8 <= |prog|
  {
    Signed16(U16At(prog, i * 8 + 2))
  }

  function Imm(prog: seq<Byte>, i: nat): int
    requires i * 8 + 8 <= |prog|
  {
    Signed32(U32At(prog, i * 8 + 4))
  }

  function Dst(prog: seq<Byte>, i: nat): nat
    requires i * 8 + 8 <= |prog|
  {
    prog[i * 8 + 1] % 16
  }

  function Src(prog: seq<Byte>, i: nat): nat
    requires i * 8 + 8 <= |prog|
  {
    prog[i * 8 + 1] / 16
  }

  /** Takes two slots. */
  predicate Wide(prog: seq<Byte>, i: nat)
    requires i * 8 + 8 <= |prog|
  {
    Opcode(prog, i) == 0x18
  }

  predicate IsBranch(op: Byte) {
    op % 8 == 5 && op != 0x95 && op != 0x85
  }

  /** What is wrong with the instruction in slot `i`, if anything. */
  function Fault(prog: seq<Byte>, i: nat): Option<VerifyError>
    requires i * 8 + 8 <= |prog|
  {
    var op, n := Opcode(prog, i), |prog| / 8;
    var base := if op % 8 == 1 then Src(prog, i) else Dst(prog, i);
    if Dst(prog, i) > 10 then Some(BadRegister(i, Dst(prog, i)))
    else if Src(prog, i) > 10 then Some(BadRegister(i, Src(prog, i)))
    else if op == 0x18 && (i + 1 >= n || Opcode(prog, i + 1) != 0) then Some(DanglingLdDw(i))
    else if 1 <= op % 8 <= 3 && base == 10 && !(-512 <= Off(prog, i) < 0) then Some(StackOob(i, Off(prog, i)))
    else if op == 0x85 && Src(prog, i) != 2 && (Src(prog, i) != 0 || Imm(prog, i) !in HELPERS) then
      Some(UnknownHelper(i, Imm(prog, i)))
    else if IsBranch(op) && !(0 <= i + 1 + Off(prog, i) <= n) then Some(BadBranch(i, AsI32(i + 1 + Off(prog, i))))
    else None
  }

  /** One instruction slot: opcode, registers, offset and immediate in the order of section 3 of RFC 9669. */
  function Insn(op: Byte, dst: nat, src: nat, off: int, imm: int): (r: seq<Byte>)
    requires dst < 16 && src < 16
    ensures |r| == 8
  {
    [op, dst + 16 * src] + ToLe(off % 0x1_0000, 2) + ToLe(imm % 0x1_0000_0000, 4)
  }

  /** Every field of an encoded slot is read back, signs included. */
  lemma InsnReads(prog: seq<Byte>, i: nat, op: Byte, dst: nat, src: nat, off: int, imm: int)
    requires dst < 16 && src < 16 && -0x8000 <= off < 0x8000 && -0x8000_0000 <= imm < 0x8000_0000
    requires i * 8 + 8 <= |prog| && prog[i * 8..i * 8 + 8] == Insn(op, dst, src, off, imm)
    ensures Opcode(prog, i) == op && Dst(prog, i) == dst && Src(prog, i) == src
    ensures Off(prog, i) == off && Imm(prog, i) == imm
  {
    hide ToLe, FromLe;
    var s, o, m := prog[i * 8..i * 8 + 8], off % 0x1_0000, imm % 0x1_0000_0000;
    assert prog[i * 8] == s[0] && prog[i * 8 + 1] == s[1];
    InsnParts(op, dst, src, off, imm);
    SliceInside(prog, i * 8, s, 2, 4);
    SliceInside(prog, i * 8, s, 4, 8);
    Widths();
    LeRoundTrip(o, 2);
    LeRoundTrip(m, 4);
    Nibbles(dst, src);
  }

  lemma InsnParts(op: Byte, dst: nat, src: nat, off: int, imm: int)
    requires dst < 16 && src < 16
    ensures var s := Insn(op, dst, src, off, imm);
            && s[0] == op && s[1] == dst + 16 * src
            && s[2..4] == ToLe(off % 0x1_0000, 2) && s[4..8] == ToLe(imm % 0x1_0000_0000, 4)
  {
    hide ToLe;
  }

  lemma Nibbles(lo: nat, hi: nat)
    requires lo < 16 && hi < 16
    ensures (lo + 16 * hi) % 16 == lo && (lo + 16 * hi) / 16 == hi
  {
  }

  /** The rules an instruction has to keep, one by one. */
  ghost predicate Obeys(prog: seq<Byte>, i: nat)
    requires i * 8 + 8 <= |prog|
  {
    var op, dst, src, off, n := Opcode(prog, i), Dst(prog, i), Src(prog, i), Off(prog, i), |prog| / 8;
    && dst <= 10 && src <= 10
    && (op == 0x18 ==> i + 1 < n && Opcode(prog, i + 1) == 0)
    && (op % 8 == 1 && src == 10 ==> -512 <= off < 0)
    && ((op % 8 == 2 || op % 8 == 3) && dst == 10 ==> -512 <= off < 0)
    && (op == 0x85 ==> src == 2 || (src == 0 && Imm(prog, i) in {1, 2, 5, 8, 14, 16, 35, 67, 113, 125, 131, 132, 182}))
    && (op % 8 == 5 && op !in {0x85, 0x95} ==> 0 <= i + 1 + off <= n)
  }

  lemma FaultlessIff(prog: seq<Byte>, i: nat)
    requires i * 8 + 8 <= |prog|
    ensures Fault(prog, i).None? <==> Obeys(prog, i)
  {
    hide Off, Imm, Dst, Src, Opcode;
  }

  ghost predicate Shape(prog: seq<Byte>) {
    prog != [] && |prog| % 8 == 0
  }

  function CheckFrom(prog: seq<Byte>, i: nat): Option<VerifyError>
    requires |prog| % 8 == 0
    decreases |prog| - i * 8
  {
    if i * 8 >= |prog| then None
    else if Fault(prog, i).Some? then Fault(prog, i)
    else CheckFrom(prog, i + if Wide(prog, i) then 2 else 1)
  }

  /** Decoding from slot 0 comes to slot `i`: an instruction starts there, or the program ends there. */
  ghost predicate Starts(prog: seq<Byte>, i: nat)
    requires |prog| % 8 == 0
  {
    || i == 0
    || (i >= 1 && i * 8 <= |prog| && Starts(prog, i - 1) && !Wide(prog, i - 1))
    || (i >= 2 && i * 8 <= |prog| && Starts(prog, i - 2) && Wide(prog, i - 2))
  }

  /** Slot `k` starts the first faulty instruction, and this is its fault. */
  ghost predicate FirstFault(prog: seq<Byte>, k: nat, e: Option<VerifyError>)
    requires |prog| % 8 == 0 && k * 8 + 8 <= |prog|
  {
    Starts(prog, k) && FaultlessBefore(prog, k) && Fault(prog, k) == e
  }

  ghost predicate FaultlessBefore(prog: seq<Byte>, i: nat)
    requires |prog| % 8 == 0
  {
    forall j :: 0 <= j < i && j * 8 < |prog| && Starts(prog, j) ==> Fault(prog, j).None?
  }

  /**
   * The check passes exactly when no instruction has a fault; otherwise it reports the fault of the first
   * faulty instruction. Second halves of wide instructions are not instructions.
   */
  lemma {:induction false} CheckFromMeaning(prog: seq<Byte>, i: nat)
    requires |prog| % 8 == 0 && i * 8 <= |prog| && Starts(prog, i) && FaultlessBefore(prog, i)
    ensures var e := CheckFrom(prog, i);
            && (e.None? <==> FaultlessBefore(prog, |prog| / 8))
            && (e.Some? ==> exists k :: 0 <= k < |prog| / 8 && FirstFault(prog, k, e))
    decreases |prog| - i * 8
  {
    hide Fault, Starts;
    if i * 8 < |prog| {
      if Fault(prog, i).Some? {
        assert FirstFault(prog, i, Fault(prog, i));
      } else {
        NextStarts(prog, i);
        var next := i + if Wide(prog, i) then 2 else 1;
        CheckFromMeaning(prog, next);
      }
    }
  }

  lemma NextStarts(prog: seq<Byte>, i: nat)
    requires |prog| % 8 == 0 && i * 8 < |prog| && Starts(prog, i) && FaultlessBefore(prog, i) && Fault(prog, i).None?
    ensures var next := i + if Wide(prog, i) then 2 else 1;
            next * 8 <= |prog| && Starts(prog, next) && FaultlessBefore(prog, next)
  {
    hide Dst, Src, Off, Imm;
    if Wide(prog, i) {
      assert i + 1 < |prog| / 8 && Opcode(prog, i + 1) == 0;
      assert !Starts(prog, i + 1);
    }
  }

  function Check(prog: seq<Byte>): Option<VerifyError> {
    if prog == [] || |prog| % 8 != 0 then Some(BadLength(|prog|)) else CheckFrom(prog, 0)
  }

  lemma CheckMeaning(prog: seq<Byte>)
    ensures Check(prog).None? <==> Shape(prog) && FaultlessBefore(prog, |prog| / 8)
    ensures Shape(prog) && Check(prog).Some? ==>
              exists k :: 0 <= k < |prog| / 8 && FirstFault(prog, k, Check(prog))
  {
    hide Fault, CheckFrom;
    if Shape(prog) {
      CheckFromMeaning(prog, 0);
    }
  }

  /** A program passes exactly when it is a whole number of slots and every instruction obeys the rules. */
  lemma PassesIff(prog: seq<Byte>)
    ensures Check(prog).None? <==> Shape(prog) && forall i :: 0 <= i < |prog| / 8 && Starts(prog, i) ==> Obeys(prog, i)
  {
    hide Fault, CheckFrom, Obeys, Starts;
    CheckMeaning(prog);
    if Shape(prog) {
      forall i | 0 <= i < |prog| / 8
        ensures Fault(prog, i).None? <==> Obeys(prog, i)
      {
        FaultlessIff(prog, i);
      }
    }
  }

  /** `static_check`: the index steps by one, or by two over a wide instruction. */
  method Run(prog: seq<Byte>) returns (e: Option<VerifyError>)
    ensures e == Check(prog)
  {
    hide Imm, Off, AsI32;
    if prog == [] || |prog| % 8 != 0 {
      return Some(BadLength(|prog|));
    }
    var n := |prog| / 8;
    var i := 0;
    while i < n
      invariant CheckFrom(prog, i) == CheckFrom(prog, 0)
    {
      var op, dst, src, off, imm := Opcode(prog, i), Dst(prog, i), Src(prog, i), Off(prog, i), Imm(prog, i);
      if dst > 10 {
        return Some(BadRegister(i, dst));
      }
      if src > 10 {
        return Some(BadRegister(i, src));
      }
      match op % 8 {
        case 0 =>
          if op == 0x18 {
            if i + 1 >= n || Opcode(prog, i + 1) != 0 {
              return Some(DanglingLdDw(i));
            }
            i := i + 2;
            continue;
          }
        case 1 =>
          if src == 10 && !(-512 <= off < 0) {
            return Some(StackOob(i, off));
          }
        case 2 =>
          if dst == 10 && !(-512 <= off < 0) {
            return Some(StackOob(i, off));
          }
        case 3 =>
          if dst == 10 && !(-512 <= off < 0) {
            return Some(StackOob(i, off));
          }
        case 5 =>
          if op == 0x95 {
          } else if op == 0x85 {
            if src != 2 && (src != 0 || imm !in HELPERS) {
              return Some(UnknownHelper(i, imm));
            }
          } else {
            var target := i + 1 + off;
            if target < 0 || target > n {
              return Some(BadBranch(i, AsI32(target)));
            }
          }
        case _ =>
      }
      i := i + 1;
    }
    return None;
  }
}
