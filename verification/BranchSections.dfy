/**
 * Several sections lowered into one body. A branch names its target by the number of a source instruction of its own
 * section; the fixup looks that number up among all labels recorded so far. `begin_section` clears the labels, but
 * the arguments of a printf are lowered one after another without it.
 */
module BranchSections {
  import opened Bytes
  import opened StaticCheck
  import opened Branch

  /** Labels cleared, as at the start of a section. */
  function Cleared(s: Lowered): Lowered {
    s.(labels := [])
  }

  /** A section's own labels: those it records, counted from its first source instruction. */
  function OwnLabels(s: Lowered, ops: seq<Op>): seq<nat> {
    Runs(Cleared(s), ops).labels
  }

  /** Labels kept from earlier sections come before the section's own and change nothing else. */
  lemma {:induction false} KeptLabels(s: Lowered, ops: seq<Op>)
    ensures Runs(s, ops) == Runs(Cleared(s), ops).(labels := s.labels + OwnLabels(s, ops))
    decreases |ops|
  {
    if |ops| == 0 {
      assert s.labels + [] == s.labels;
    } else {
      var n := |ops| - 1;
      KeptLabels(s, ops[..n]);
      var own := OwnLabels(s, ops[..n]);
      assert forall x: nat :: s.labels + own + [x] == s.labels + (own + [x]);
    }
  }

  /** The slot that branch `k` of the lowered state goes to once the offsets are patched. */
  ghost function Goes(s: Lowered, k: nat): int
    requires Aligned(s) && k < |s.pending|
  {
    s.pending[k].at / 8 + 1 + Off(Fixed(s), s.pending[k].at / 8)
  }

  /**
   * Whatever was lowered before, a branch of the section goes to its own target exactly when no code was emitted
   * between the label it is resolved with and its own one.
   */
  lemma OwnTargetIff(s: Lowered, ops: seq<Op>, k: nat)
    requires Aligned(s) && s.pending == [] && forall op :: op in ops ==> WellSized(op)
    requires var r, own := Runs(s, ops), OwnLabels(s, ops);
             k < |r.pending| && Labelled(own, r.pending) && Labelled(r.labels, r.pending) && Fits16(Distance(r, k))
    ensures var r, own := Runs(s, ops), OwnLabels(s, ops);
            && Aligned(r)
            && var d := r.pending[k].dest;
               && |r.labels| == |s.labels| + |own| && own[d] == r.labels[|s.labels| + d]
               && (Goes(r, k) == own[d] / 8 <==> r.labels[d] == r.labels[|s.labels| + d])
  {
    hide Runs, WellSized, FixAll, Off;
    RunsAligned(s, ops);
    KeptLabels(s, ops);
    var r := Runs(s, ops);
    FixedOffset(r, k);
    CutKeepsIff(Distance(r, k));
  }

  // ---------------------------------------------------------------- where source instructions emit code

  /** Code is emitted after every label but the last. */
  ghost predicate Increasing(labels: seq<nat>) {
    forall i, j :: 0 <= i < j < |labels| ==> labels[i] < labels[j]
  }

  /** A section may start where the one before it ended; otherwise code is emitted after every label. */
  ghost predicate Rising(labels: seq<nat>) {
    && (forall i, j :: 0 <= i < j < |labels| ==> labels[i] <= labels[j])
    && (forall i, j :: 0 <= i && i + 2 <= j < |labels| ==> labels[i] < labels[j])
  }

  /**
   * Where source instructions emit code, a branch goes to its own target exactly when the labels were cleared
   * before the section, or none had been recorded.
   */
  lemma OwnTargetIffCleared(s: Lowered, ops: seq<Op>, k: nat)
    requires Aligned(s) && s.pending == [] && forall op :: op in ops ==> WellSized(op)
    requires var r, own := Runs(s, ops), OwnLabels(s, ops);
             k < |r.pending| && Labelled(own, r.pending) && Labelled(r.labels, r.pending) && Fits16(Distance(r, k))
    requires |s.labels| != 1 && Rising(Runs(s, ops).labels)
    ensures var r, own := Runs(s, ops), OwnLabels(s, ops);
            Aligned(r) && (Goes(r, k) == own[r.pending[k].dest] / 8 <==> s.labels == [])
  {
    hide Runs, WellSized, Goes, Fixed, OwnLabels;
    OwnTargetIff(s, ops, k);
  }

  // ---------------------------------------------------------------- a whole chain of sections

  function Entered(s: Lowered, clears: bool): Lowered {
    if clears then Cleared(s) else s
  }

  ghost predicate WellSizedAll(ops: seq<Op>) {
    forall op :: op in ops ==> WellSized(op)
  }

  /** Lowers one section and patches its branches, after which none is pending. */
  ghost function Section(s: Lowered, ops: seq<Op>, clears: bool): (r: Lowered)
    requires Aligned(s) && WellSizedAll(ops)
    ensures Aligned(r) && r.pending == []
  {
    RunsAligned(Entered(s, clears), ops);
    var r := Runs(Entered(s, clears), ops);
    Lowered(Fixed(r), r.labels, [])
  }

  /** Every branch names an instruction of its section, and the distance it is patched with fits. */
  ghost predicate Resolves(s: Lowered, ops: seq<Op>, clears: bool) {
    var r := Runs(Entered(s, clears), ops);
    && Labelled(OwnLabels(s, ops), r.pending) && Labelled(r.labels, r.pending)
    && forall k :: 0 <= k < |r.pending| ==> Fits16(Distance(r, k))
  }

  /** A section has at least one source instruction, and each emits code. */
  ghost predicate Emits(s: Lowered, ops: seq<Op>) {
    |OwnLabels(s, ops)| >= 2 && Increasing(OwnLabels(s, ops))
  }

  ghost predicate Sound(s: Lowered, sections: seq<seq<Op>>, clears: bool)
    requires Aligned(s)
    decreases |sections|
  {
    |sections| > 0 ==>
      && WellSizedAll(sections[0]) && Resolves(s, sections[0], clears) && Emits(s, sections[0])
      && Sound(Section(s, sections[0], clears), sections[1..], clears)
  }

  ghost function Chain(s: Lowered, sections: seq<seq<Op>>, clears: bool): (r: Lowered)
    requires Aligned(s) && Sound(s, sections, clears)
    ensures Aligned(r) && (s.pending == [] ==> r.pending == [])
    decreases |sections|
  {
    if |sections| == 0 then s else Chain(Section(s, sections[0], clears), sections[1..], clears)
  }

  /** What is lowered before stays, and branches are only in what is added. */
  lemma {:induction false} RunsExtend(s: Lowered, ops: seq<Op>)
    requires s.pending == []
    ensures var r := Runs(s, ops); s.body <= r.body && forall p :: p in r.pending ==> |s.body| <= p.at
    decreases |ops|
  {
    if |ops| > 0 {
      RunsExtend(s, ops[..|ops| - 1]);
    }
  }

  lemma SectionExtends(s: Lowered, ops: seq<Op>, clears: bool)
    requires Aligned(s) && s.pending == [] && WellSizedAll(ops)
    ensures s.body <= Section(s, ops, clears).body
  {
    hide Runs, FixAll;
    var e := Entered(s, clears);
    RunsAligned(e, ops);
    RunsExtend(e, ops);
    var r := Runs(e, ops);
    OthersUnchanged(r, 0, |s.body|);
    assert Fixed(r)[0..|s.body|] == s.body;
  }

  lemma {:induction false} ChainExtends(s: Lowered, sections: seq<seq<Op>>, clears: bool)
    requires Aligned(s) && s.pending == [] && Sound(s, sections, clears)
    ensures s.body <= Chain(s, sections, clears).body
    decreases |sections|
  {
    hide Section, Aligned, Resolves, Emits, WellSizedAll;
    if |sections| > 0 {
      SectionExtends(s, sections[0], clears);
      ChainExtends(Section(s, sections[0], clears), sections[1..], clears);
    }
  }

  /** Labels as sections leave them: none, or at least the two of one section, the last one after code. */
  ghost predicate Tidy(labels: seq<nat>) {
    var n := |labels|;
    n != 1 && Rising(labels) && (n >= 2 ==> labels[n - 2] < labels[n - 1])
  }

  ghost predicate NotBefore(labels: seq<nat>, at: nat) {
    forall i :: 0 <= i < |labels| ==> at <= labels[i]
  }

  lemma {:induction false} OwnAfter(s: Lowered, ops: seq<Op>)
    ensures NotBefore(OwnLabels(s, ops), |s.body|) && |s.body| <= |Runs(Cleared(s), ops).body|
    decreases |ops|
  {
    if |ops| > 0 {
      OwnAfter(s, ops[..|ops| - 1]);
    }
  }

  lemma TidyConcat(kept: seq<nat>, own: seq<nat>, at: nat)
    requires Tidy(kept) && Increasing(own) && |own| >= 2 && NotBefore(own, at)
    requires forall i :: 0 <= i < |kept| ==> kept[i] <= at
    ensures Tidy(kept + own)
  {
    var n := |kept|;
    assert n >= 2 ==> forall i :: 0 <= i < n - 1 ==> kept[i] < kept[n - 1] <= at;
    assert forall j :: 1 <= j < |own| ==> at <= own[0] < own[j];
  }

  lemma SectionTidy(s: Lowered, ops: seq<Op>, clears: bool)
    requires Aligned(s) && Tidy(s.labels) && Emits(s, ops)
    ensures Tidy(Runs(Entered(s, clears), ops).labels)
  {
    hide Runs, Increasing, Rising, Tidy;
    OwnAfter(s, ops);
    KeptLabels(Entered(s, clears), ops);
    var kept := Entered(s, clears).labels;
    TidyNone();
    TidyConcat(kept, OwnLabels(s, ops), |s.body|);
  }

  lemma TidyNone()
    ensures Tidy([])
  {
  }

  /** Branch `k` of section `j` goes, in the finished body, to the slot of its own section's label. */
  ghost predicate GoesHome(s: Lowered, sections: seq<seq<Op>>, clears: bool, j: nat, k: nat)
    requires Aligned(s) && Sound(s, sections, clears) && j < |sections|
    decreases j
  {
    if j > 0 then
      GoesHome(Section(s, sections[0], clears), sections[1..], clears, j - 1, k)
    else
      var r, final := Runs(Entered(s, clears), sections[0]), Chain(s, sections, clears).body;
      && k < |r.pending|
      && var p := r.pending[k];
         p.dest < |OwnLabels(s, sections[0])| && p.at + 8 <= |final| && p.at % 8 == 0
         && p.at / 8 + 1 + Off(final, p.at / 8) == OwnLabels(s, sections[0])[p.dest] / 8
  }

  /** Section `j` has a branch `k`. */
  ghost predicate HasBranch(s: Lowered, sections: seq<seq<Op>>, clears: bool, j: nat, k: nat)
    requires Aligned(s) && Sound(s, sections, clears) && j < |sections|
    decreases j
  {
    if j > 0 then
      HasBranch(Section(s, sections[0], clears), sections[1..], clears, j - 1, k)
    else
      k < |Runs(Entered(s, clears), sections[0]).pending|
  }

  lemma OffFrame(a: seq<Byte>, b: seq<Byte>, i: nat)
    requires a <= b && i * 8 + 8 <= |a|
    ensures Off(a, i) == Off(b, i)
  {
    assert a[i * 8 + 2..i * 8 + 4] == b[i * 8 + 2..i * 8 + 4];
  }

  lemma FirstGoesHomeIff(s: Lowered, sections: seq<seq<Op>>, clears: bool, k: nat)
    requires Aligned(s) && s.pending == [] && Tidy(s.labels) && Sound(s, sections, clears) && |sections| > 0
    requires HasBranch(s, sections, clears, 0, k)
    ensures GoesHome(s, sections, clears, 0, k) <==> clears || s.labels == []
  {
    hide Runs, FixAll, Off, Rising, Increasing, WellSized;
    var e, ops := Entered(s, clears), sections[0];
    var r := Runs(e, ops);
    SectionTidy(s, ops, clears);
    OwnTargetIffCleared(e, ops, k);
    var next := Section(s, ops, clears);
    ChainExtends(next, sections[1..], clears);
    OffFrame(next.body, Chain(s, sections, clears).body, r.pending[k].at / 8);
  }

  /**
   * In a chain of any number of sections, a branch of a section after the first goes to its own target exactly when
   * the labels are cleared between sections; branches of the first section always do.
   */
  lemma {:induction false} ChainGoesHomeIff(s: Lowered, sections: seq<seq<Op>>, clears: bool, j: nat, k: nat)
    requires Aligned(s) && s.pending == [] && Tidy(s.labels) && Sound(s, sections, clears) && j < |sections|
    requires HasBranch(s, sections, clears, j, k)
    ensures GoesHome(s, sections, clears, j, k) <==> clears || (j == 0 && s.labels == [])
    decreases j
  {
    hide Aligned, Resolves, WellSizedAll, Tidy, Emits;
    if j == 0 {
      FirstGoesHomeIff(s, sections, clears, k);
    } else {
      SectionTidy(s, sections[0], clears);
      SectionLabels(s, sections[0], clears);
      ChainGoesHomeIff(Section(s, sections[0], clears), sections[1..], clears, j - 1, k);
    }
  }

  lemma SectionLabels(s: Lowered, ops: seq<Op>, clears: bool)
    requires Aligned(s) && WellSizedAll(ops) && Emits(s, ops)
    ensures Section(s, ops, clears).labels == Runs(Entered(s, clears), ops).labels != []
  {
    hide Runs;
    KeptLabels(Entered(s, clears), ops);
  }

  // ---------------------------------------------------------------- an input

  /**
   * Two sections, the second of a single branch to its own end: resolved with the first section's labels, the branch
   * goes to itself.
   */
  lemma SecondSectionLoops(code: seq<Byte>, insn: seq<Byte>)
    requires |code| == 8 && |insn| == 8
    ensures var s := Runs(NOTHING, [MarkLabel, Emit(code), MarkLabel]);
            var ops := [MarkLabel, EmitBranch(insn, 1), MarkLabel];
            var r := Runs(s, ops);
            && s.pending == [] && OwnLabels(s, ops) == [8, 16] && r.pending == [Pending(8, 1)]
            && Aligned(r) && Labelled(r.labels, r.pending) && Goes(r, 0) == 1
  {
    hide FixAll, Off, Runs;
    RunsNothing();
    RunsSnoc(NOTHING, [], MarkLabel);
    RunsSnoc(NOTHING, [MarkLabel], Emit(code));
    RunsSnoc(NOTHING, [MarkLabel, Emit(code)], MarkLabel);
    var s := Runs(NOTHING, [MarkLabel, Emit(code), MarkLabel]);
    assert s == Lowered([] + code, [0, 8], []);
    SecondSection(s, insn);
    SecondSection(Cleared(s), insn);
    var r := Runs(s, [MarkLabel, EmitBranch(insn, 1), MarkLabel]);
    assert [0, 8] + [8] + [16] == [0, 8, 8, 16];
    FixedOffset(r, 0);
  }

  lemma SecondSection(s: Lowered, insn: seq<Byte>)
    requires |insn| == 8 && s.pending == []
    ensures Runs(s, [MarkLabel, EmitBranch(insn, 1), MarkLabel]) ==
            Lowered(s.body + insn, s.labels + [|s.body|] + [|s.body| + 8], [Pending(|s.body|, 1)])
  {
    hide Runs;
    RunsNone(s);
    RunsSnoc(s, [], MarkLabel);
    RunsSnoc(s, [MarkLabel], EmitBranch(insn, 1));
    RunsSnoc(s, [MarkLabel, EmitBranch(insn, 1)], MarkLabel);
  }

  lemma RunsNone(s: Lowered)
    ensures Runs(s, []) == s
  {
  }
}
