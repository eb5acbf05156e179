/** The symbol section of a chunk: every subroutine name with the offset of the instruction it stands before. */
module Subroutines {
  import opened Words
  import opened Isa
  import opened Symbolic
  import opened Assembly
  import opened AssemblyProofs
  import opened AssemblyTheorems

  /** A subroutine's name and the number of its first instruction. */
  datatype Sub = Sub(index: nat, name: string)

  function SubsOf(l: Line, at: nat): seq<Sub>
    decreases l
  {
    match l
    case Inner(block) => Subs(block, |block.lines|, at)
    case Define(name, sub) => if sub then [Sub(at, name)] else []
    case _ => []
  }

  /** The subroutines of the first `k` lines, inner blocks included, when the block's first instruction
  is number `n0`. */
  function Subs(b: Block, k: nat, n0: nat): seq<Sub>
    requires k <= |b.lines|
    decreases b, k
  {
    if k == 0 then [] else Subs(b, k - 1, n0) + SubsOf(b.lines[k - 1], n0 + Count(b, k - 1))
  }

  /** The names with byte offsets. */
  function Section(p: Program, subs: seq<Sub>): (r: seq<SymbolDef>)
    ensures |r| == |subs|
    ensures forall j :: 0 <= j < |subs| && subs[j].index <= |p| ==>
              r[j] == SymbolDef(Offset(p, subs[j].index), subs[j].name)
  {
    seq(|subs|, j requires 0 <= j < |subs| =>
      SymbolDef(if subs[j].index <= |p| then Offset(p, subs[j].index) else 0, subs[j].name))
  }

  ghost predicate InRange(subs: seq<Sub>, n: nat) { forall j :: 0 <= j < |subs| ==> subs[j].index <= n }

  lemma {:induction false} SubsInRange(b: Block, k: nat, n0: nat)
    requires k <= |b.lines|
    ensures InRange(Subs(b, k, n0), n0 + Count(b, k))
    decreases b, k
  {
    if k > 0 {
      SubsInRange(b, k - 1, n0);
      if b.lines[k - 1].Inner? {
        SubsInRange(b.lines[k - 1].block, |b.lines[k - 1].block.lines|, n0 + Count(b, k - 1));
      }
    }
  }

  /** Offsets depend on instruction sizes only, so longer programs and patched ones have the same section. */
  lemma {:induction false} SectionCong(p: Program, q: Program, subs: seq<Sub>)
    requires |p| <= |q| && InRange(subs, |p|) && forall j :: 0 <= j < |p| ==> p[j].Size() == q[j].Size()
    ensures Section(p, subs) == Section(q, subs)
  {
    forall j | 0 <= j < |subs|
      ensures Section(p, subs)[j] == Section(q, subs)[j]
    {
      OffsetCong(p, q, subs[j].index);
    }
  }

  lemma {:induction false} SectionConcat(p: Program, s: seq<Sub>, t: seq<Sub>)
    ensures Section(p, s + t) == Section(p, s) + Section(p, t)
  {
  }

  lemma {:induction false} BackpatchKeepsSymbols(out: Output, b: Block)
    ensures GenBlock(out, b).symbols
            == GenLines(Pass(out, map[], [], None), b, |b.lines|).out.symbols
  {
    hide GenLines, Backpatch;
  }

  lemma {:induction false} EmitKeepsSymbols(p: Pass, l: Line)
    requires Emits(l)
    ensures EmitLine(p, l).out.symbols == p.out.symbols
  {
    hide Encode;
  }

  /** One line adds its own subroutines. `d` is the program so far, `d'` with the line's instructions. */
  lemma {:induction false} LineSymbols(p: Pass, l: Line, d: Program, d': Program)
    requires Holds(p.out, d, 2) && |d| <= |d'|
    requires forall j :: 0 <= j < |d| ==> d'[j].Size() == d[j].Size()
    requires l.Inner? ==> d' == d + Generated(l.block, 0, |d|)
    ensures GenLine(p, l).out.symbols == p.out.symbols + Section(d', SubsOf(l, |d|))
    decreases l
  {
    hide EmitLine, GenBlock, Generated, Holds;
    if l.Inner? {
      BlockSymbols(p.out, d, l.block);
    } else if l.Define? {
      HoldsSize(p.out, d, 2);
      OffsetCong(d, d', |d|);
    } else if Emits(l) {
      EmitKeepsSymbols(p, l);
    }
  }

  lemma {:induction false} SubsStep(b: Block, k: nat, n0: nat)
    requires k < |b.lines|
    ensures Subs(b, k + 1, n0) == Subs(b, k, n0) + SubsOf(b.lines[k], n0 + Count(b, k))
  {
  }

  lemma {:induction false} PassSymbols(p: Pass, b: Block, k: nat, q: Program)
    requires k <= |b.lines| && Passed(p, b, 0, q, 2)
    ensures GenLines(p, b, k).out.symbols == p.out.symbols + Section(q + Drafted(b, k, |q|), Subs(b, k, |q|))
    decreases b, k
  {
    hide GenLine, Drafted, Passed, DraftedLine, Subs, SubsOf, Section, Holds, Generated, GenLines;
    if k > 0 {
      var n0 := |q|;
      PassSymbols(p, b, k - 1, q);
      FirstPass(p, q, b, k - 1, 2);
      GenLinesStep(p, b, k - 1);
      DraftedParts(q, b, k - 1);
      PassedHolds(GenLines(p, b, k - 1), b, k - 1, q);
      LineSymbols(GenLines(p, b, k - 1), b.lines[k - 1], q + Drafted(b, k - 1, n0), q + Drafted(b, k, n0));
      SubsInRange(b, k - 1, n0);
      SectionCong(q + Drafted(b, k - 1, n0), q + Drafted(b, k, n0), Subs(b, k - 1, n0));
      SubsStep(b, k - 1, n0);
      SectionConcat(q + Drafted(b, k, n0), Subs(b, k - 1, n0), SubsOf(b.lines[k - 1], n0 + Count(b, k - 1)));
    } else {
      NoneYet(p, b, q);
    }
  }

  lemma {:induction false} NoneYet(p: Pass, b: Block, q: Program)
    ensures GenLines(p, b, 0).out.symbols == p.out.symbols + Section(q + Drafted(b, 0, |q|), Subs(b, 0, |q|))
  {
  }

  lemma {:induction false} PassedHolds(p: Pass, b: Block, k: nat, q: Program)
    requires k <= |b.lines| && Passed(p, b, k, q, 2)
    ensures Holds(p.out, q + Drafted(b, k, |q|), 2)
  {
    hide Holds, LabelsKnown, Pending, Drafted;
  }

  lemma {:induction false} DraftedParts(q: Program, b: Block, k: nat)
    requires k < |b.lines|
    ensures var d, d' := q + Drafted(b, k, |q|), q + Drafted(b, k + 1, |q|);
      && |d| == |q| + Count(b, k) && |d| <= |d'|
      && (forall j :: 0 <= j < |d| ==> d'[j] == d[j])
      && (b.lines[k].Inner? ==> d' == d + Generated(b.lines[k].block, 0, |d|))
  {
    hide Generated;
    DraftedLength(b, k, |q|);
    var x := DraftedLine(b, k, |q|);
    assert q + Drafted(b, k + 1, |q|) == q + Drafted(b, k, |q|) + x;
  }

  /** Processing a block appends its subroutines, at the offsets of their instructions. */
  lemma {:induction false} BlockSymbols(out: Output, q: Program, b: Block)
    requires Holds(out, q, 2)
    ensures GenBlock(out, b).symbols == out.symbols + Section(q + Generated(b, 0, |q|), Subs(b, |b.lines|, |q|))
    decreases b, |b.lines| + 1
  {
    hide GenLines, GenBlock, Holds, Passed, Generated, Drafted;
    var n, n0 := |b.lines|, |q|;
    PassedStart(out, q, b, 2);
    PassSymbols(Pass(out, map[], [], None), b, n, q);
    BackpatchKeepsSymbols(out, b);
    SubsInRange(b, n, n0);
    DraftedLength(b, n, n0);
    FinalSizes(q, b);
    SectionCong(q + Drafted(b, n, n0), q + Generated(b, 0, n0), Subs(b, n, n0));
  }

  lemma {:induction false} FinalSizes(q: Program, b: Block)
    ensures var d, g := q + Drafted(b, |b.lines|, |q|), q + Generated(b, 0, |q|);
      |d| == |g| && forall j :: 0 <= j < |d| ==> d[j].Size() == g[j].Size()
  {
    hide Drafted, Generated, PatchStep;
    var ms := MixedSteps(q, b);
    StepsSizes(ms, b, |q|, |b.lines|);
  }

  lemma {:induction false} StepsSizes(ms: seq<Program>, b: Block, n0: nat, k: nat)
    requires PatchSteps(ms, b, n0) && k <= |b.lines|
    ensures |ms[0]| == |ms[k]| && forall j :: 0 <= j < |ms[0]| ==> ms[0][j].Size() == ms[k][j].Size()
  {
    hide PatchStep;
    if k > 0 {
      StepsSizes(ms, b, n0, k - 1);
      assert PatchStep(ms[k - 1 + 1], ms[k - 1], b, k - 1, n0);
      PatchStepSizes(ms[k], ms[k - 1], b, k - 1, n0);
    }
  }

  lemma {:induction false} NoneCounted(b: Block)
    ensures Count(b, 0) == 0
  {
  }

  /** The symbol section of any block's chunk: each subroutine label, at any depth, in order, with the
  offset of the instruction it stands before. */
  lemma {:induction false} SymbolSection(b: Block)
    ensures GenBlock(EMPTY_OUTPUT, b).symbols == Section(Resolved(b, 0, 0), Subs(b, |b.lines|, 0))
    ensures InRange(Subs(b, |b.lines|, 0), |Resolved(b, 0, 0)|)
  {
    hide GenBlock, Generated, Resolved, Subs, Holds, Section, Count;
    EmptyHolds(2);
    BlockSymbols(EMPTY_OUTPUT, [], b);
    assert [] + Generated(b, 0, 0) == Generated(b, 0, 0);
    LayoutsMatch(b, 0, 0);
    GeneratedLength(b, 0, 0);
    NoneCounted(b);
    SubsInRange(b, |b.lines|, 0);
    SectionCong(Generated(b, 0, 0), Resolved(b, 0, 0), Subs(b, |b.lines|, 0));
  }
}
