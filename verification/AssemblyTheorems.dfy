/** What the one-pass generator guarantees, and exactly when. */
module AssemblyTheorems {
  import opened Words
  import opened Isa
  import opened Symbolic
  import opened Assembly
  import opened AssemblyProofs

  /** Without forward calls the generator's program is the one meant. */
  lemma {:induction false} GeneratedIsResolved(b: Block, k: nat, n0: nat)
    requires k <= |b.lines| && NoForwardCall(b)
    ensures Generated(b, k, n0) == Resolved(b, k, n0)
    decreases b, |b.lines| - k
  {
    if k < |b.lines| {
      assert !Offends(b, k);
      GeneratedIsResolved(b, k + 1, n0);
      ForwardShift(b, k, n0);
      if b.lines[k].Inner? {
        GeneratedIsResolved(b.lines[k].block, 0, n0 + Count(b, k));
      }
    }
  }

  lemma {:induction false} EmptyHolds(from: nat)
    ensures Holds(EMPTY_OUTPUT, [], from)
  {
  }

  /** The program of a block without forward calls, with the sections the loader needs. */
  lemma {:induction false} ChunkOfBlock(b: Block)
    requires NoForwardCall(b)
    ensures var chunk, p := GenBlock(EMPTY_OUTPUT, b), Resolved(b, 0, 0);
      && chunk.code == Assemble(LaidOut(p)) == TwoPass(b)
      && chunk.relocs == Relocations(p) && chunk.constants == Constants(p)
      && Grounded(p)
  {
    EmptyHolds(0);
    BlockHolds(EMPTY_OUTPUT, [], b, 0);
    GeneratedIsResolved(b, 0, 0);
    assert [] + Resolved(b, 0, 0) == Resolved(b, 0, 0);
    AgreesExactly(GenBlock(EMPTY_OUTPUT, b).code, LaidOut(Resolved(b, 0, 0)));
  }

  // ---------------------------------------------------------------- forward calls

  /** A forward call at index `j`: where it is, what it means, and what it became. */
  ghost predicate Misplaced(g: Program, r: Program, j: nat, i: nat) {
    && j < |g| == |r| && j < i
    && g[j].field == Late(i) && r[j].field == Target(i)
    && g[j].tagged && g[j].pre == [] && g[j].width == 8 && |g[j].post| == 1
    && g[j].op == r[j].op && g[j].Layout() == r[j].Layout()
  }

  lemma {:induction false} LaterLabel(b: Block, k: nat, m: nat, n0: nat, name: string)
    requires k < m <= |b.lines| && Emits(b.lines[k])
    requires LabelAt(b, k, n0, name).None? && LabelAt(b, m, n0, name).Some?
    ensures LabelAt(b, m, n0, name).value > n0 + Count(b, k)
  {
    if b.lines[m - 1].Define? && b.lines[m - 1].name == name {
      if m - 1 == k { assert false; }
      CountMonotone(b, k + 1, m - 1);
    } else if m - 1 > k {
      LaterLabel(b, k, m - 1, n0, name);
    }
  }

  lemma {:induction false} MisplacedHere(b: Block, k: nat, n0: nat)
    requires k < |b.lines| && ForwardCall(b, k, n0)
    ensures Misplaced(GeneratedLine(b, k, n0), ResolvedLine(b, k, n0), 0, Meant(b, k, n0).index)
    ensures Meant(b, k, n0).index > n0 + Count(b, k)
  {
    LaterLabel(b, k, |b.lines|, n0, b.lines[k].name);
  }

  /** Index arithmetic for programs put together from parts. */
  lemma {:induction false} MisplacedIn(g0: Program, g: Program, g1: Program, r0: Program, r: Program, r1: Program,
      j: nat, i: nat)
    requires |g0| == |r0| && |g1| == |r1|
    requires Misplaced(g, r, j, i) && |g0| + j < i
    ensures Misplaced(g0 + g + g1, r0 + r + r1, |g0| + j, i)
  {
  }

  /** Wherever a block calls forward, at whatever depth, one instruction gets a misplaced address. */
  lemma {:induction false} FindMisplaced(b: Block, k: nat, n0: nat) returns (j: nat, i: nat)
    requires k <= |b.lines|
    requires exists m :: k <= m < |b.lines| && Offends(b, m)
    ensures Misplaced(Generated(b, k, n0), Resolved(b, k, n0), j, i)
    ensures i > n0 + Count(b, k) + j
    decreases b, |b.lines| - k + 1
  {
    hide GeneratedLine, ResolvedLine, Misplaced, Offends;
    var m :| k <= m < |b.lines| && Offends(b, m);
    var g, r := GeneratedLine(b, k, n0), ResolvedLine(b, k, n0);
    var g1, r1 := Generated(b, k + 1, n0), Resolved(b, k + 1, n0);
    GeneratedLength(b, k + 1, n0);
    LineLength(b, k, n0);
    if Offends(b, k) {
      j, i := FindMisplacedInLine(b, k, n0);
      MisplacedIn([], g, g1, [], r, r1, j, i);
      assert [] + g + g1 == g + g1 && [] + r + r1 == r + r1;
    } else {
      j, i := FindMisplaced(b, k + 1, n0);
      MisplacedIn(g, g1, [], r, r1, [], j, i);
      assert g + g1 + [] == g + g1 && r + r1 + [] == r + r1;
      j := |g| + j;
    }
  }

  lemma {:induction false} Offender(b: Block) returns (m: nat)
    requires !NoForwardCall(b)
    ensures m < |b.lines| && Offends(b, m)
  {
    assert !(forall k :: 0 <= k < |b.lines| ==> !Offends(b, k));
    m :| m < |b.lines| && Offends(b, m);
  }

  lemma {:induction false} FindMisplacedInLine(b: Block, k: nat, n0: nat) returns (j: nat, i: nat)
    requires k < |b.lines| && Offends(b, k)
    ensures Misplaced(GeneratedLine(b, k, n0), ResolvedLine(b, k, n0), j, i)
    ensures i > n0 + Count(b, k) + j
    decreases b, 0
  {
    ForwardShift(b, k, n0);
    if ForwardCall(b, k, 0) {
      MisplacedHere(b, k, n0);
      j, i := 0, Meant(b, k, n0).index;
    } else {
      var inner := b.lines[k].block;
      var m := Offender(inner);
      j, i := FindMisplaced(inner, 0, n0 + Count(b, k));
    }
  }

  /** Three bytes of displacement change every address but zero. */
  lemma {:induction false} DisplacedDiffers(d: u64)
    requires d > 0
    ensures Little(8, Displaced(d)) != Little(8, d)
  {
    LittleShifted(d);
    var s := Little(8, d);
    if Little(8, Displaced(d)) == s {
      var t := [0, 0, 0] + s[..5];
      assert s[0] == t[0] == 0 && s[1] == t[1] == 0 && s[2] == t[2] == 0;
      assert s[3] == t[3] == s[0] && s[4] == t[4] == s[1] && s[5] == t[5] == s[2];
      assert s[6] == t[6] == s[3] && s[7] == t[7] == s[4];
      assert s == [0, 0, 0, 0, 0, 0, 0, 0];
      LittleZero(8);
      assert s == Little(8, 0);
      PowerFacts();
      LittleInjective(8, d, 0);
    }
  }

  lemma {:induction false} SameField(code: seq<byte>, p: seq<Instr<nat>>, q: seq<Instr<nat>>, j: nat)
    requires Agrees(code, p, 2) && Agrees(code, q, 2) && j < |p| == |q| && Offset(p, j) == Offset(q, j)
    requires p[j].tagged && p[j].pre == [] && p[j].width == 8 && q[j].Layout() == p[j].Layout()
    ensures Little(8, p[j].field) == Little(8, q[j].field)
  {
    hide Encode, Offset, Little;
    EncodeParts(p[j]);
    EncodeParts(q[j]);
    forall b | 0 <= b < 8
      ensures Little(8, p[j].field)[b] == Little(8, q[j].field)[b]
    {
      assert ByteAgrees(code, p, j, 4 + b) && ByteAgrees(code, q, j, 4 + b);
      assert Encode(p[j])[4 + b] == Encode(p[j])[4..12][b];
      assert Encode(q[j])[4 + b] == Encode(q[j])[4..12][b];
    }
  }

  lemma {:induction false} MisplacedFields(g: Program, r: Program, j: nat, i: nat)
    requires Misplaced(g, r, j, i) && i <= |r|
    requires forall k :: 0 <= k < |g| ==> g[k].Layout() == r[k].Layout()
    ensures var x, y := LaidOut(g)[j], LaidOut(r)[j];
      && x.field == Displaced(Offset(g, i)) && y.field == Offset(g, i)
      && x.tagged && x.pre == [] && x.width == 8 && y.Layout() == x.Layout()
    ensures Offset(LaidOut(g), j) == Offset(LaidOut(r), j)
  {
    hide Displaced, Offset;
    OffsetCong(g, r, i);
    OffsetCong(g, r, j);
    LaidOutOffset(g, j);
    LaidOutOffset(r, j);
  }

  lemma {:induction false} AgreesWeaker(code: seq<byte>, p: seq<Instr<nat>>)
    requires Agrees(code, p, 0)
    ensures Agrees(code, p, 2)
  {
  }

  /** The field of a misplaced call holds the wrong bytes, whatever else was patched around it. */
  lemma {:induction false} MisplacedBytes(code: seq<byte>, g: Program, r: Program, j: nat, i: nat)
    requires Misplaced(g, r, j, i) && Agrees(code, LaidOut(g), 2) && i <= |r|
    requires forall k :: 0 <= k < |g| ==> g[k].Layout() == r[k].Layout()
    requires Offset(g, |g|) < TWO64
    ensures code != Assemble(LaidOut(r))
  {
    hide Assemble, Agrees, LaidOut, Displaced, Offset, Little;
    if code == Assemble(LaidOut(r)) {
      OffsetMonotone(g, i, |g|);
      OffsetMonotone(g, j, i);
      AgreesExactly(code, LaidOut(r));
      AgreesWeaker(code, LaidOut(r));
      MisplacedFields(g, r, j, i);
      SameField(code, LaidOut(g), LaidOut(r), j);
      DisplacedDiffers(Offset(g, i));
    }
  }

  lemma {:induction false} LayoutsMatch(b: Block, k: nat, n0: nat)
    requires k <= |b.lines|
    ensures |Generated(b, k, n0)| == |Resolved(b, k, n0)|
    ensures forall j :: 0 <= j < |Generated(b, k, n0)| ==>
              Generated(b, k, n0)[j].Layout() == Resolved(b, k, n0)[j].Layout()
    decreases b, |b.lines| - k
  {
    hide Final, Meant, Count;
    if k < |b.lines| {
      LayoutsMatch(b, k + 1, n0);
      if b.lines[k].Inner? {
        LayoutsMatch(b.lines[k].block, 0, n0 + Count(b, k));
      }
    }
  }

  /** Whatever the block, the generated program is right but for the start of its instructions. */
  lemma {:induction false} GeneratedAgrees(b: Block)
    ensures var g, code := Generated(b, 0, 0), GenBlock(EMPTY_OUTPUT, b).code;
      Agrees(code, LaidOut(g), 2) && Grounded(g) && |code| == Offset(g, |g|)
  {
    hide GenBlock, Generated;
    EmptyHolds(2);
    BlockHolds(EMPTY_OUTPUT, [], b, 2);
    assert [] + Generated(b, 0, 0) == Generated(b, 0, 0);
    LaidOutOffset(Generated(b, 0, 0), |Generated(b, 0, 0)|);
  }

  lemma {:induction false} GroundedAt(g: Program, j: nat)
    requires Grounded(g) && j < |g|
    ensures GroundedIn(g[j].field, |g|)
  {
  }

  /** The one-pass generator with back-patching writes what the two-pass reference assembler writes
  exactly when no block calls forward. Duplicate, undefined and nested labels are all allowed. */
  lemma {:induction false} OnePassIsTwoPass(b: Block)
    requires |GenBlock(EMPTY_OUTPUT, b).code| < TWO64
    ensures GenBlock(EMPTY_OUTPUT, b).code == TwoPass(b) <==> NoForwardCall(b)
  {
    hide GenBlock, Generated, Resolved, Assemble, Agrees, Relocations, Constants, Lay, NoForwardCall, Grounded;
    if NoForwardCall(b) {
      ChunkOfBlock(b);
    } else {
      var g, r := Generated(b, 0, 0), Resolved(b, 0, 0);
      var m := Offender(b);
      var j, i := FindMisplaced(b, 0, 0);
      GeneratedAgrees(b);
      LayoutsMatch(b, 0, 0);
      GroundedAt(g, j);
      MisplacedBytes(GenBlock(EMPTY_OUTPUT, b).code, g, r, j, i);
    }
  }

  /** A call to the label that follows it: its address field reads 13 * 2^24 instead of 13. */
  lemma {:induction false} ForwardCallExample()
    ensures var b := Block([ReferCall(CALL, 129, "f"), Define("f", true),
                            Plain(Instr(DIE, false, [], 0, (), []), Raw(0))]);
      && !NoForwardCall(b)
      && |Resolved(b, 0, 0)| > 0 && |Generated(b, 0, 0)| > 0
      && Resolved(b, 0, 0)[0].field == Target(1) && Generated(b, 0, 0)[0].field == Late(1)
      && FieldOf(Resolved(b, 0, 0), 0) == 13
      && FieldOf(Generated(b, 0, 0), 0) == 13 * 0x100_0000
  {
    var b := Block([ReferCall(CALL, 129, "f"), Define("f", true), Plain(Instr(DIE, false, [], 0, (), []), Raw(0))]);
    assert Count(b, 1) == Count(b, 0) + LineCount(b.lines[0]) == 1;
    assert LabelAt(b, 2, 0, "f") == Some(1);
    assert LabelAt(b, 3, 0, "f") == Some(1);
    assert LabelAt(b, 0, 0, "f") == None;
    assert Offends(b, 0);
    var g, r := Generated(b, 0, 0), Resolved(b, 0, 0);
    assert g == GeneratedLine(b, 0, 0) + Generated(b, 1, 0);
    assert r == ResolvedLine(b, 0, 0) + Resolved(b, 1, 0);
    GeneratedLength(b, 1, 0);
    assert Offset(g, 1) == Offset(g, 0) + g[0].Size() == 13;
    assert Offset(r, 1) == Offset(r, 0) + r[0].Size() == 13;
  }

  // ---------------------------------------------------------------- well-formedness of the program

  lemma {:induction false} ResolvedWellFormed(b: Block, k: nat, n0: nat)
    requires k <= |b.lines| && WellFormed(b)
    ensures WellTyped(Resolved(b, k, n0))
    ensures forall j :: 0 <= j < |Resolved(b, k, n0)| ==> Resolved(b, k, n0)[j].Known()
    decreases b, |b.lines| - k
  {
    if k < |b.lines| {
      ResolvedWellFormed(b, k + 1, n0);
      if b.lines[k].Inner? {
        ResolvedWellFormed(b.lines[k].block, 0, n0 + Count(b, k));
      }
    }
  }

  lemma {:induction false} GeneratedWellTyped(b: Block, k: nat, n0: nat)
    requires k <= |b.lines| && WellFormed(b)
    ensures WellTyped(Generated(b, k, n0))
    decreases b, |b.lines| - k
  {
    if k < |b.lines| {
      GeneratedWellTyped(b, k + 1, n0);
      if b.lines[k].Inner? {
        GeneratedWellTyped(b.lines[k].block, 0, n0 + Count(b, k));
      }
    }
  }

  /** The sections of any block's chunk are those of the generated program. */
  lemma {:induction false} GeneratedSections(b: Block)
    ensures var out, g := GenBlock(EMPTY_OUTPUT, b), Generated(b, 0, 0);
      |out.code| == Offset(g, |g|) && out.relocs == Relocations(g) && out.constants == Constants(g)
  {
    hide GenBlock, Generated, Relocations, Constants;
    GeneratedAgrees(b);
    EmptyHolds(2);
    BlockHolds(EMPTY_OUTPUT, [], b, 2);
    assert [] + Generated(b, 0, 0) == Generated(b, 0, 0);
  }
}
