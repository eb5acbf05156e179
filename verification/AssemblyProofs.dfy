/** The one-pass generator against the two-pass reference. */
module AssemblyProofs {
  import opened Words
  import opened Isa
  import opened Symbolic
  import opened Assembly

  // ---------------------------------------------------------------- programs of partly processed blocks

  /** The instructions of line `k` before any address of its block is patched. */
  ghost function DraftedLine(b: Block, k: nat, n0: nat): Program
    requires k < |b.lines|
  {
    match b.lines[k]
    case Inner(block) => Generated(block, 0, n0 + Count(b, k))
    case l => if Emits(l) then [Lower(l, Early(b, k, n0))] else []
  }

  ghost function Drafted(b: Block, k: nat, n0: nat): Program
    requires k <= |b.lines|
  {
    if k == 0 then [] else Drafted(b, k - 1, n0) + DraftedLine(b, k - 1, n0)
  }

  lemma {:induction false} LineLength(b: Block, k: nat, n0: nat)
    requires k < |b.lines|
    ensures |GeneratedLine(b, k, n0)| == |ResolvedLine(b, k, n0)| == |DraftedLine(b, k, n0)| == LineCount(b.lines[k])
    decreases b, 0
  {
    if b.lines[k].Inner? {
      GeneratedLength(b.lines[k].block, 0, n0 + Count(b, k));
    }
  }

  lemma {:induction false} GeneratedLength(b: Block, k: nat, n0: nat)
    requires k <= |b.lines|
    ensures |Generated(b, k, n0)| == |Resolved(b, k, n0)| == Count(b, |b.lines|) - Count(b, k)
    decreases b, |b.lines| - k + 1
  {
    if k < |b.lines| {
      LineLength(b, k, n0);
      GeneratedLength(b, k + 1, n0);
    }
  }

  lemma {:induction false} DraftedLength(b: Block, k: nat, n0: nat)
    requires k <= |b.lines|
    ensures |Drafted(b, k, n0)| == Count(b, k)
  {
    if k > 0 {
      DraftedLength(b, k - 1, n0);
      LineLength(b, k - 1, n0);
    }
  }

  lemma {:induction false} CountMonotone(b: Block, j: nat, k: nat)
    requires j <= k <= |b.lines|
    ensures Count(b, j) <= Count(b, k)
  {
    if j < k {
      CountMonotone(b, j, k - 1);
    }
  }

  lemma {:induction false} LabelBound(b: Block, k: nat, n0: nat, name: string)
    requires k <= |b.lines|
    ensures var r := LabelAt(b, k, n0, name);
      r.Some? ==> n0 <= r.value <= n0 + Count(b, k)
  {
    if k > 0 {
      LabelBound(b, k - 1, n0, name);
    }
  }

  /** Shifting the block's number shifts its labels. */
  lemma {:induction false} LabelShift(b: Block, k: nat, n0: nat, name: string)
    requires k <= |b.lines|
    ensures LabelAt(b, k, n0, name).Some? <==> LabelAt(b, k, 0, name).Some?
  {
    if k > 0 {
      LabelShift(b, k - 1, n0, name);
    }
  }

  lemma {:induction false} ForwardShift(b: Block, k: nat, n0: nat)
    requires k < |b.lines|
    ensures ForwardCall(b, k, n0) <==> ForwardCall(b, k, 0)
  {
    if Names(b.lines[k]) {
      LabelShift(b, k, n0, b.lines[k].name);
      LabelShift(b, |b.lines|, n0, b.lines[k].name);
    }
  }

  // ---------------------------------------------------------------- first pass

  /** The output holds program `p`, sections included. */
  ghost predicate Holds(out: Output, p: Program, from: nat) {
    && Grounded(p)
    && Agrees(out.code, LaidOut(p), from)
    && out.relocs == Relocations(p)
    && out.constants == Constants(p)
  }

  ghost predicate LabelsKnown(labels: map<string, nat>, b: Block, k: nat, p: Program, n0: nat)
    requires k <= |b.lines|
  {
    forall name: string :: LabelKnown(labels, b, k, p, n0, name)
  }

  ghost predicate LabelKnown(labels: map<string, nat>, b: Block, k: nat, p: Program, n0: nat, name: string)
    requires k <= |b.lines|
  {
    match LabelAt(b, k, n0, name)
    case None => name !in labels
    case Some(i) => name in labels && i <= |p| && labels[name] == Offset(p, i)
  }

  /** The uses the generator has set aside after `k` lines, latest first. */
  ghost function Pending(b: Block, k: nat, p: Program, n0: nat): seq<Use>
    requires k <= |b.lines|
  {
    if k == 0 then []
    else
      var l, j := b.lines[k - 1], n0 + Count(b, k - 1);
      (if Names(l) && LabelAt(b, k - 1, n0, l.name).None? && j <= |p|
       then [Use(l.name, Offset(p, j) + PatchAt(l))] else [])
      + Pending(b, k - 1, p, n0)
  }

  lemma {:induction false} PendingPrefix(b: Block, k: nat, p: Program, q: Program, n0: nat)
    requires k <= |b.lines| && n0 + Count(b, k) <= |p| && |p| <= |q|
    requires forall j :: 0 <= j < |p| ==> p[j].Size() == q[j].Size()
    ensures Pending(b, k, p, n0) == Pending(b, k, q, n0)
  {
    if k > 0 {
      CountMonotone(b, k - 1, k);
      PendingPrefix(b, k - 1, p, q, n0);
      OffsetCong(p, q, n0 + Count(b, k - 1));
    }
  }

  lemma {:induction false} LabelsPrefix(labels: map<string, nat>, b: Block, k: nat, p: Program, q: Program, n0: nat)
    requires k <= |b.lines| && LabelsKnown(labels, b, k, p, n0) && |p| <= |q|
    requires forall j :: 0 <= j < |p| ==> p[j].Size() == q[j].Size()
    ensures LabelsKnown(labels, b, k, q, n0)
  {
    forall name: string
      ensures LabelKnown(labels, b, k, q, n0, name)
    {
      assert LabelKnown(labels, b, k, p, n0, name);
      if LabelAt(b, k, n0, name).Some? {
        OffsetCong(p, q, LabelAt(b, k, n0, name).value);
      }
    }
  }

  /** Emitting one line appends its instruction, whatever operand its field stands for. */
  lemma {:induction false} EmitHolds(p: Pass, l: Line, o: Operand, q: Program, from: nat)
    requires Emits(l) && Holds(p.out, q, from) && GroundedIn(o, |q|)
    requires if Names(l) then o.Relocated() else o == l.operand
    requires Lay(q + [Lower(l, o)], |q|) == Lower(l, FieldWritten(p, l))
    ensures Holds(EmitLine(p, l).out, q + [Lower(l, o)], from)
  {
    hide Encode, Agrees, Relocations, Constants, LaidOut, Grounded, Lay, FieldWritten;
    var x, y := Lower(l, o), Lower(l, FieldWritten(p, l));
    LaidOutSnoc(q, x);
    SectionsSnoc(q, x);
    HoldsSize(p.out, q, from);
    AgreesSnoc(p.out.code, LaidOut(q), y, from);
    var out := EmitLine(p, l).out;
    assert out.code == p.out.code + Encode(y);
    var z := Lower(l, if Names(l) then Rel(0) else l.operand);
    assert RelocationOf(z, |p.out.code|) == RelocationOf(x, |p.out.code|);
    assert ConstantOf(z, |p.out.code|) == ConstantOf(x, |p.out.code|);
  }

  lemma {:induction false} EarlyFacts(labels: map<string, nat>, b: Block, k: nat, q: Program, n0: nat)
    requires k < |b.lines| && Emits(b.lines[k]) && LabelsKnown(labels, b, k, q, n0)
    ensures GroundedIn(Early(b, k, n0), |q|)
    ensures if Names(b.lines[k]) then Early(b, k, n0).Relocated() else Early(b, k, n0) == b.lines[k].operand
    ensures !Early(b, k, n0).Late?
  {
    if Names(b.lines[k]) {
      assert LabelKnown(labels, b, k, q, n0, b.lines[k].name);
    }
  }

  lemma {:induction false} FieldWrittenIsEarly(p: Pass, b: Block, k: nat, q: Program, n0: nat)
    requires k < |b.lines| && Emits(b.lines[k])
    requires Grounded(q) && p.out.constants == Constants(q) && LabelsKnown(p.labels, b, k, q, n0)
    ensures Lay(q + [Lower(b.lines[k], Early(b, k, n0))], |q|) == Lower(b.lines[k], FieldWritten(p, b.lines[k]))
  {
    var l := b.lines[k];
    var o := Early(b, k, n0);
    OrdinalPrefix(q, [Lower(l, o)], |q|);
    EarlyFacts(p.labels, b, k, q, n0);
    if Names(l) {
      assert LabelKnown(p.labels, b, k, q, n0, l.name);
      if o.Target? { OffsetPrefix(q, [Lower(l, o)], o.index); }
    }
  }

  /** Zero: exact bytes. Two: all but the first two bytes of each instruction. */
  ghost predicate Precision(b: Block, from: nat) { from == 2 || (from == 0 && NoForwardCall(b)) }

  ghost predicate Passed(p: Pass, b: Block, k: nat, q: Program, from: nat)
    requires k <= |b.lines|
  {
    var d := q + Drafted(b, k, |q|);
    && Holds(p.out, d, from)
    && LabelsKnown(p.labels, b, k, d, |q|)
    && p.uses == Pending(b, k, d, |q|)
  }

  lemma {:induction false} HoldsSize(out: Output, p: Program, from: nat)
    requires Holds(out, p, from)
    ensures |out.code| == Offset(p, |p|)
  {
    LaidOutOffset(p, |p|);
  }

  lemma {:induction false} LabelsStep(p: Pass, b: Block, k: nat, d: Program, n0: nat)
    requires k < |b.lines| && n0 + Count(b, k) <= |d|
    requires LabelsKnown(p.labels, b, k, d, n0) && |p.out.code| == Offset(d, n0 + Count(b, k))
    ensures LabelsKnown(GenLine(p, b.lines[k]).labels, b, k + 1, d, n0)
  {
    var labels := GenLine(p, b.lines[k]).labels;
    forall name: string {:trigger LabelKnown(labels, b, k + 1, d, n0, name)}
      ensures LabelKnown(labels, b, k + 1, d, n0, name)
    {
      assert LabelKnown(p.labels, b, k, d, n0, name);
    }
  }

  lemma {:induction false} UsesStep(p: Pass, b: Block, k: nat, d: Program, n0: nat)
    requires k < |b.lines| && n0 + Count(b, k) <= |d|
    requires LabelsKnown(p.labels, b, k, d, n0) && |p.out.code| == Offset(d, n0 + Count(b, k))
    requires p.uses == Pending(b, k, d, n0)
    ensures GenLine(p, b.lines[k]).uses == Pending(b, k + 1, d, n0)
  {
    hide Encode, RelocationOf, ConstantOf, FieldWritten;
    var l := b.lines[k];
    if Names(l) {
      assert LabelKnown(p.labels, b, k, d, n0, l.name);
      assert GenLine(p, l) == EmitLine(p, l);
    }
  }

  /** What one more line does to the labels and uses, given the program it drafts. */
  lemma {:induction false} BookkeepingStep(p: Pass, b: Block, k: nat, q: Program, from: nat)
    requires k < |b.lines| && Passed(p, b, k, q, from)
    ensures var d := q + Drafted(b, k + 1, |q|);
      && LabelsKnown(GenLine(p, b.lines[k]).labels, b, k + 1, d, |q|)
      && GenLine(p, b.lines[k]).uses == Pending(b, k + 1, d, |q|)
  {
    hide Holds, Pending, LabelsKnown, GenLine, DraftedLine, LabelAt;
    var n0 := |q|;
    var d0, d, x := q + Drafted(b, k, n0), q + Drafted(b, k + 1, n0), DraftedLine(b, k, n0);
    assert d == d0 + x;
    DraftedLength(b, k, n0);
    HoldsSize(p.out, d0, from);
    OffsetPrefix(d0, x, |d0|);
    PendingPrefix(b, k, d0, d, n0);
    LabelsPrefix(p.labels, b, k, d0, d, n0);
    LabelsStep(p, b, k, d, n0);
    UsesStep(p, b, k, d, n0);
  }

  lemma {:induction false} LineHolds(p: Pass, b: Block, k: nat, d0: Program, n0: nat, from: nat)
    requires k < |b.lines| && Precision(b, from) && |d0| == n0 + Count(b, k)
    requires Holds(p.out, d0, from) && LabelsKnown(p.labels, b, k, d0, n0)
    ensures Holds(GenLine(p, b.lines[k]).out, d0 + DraftedLine(b, k, n0), from)
    decreases b, 0
  {
    hide LabelsKnown, Early, EmitLine, Agrees, Relocations, Constants, Grounded;
    assert d0 + [] == d0;
    if b.lines[k].Inner? {
      assert from == 0 ==> !Offends(b, k);
      BlockHolds(p.out, d0, b.lines[k].block, from);
    } else if Emits(b.lines[k]) {
      EarlyFacts(p.labels, b, k, d0, n0);
      FieldWrittenIsEarly(p, b, k, d0, n0);
      EmitHolds(p, b.lines[k], Early(b, k, n0), d0, from);
    }
  }

  lemma {:induction false} PassedStep(p: Pass, p': Pass, b: Block, k: nat, q: Program, from: nat)
    requires k < |b.lines| && Precision(b, from) && Passed(p, b, k, q, from) && p' == GenLine(p, b.lines[k])
    ensures Passed(p', b, k + 1, q, from)
    decreases b, 1
  {
    var d0, x := q + Drafted(b, k, |q|), DraftedLine(b, k, |q|);
    assert q + Drafted(b, k + 1, |q|) == d0 + x;
    DraftedLength(b, k, |q|);
    BookkeepingStep(p, b, k, q, from);
    LineHolds(p, b, k, d0, |q|, from);
  }

  lemma {:induction false} GenLinesStep(p: Pass, b: Block, k: nat)
    requires k < |b.lines|
    ensures GenLines(p, b, k + 1) == GenLine(GenLines(p, b, k), b.lines[k])
  {
  }

  lemma {:induction false} PassedStart(out: Output, q: Program, b: Block, from: nat)
    requires Holds(out, q, from)
    ensures Passed(Pass(out, map[], [], None), b, 0, q, from)
  {
    assert q + Drafted(b, 0, |q|) == q;
  }

  lemma {:induction false} FirstPass(p: Pass, q: Program, b: Block, k: nat, from: nat)
    requires k <= |b.lines| && Passed(p, b, 0, q, from) && Precision(b, from)
    ensures Passed(GenLines(p, b, k), b, k, q, from)
    decreases b, k + 2
  {
    if k > 0 {
      FirstPass(p, q, b, k - 1, from);
      GenLinesStep(p, b, k - 1);
      PassedStep(GenLines(p, b, k - 1), GenLines(p, b, k), b, k - 1, q, from);
    }
  }

  // ---------------------------------------------------------------- back-patching

  /** Lines before `k` as drafted, the others patched. */
  ghost function Mixed(q: Program, b: Block, k: nat): Program
    requires k <= |b.lines|
  {
    q + Drafted(b, k, |q|) + Generated(b, k, |q|)
  }

  /** `m'` is `m` with line `k`'s use patched, if it was left unresolved. */
  ghost predicate PatchStep(m: Program, m': Program, b: Block, k: nat, n0: nat)
    requires k < |b.lines|
  {
    var j := n0 + Count(b, k);
    && |m| == n0 + Count(b, |b.lines|)
    && j <= |m|
    && if Unresolved(b, k, n0)
       then j < |m| && m[j] == Lower(b.lines[k], Rel(0)) && m' == m[j := Lower(b.lines[k], Final(b, k, n0))]
       else m' == m
  }

  ghost predicate PatchSteps(ms: seq<Program>, b: Block, n0: nat) {
    && |ms| == |b.lines| + 1
    && forall k :: 0 <= k < |b.lines| ==> PatchStep(ms[k + 1], ms[k], b, k, n0)
  }

  lemma {:induction false} MixedStep(q: Program, b: Block, k: nat)
    requires k < |b.lines|
    ensures PatchStep(Mixed(q, b, k + 1), Mixed(q, b, k), b, k, |q|)
  {
    var n0 := |q|;
    var front, back := q + Drafted(b, k, n0), Generated(b, k + 1, n0);
    var x, y := DraftedLine(b, k, n0), GeneratedLine(b, k, n0);
    DraftedLength(b, k, n0);
    GeneratedLength(b, k + 1, n0);
    LineLength(b, k, n0);
    assert Mixed(q, b, k) == front + y + back by {
      Reassociate(q, Drafted(b, k, n0), y, back);
    }
    assert Mixed(q, b, k + 1) == front + x + back by {
      Reassociate(q, Drafted(b, k, n0), x, back);
    }
    if Unresolved(b, k, n0) {
      Middle(front, x[0], y[0], back);
      assert x == [x[0]] && y == [y[0]];
    }
  }

  lemma {:induction false} Reassociate<T>(a: seq<T>, b: seq<T>, c: seq<T>, d: seq<T>)
    ensures a + b + (c + d) == a + b + c + d
    ensures a + (b + c) + d == a + b + c + d
  {
  }

  lemma {:induction false} Middle<T>(a: seq<T>, x: T, y: T, c: seq<T>)
    ensures (a + [x] + c)[|a|] == x && (a + [x] + c)[|a| := y] == a + [y] + c
  {
  }

  /** Replacing one address operand by another changes one laid-out instruction. */
  lemma {:induction false} LaidOutRetarget(p: Program, j: nat, y: Instr<Operand>)
    requires j < |p| && y.Layout() == p[j].Layout() && p[j].field.Relocated() && y.field.Relocated()
    ensures LaidOut(p[j := y]) == LaidOut(p)[j := Lay(p[j := y], j)]
    ensures forall i :: 0 <= i <= |p| ==> Offset(p[j := y], i) == Offset(p, i)
  {
    var q := p[j := y];
    forall i | 0 <= i <= |p|
      ensures Offset(q, i) == Offset(p, i)
    {
      OffsetCong(p, q, i);
    }
    forall k | 0 <= k < |p| && k != j
      ensures Lay(q, k) == Lay(p, k)
    {
      OrdinalRetarget(p, j, y, k);
    }
  }

  lemma {:induction false} OrdinalRetarget(p: Program, j: nat, y: Instr<Operand>, k: nat)
    requires j < |p| && p[j].field.Relocated() && y.field.Relocated() && k <= |p|
    ensures Ordinal(p[j := y], k) == Ordinal(p, k)
  {
    if k > 0 {
      OrdinalRetarget(p, j, y, k - 1);
    }
  }

  /** Overwriting the field of an encoding. */
  lemma {:induction false} EncodeRefield(x: Instr<nat>, v: nat)
    ensures var at := x.Layout().FieldAt();
      forall b :: 0 <= b < x.Size() ==>
        Encode(x.(field := v))[b] == if at <= b < at + x.width then Little(x.width, v)[b - at] else Encode(x)[b]
  {
  }

  /** Writing a call's address three bytes too far along. */
  lemma {:induction false} EncodeDisplaced(op: byte, reg: byte, d: nat)
    ensures var x := Instr(op, true, [], 8, 0, [reg]);
            var y := Instr(op, true, [], 8, Displaced(d), [(d / SHIFT40) % 0x100]);
      && x.Size() == y.Size() == 13
      && forall b :: 0 <= b < 13 ==>
           Encode(y)[b] == if 7 <= b < 15 then Little(8, d)[b - 7] else Encode(x)[b]
  {
    hide Little, Displaced;
    DisplacedBytes(d);
    LittleZero(8);
    var y := Instr(op, true, [], 8, Displaced(d), [(d / SHIFT40) % 0x100]);
    var f := Little(8, Displaced(d));
    assert Encode(y) == [op, 0, 0, 0] + f + [(d / SHIFT40) % 0x100];
    assert forall b :: 3 <= b < 8 ==> f[b] == Little(8, d)[..5][b - 3];
  }

  lemma {:induction false} DisplacedBytes(d: nat)
    ensures Little(8, Displaced(d)) == [0, 0, 0] + Little(8, d)[..5]
    ensures Little(8, d)[5] == (d / SHIFT40) % 0x100
  {
    LittleShifted(d);
  }

  /** One recorded use, written to the buffer. */
  function Patch(code: seq<byte>, l: Line, at: nat, labels: map<string, nat>): seq<byte>
    requires Names(l)
  {
    if l.name in labels then Poke(code, at + PatchAt(l), Little(8, labels[l.name])) else code
  }

  /** The two ways an address is written over the zero left for it. */
  lemma {:induction false} PatchedEncoding(l: Line, o: Operand, d: nat, z: Instr<nat>)
    requires Names(l) && (o.Late? ==> l.ReferCall?) && (o.Target? || o.Late?)
    requires l.ReferCall? ==> o.Late?
    requires z == if o.Late?
                  then Instr(l.op, true, [], 8, Displaced(d), [(d / SHIFT40) % 0x100])
                  else Lower(l, d)
    ensures var x, at := Lower(l, 0), PatchAt(l);
      && z.Size() == x.Size() && at + 8 <= x.Size() + (if o.Late? then 2 else 0)
      && forall b :: 0 <= b < x.Size() ==>
           Encode(z)[b] == if at <= b < at + 8 then Little(8, d)[b - at] else Encode(x)[b]
  {
    if o.Late? {
      EncodeDisplaced(l.op, l.reg, d);
    } else {
      EncodeRefield(Lower(l, 0), d);
    }
  }

  lemma {:induction false} LaidPatch(m: Program, j: nat, l: Line, o: Operand)
    requires j < |m| && Names(l) && m[j] == Lower(l, Rel(0))
    requires (o.Target? || o.Late?) && o.index <= |m| && (o.Late? ==> l.ReferCall?)
    ensures var d, z := Offset(m, o.index), Lay(m[j := Lower(l, o)], j);
      && Lay(m, j) == Lower(l, 0)
      && z == if o.Late?
              then Instr(l.op, true, [], 8, Displaced(d), [(d / SHIFT40) % 0x100])
              else Lower(l, d)
  {
    LaidOutRetarget(m, j, Lower(l, o));
  }

  lemma {:induction false} PokePatched(code: seq<byte>, p: seq<Instr<nat>>, j: nat, l: Line, o: Operand, d: nat,
                                       z: Instr<nat>, from: nat)
    requires j < |p| && Names(l) && p[j] == Lower(l, 0) && Agrees(code, p, from)
    requires if l.ReferCall? then o.Late? && from == 2 else o.Target?
    requires z == if o.Late?
                  then Instr(l.op, true, [], 8, Displaced(d), [(d / SHIFT40) % 0x100])
                  else Lower(l, d)
    ensures Agrees(Poke(code, Offset(p, j) + PatchAt(l), Little(8, d)), p[j := z], from)
  {
    PatchedEncoding(l, o, d, z);
    AgreesPoke(code, p, j, z, PatchAt(l), Little(8, d), from);
  }

  /** Patching one use turns its drafted instruction into the final one. */
  lemma {:induction false} PatchOne(code: seq<byte>, m: Program, j: nat, l: Line, o: Operand, from: nat)
    requires j < |m| && Names(l) && m[j] == Lower(l, Rel(0)) && Agrees(code, LaidOut(m), from)
    requires if l.ReferCall? then o.Late? && from == 2 else o.Target?
    requires o.index <= |m|
    ensures Agrees(Poke(code, Offset(m, j) + PatchAt(l), Little(8, Offset(m, o.index))),
                   LaidOut(m[j := Lower(l, o)]), from)
  {
    hide Agrees, Poke, Little, Lay, Displaced;
    var z := Lay(m[j := Lower(l, o)], j);
    LaidPatch(m, j, l, o);
    LaidOutOffset(m, j);
    PokePatched(code, LaidOut(m), j, l, o, Offset(m, o.index), z, from);
    LaidOutRetarget(m, j, Lower(l, o));
  }

  /** The final operand of an unresolved use, by whether its block ever defines the label. */
  lemma {:induction false} FinalFacts(b: Block, k: nat, n0: nat, labels: map<string, nat>, m: Program, from: nat)
    requires k < |b.lines| && Unresolved(b, k, n0) && Precision(b, from)
    requires LabelsKnown(labels, b, |b.lines|, m, n0)
    ensures var l, o := b.lines[k], Final(b, k, n0);
      if l.name in labels
      then (if l.ReferCall? then o.Late? && from == 2 else o.Target?)
           && o.index <= |m| && labels[l.name] == Offset(m, o.index)
      else o == Rel(0)
  {
    assert LabelKnown(labels, b, |b.lines|, m, n0, b.lines[k].name);
    assert from == 0 ==> !Offends(b, k);
    ForwardShift(b, k, n0);
  }

  lemma {:induction false} PatchAgrees(code: seq<byte>, m: Program, m': Program, b: Block, k: nat, n0: nat,
                                       labels: map<string, nat>, from: nat)
    requires k < |b.lines| && Unresolved(b, k, n0) && Precision(b, from) && PatchStep(m, m', b, k, n0)
    requires Agrees(code, LaidOut(m), from) && LabelsKnown(labels, b, |b.lines|, m, n0)
    ensures Agrees(Patch(code, b.lines[k], Offset(m, n0 + Count(b, k)), labels), LaidOut(m'), from)
  {
    hide Agrees, Final, LabelsKnown, Precision, LaidOut, Poke, Little;
    var l, o, j := b.lines[k], Final(b, k, n0), n0 + Count(b, k);
    FinalFacts(b, k, n0, labels, m, from);
    if l.name in labels {
      PatchOne(code, m, j, l, o, from);
    } else {
      assert m[j := m[j]] == m;
    }
  }

  /** The code once line `k`'s recorded use, if any, is written. */
  ghost function PatchedLine(code: seq<byte>, m: Program, b: Block, k: nat, n0: nat, labels: map<string,
      nat>): seq<byte>
    requires k < |b.lines| && n0 + Count(b, k) <= |m|
  {
    if Unresolved(b, k, n0) then Patch(code, b.lines[k], Offset(m, n0 + Count(b, k)), labels) else code
  }

  lemma {:induction false} PendingStep(b: Block, k: nat, p: Program, n0: nat, code: seq<byte>,
      labels: map<string, nat>)
    requires k < |b.lines| && n0 + Count(b, k) <= |p|
    ensures Backpatch(code, Pending(b, k + 1, p, n0), labels)
         == Backpatch(PatchedLine(code, p, b, k, n0, labels), Pending(b, k, p, n0), labels)
  {
    var rest := Pending(b, k, p, n0);
    if Unresolved(b, k, n0) {
      var use := Use(b.lines[k].name, Offset(p, n0 + Count(b, k)) + PatchAt(b.lines[k]));
      assert Pending(b, k + 1, p, n0) == [use] + rest;
      assert ([use] + rest)[1..] == rest;
    } else {
      assert Pending(b, k + 1, p, n0) == [] + rest == rest;
    }
  }

  lemma {:induction false} PatchStepSizes(m: Program, m': Program, b: Block, k: nat, n0: nat)
    requires k < |b.lines| && PatchStep(m, m', b, k, n0)
    ensures |m'| == |m| && forall j :: 0 <= j < |m| ==> m[j].Size() == m'[j].Size()
  {
  }

  lemma {:induction false} PatchStepBooks(m: Program, m': Program, b: Block, k: nat, n0: nat,
      labels: map<string, nat>)
    requires k < |b.lines| && PatchStep(m, m', b, k, n0) && LabelsKnown(labels, b, |b.lines|, m, n0)
    ensures LabelsKnown(labels, b, |b.lines|, m', n0)
    ensures Pending(b, k, m, n0) == Pending(b, k, m', n0)
  {
    PatchStepSizes(m, m', b, k, n0);
    PendingPrefix(b, k, m, m', n0);
    LabelsPrefix(labels, b, |b.lines|, m, m', n0);
  }

  lemma {:induction false} BackpatchStep(code: seq<byte>, m: Program, m': Program, b: Block, k: nat, n0: nat,
                                         labels: map<string, nat>, from: nat)
    requires k < |b.lines| && Precision(b, from) && PatchStep(m, m', b, k, n0)
    requires Agrees(code, LaidOut(m), from) && LabelsKnown(labels, b, |b.lines|, m, n0)
    ensures Agrees(PatchedLine(code, m, b, k, n0, labels), LaidOut(m'), from)
  {
    if Unresolved(b, k, n0) {
      PatchAgrees(code, m, m', b, k, n0, labels, from);
    }
  }

  lemma {:induction false} BackpatchAgrees(code: seq<byte>, ms: seq<Program>, b: Block, k: nat, n0: nat,
                                           labels: map<string, nat>, from: nat)
    requires k <= |b.lines| && Precision(b, from) && PatchSteps(ms, b, n0)
    requires Agrees(code, LaidOut(ms[k]), from)
    requires LabelsKnown(labels, b, |b.lines|, ms[k], n0)
    ensures Agrees(Backpatch(code, Pending(b, k, ms[k], n0), labels), LaidOut(ms[0]), from)
    decreases k
  {
    if k > 0 {
      assert PatchStep(ms[k], ms[k - 1], b, k - 1, n0);
      PatchStepBooks(ms[k], ms[k - 1], b, k - 1, n0, labels);
      PendingStep(b, k - 1, ms[k], n0, code, labels);
      BackpatchStep(code, ms[k], ms[k - 1], b, k - 1, n0, labels, from);
      BackpatchAgrees(PatchedLine(code, ms[k], b, k - 1, n0, labels), ms, b, k - 1, n0, labels, from);
    }
  }

  lemma {:induction false} RetargetSections(m: Program, j: nat, l: Line, o: Operand)
    requires j < |m| && Grounded(m) && Names(l) && m[j] == Lower(l, Rel(0))
    requires o.Relocated() && GroundedIn(o, |m|)
    ensures var m' := m[j := Lower(l, o)];
      Grounded(m') && Relocations(m') == Relocations(m) && Constants(m') == Constants(m)
  {
    SectionsRetarget(m, m[j := Lower(l, o)]);
  }

  lemma {:induction false} PatchStepSections(m: Program, m': Program, b: Block, k: nat, n0: nat)
    requires k < |b.lines| && PatchStep(m, m', b, k, n0) && Grounded(m)
    ensures Grounded(m') && Relocations(m') == Relocations(m) && Constants(m') == Constants(m)
  {
    if Unresolved(b, k, n0) {
      LabelBound(b, |b.lines|, n0, b.lines[k].name);
      RetargetSections(m, n0 + Count(b, k), b.lines[k], Final(b, k, n0));
    }
  }

  /** Patching changes no section and keeps every address in range. */
  lemma {:induction false} PatchSections(ms: seq<Program>, b: Block, k: nat, n0: nat)
    requires k <= |b.lines| && PatchSteps(ms, b, n0) && Grounded(ms[|b.lines|])
    ensures Grounded(ms[k])
    ensures Relocations(ms[k]) == Relocations(ms[|b.lines|]) && Constants(ms[k]) == Constants(ms[|b.lines|])
    decreases |b.lines| - k
  {
    if k < |b.lines| {
      PatchSections(ms, b, k + 1, n0);
      assert PatchStep(ms[k + 1], ms[k], b, k, n0);
      PatchStepSections(ms[k + 1], ms[k], b, k, n0);
    }
  }

  /** The one-pass generator writes the program it is given, as `Generated` describes it. */
  lemma {:induction false} BlockHolds(out: Output, q: Program, b: Block, from: nat)
    requires Holds(out, q, from) && Precision(b, from)
    ensures Holds(GenBlock(out, b), q + Generated(b, 0, |q|), from)
    decreases b, |b.lines| + 3
  {
    var n, n0 := |b.lines|, |q|;
    PassedStart(out, q, b, from);
    FirstPass(Pass(out, map[], [], None), q, b, n, from);
    var ms := MixedSteps(q, b);
    var p := GenLines(Pass(out, map[], [], None), b, n);
    BackpatchAgrees(p.out.code, ms, b, n, n0, p.labels, from);
    PatchSections(ms, b, 0, n0);
  }

  lemma {:induction false} MixedEnds(q: Program, b: Block)
    ensures Mixed(q, b, |b.lines|) == q + Drafted(b, |b.lines|, |q|) && Mixed(q, b, 0) == q + Generated(b, 0, |q|)
  {
  }

  lemma {:induction false} MixedSteps(q: Program, b: Block) returns (ms: seq<Program>)
    ensures PatchSteps(ms, b, |q|)
    ensures ms[|b.lines|] == q + Drafted(b, |b.lines|, |q|) && ms[0] == q + Generated(b, 0, |q|)
  {
    hide Mixed, PatchStep, Drafted, Generated;
    var n := |b.lines|;
    ms := seq(n + 1, k requires 0 <= k <= n => Mixed(q, b, k));
    MixedEnds(q, b);
    forall k | 0 <= k < n
      ensures PatchStep(ms[k + 1], ms[k], b, k, |q|)
    {
      MixedStep(q, b, k);
    }
  }
}
