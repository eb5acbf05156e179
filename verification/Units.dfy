/** Programs loaded one behind the other, as one text. */
module Units {
  import opened Words
  import opened Isa
  import opened Symbolic
  import opened Machine
  import opened Linking
  import Simulation

  /** A program and where it has been loaded: code base, and first constant in the pool. */
  datatype Unit = Unit(code: Program, base: nat, pool: nat)

  /** The loaded address of instruction `k`; past the last one, the address of the end. */
  function Addr(u: Unit, k: nat): nat
    requires k <= |u.code|
  {
    u.base + Offset(u.code, k)
  }

  /** A program the loader accepts: the layouts are the dispatcher's, addresses are in range, no
  call was misplaced, and numbers fit. */
  ghost predicate Sound(u: Unit) {
    && WellTyped(u.code) && Grounded(u.code)
    && (forall k :: 0 <= k < |u.code| ==> u.code[k].Known() && !u.code[k].field.Late?)
    && u.base + Offset(u.code, |u.code|) < EMPTY_CATCH
    && u.pool + Ordinal(u.code, |u.code|) < 0x1_0000_0000
  }

  lemma {:induction false} OrdinalMonotone(p: Program, j: nat, k: nat)
    requires j <= k <= |p|
    ensures Ordinal(p, j) <= Ordinal(p, k) && (j < k && p[j].field.Constant? ==> Ordinal(p, j) < Ordinal(p, k))
  {
    if j < k {
      OrdinalMonotone(p, j, k - 1);
    }
  }

  lemma {:induction false} LoadedLayout(u: Unit, k: nat)
    requires k < |u.code|
    ensures var x := LoadedInstr(u.code, k, u.base, u.pool);
      x.Layout() == u.code[k].Layout() && x.op == u.code[k].op && (u.code[k].Known() ==> x.Known())
  {
  }

  lemma {:induction false} LoadedFits(u: Unit, k: nat)
    requires Sound(u) && k < |u.code|
    ensures LoadedField(u.code, k, u.base, u.pool) < Pow256(u.code[k].width)
  {
    PowerFacts();
    OrdinalMonotone(u.code, k, |u.code|);
    assert WellTypedField(u.code[k]);
  }

  lemma {:induction false} TargetAddress(u: Unit, k: nat, i: nat)
    requires Sound(u) && k < |u.code| && i <= |u.code| && u.code[k].field == Target(i)
    ensures LoadedField(u.code, k, u.base, u.pool) == Addr(u, i) < TWO64
  {
    hide WellTyped, Grounded, Ordinal, Offset;
    OffsetMonotone(u.code, i, |u.code|);
    QuotientUnique(Addr(u, i), TWO64, 0, Addr(u, i));
  }

  lemma {:induction false} LoadedOffset(u: Unit, k: nat)
    requires k <= |u.code|
    ensures Offset(Loaded(u.code, u.base, u.pool), k) == Offset(u.code, k)
  {
    var q := Loaded(u.code, u.base, u.pool);
    forall j | 0 <= j < k
      ensures u.code[j].Size() == q[j].Size()
    {
      LoadedLayout(u, j);
    }
    OffsetCong(u.code, q, k);
  }

  // ---------------------------------------------------------------- several units

  /** Instructions of the first `n` units, as they are in memory. */
  function CodeOf(units: seq<Unit>, n: nat): seq<Instr<nat>>
    requires n <= |units|
  {
    if n == 0 then [] else CodeOf(units, n - 1) + Loaded(units[n - 1].code, units[n - 1].base, units[n - 1].pool)
  }

  /** The number, among all instructions, of the first one of unit `n`. */
  function Start(units: seq<Unit>, n: nat): nat
    requires n <= |units|
  {
    if n == 0 then 0 else Start(units, n - 1) + |units[n - 1].code|
  }

  /** The instructions named by a program's operands, when its first one is number `start`. */
  function TargetsOf(p: Program, start: nat): (r: seq<Option<nat>>)
    ensures |r| == |p|
    ensures forall k :: 0 <= k < |p| ==> r[k] == if p[k].field.Target? then Some(start + p[k].field.index) else None
  {
    seq(|p|, k requires 0 <= k < |p| => if p[k].field.Target? then Some(start + p[k].field.index) else None)
  }

  function AllTargets(units: seq<Unit>, n: nat): seq<Option<nat>>
    requires n <= |units|
  {
    if n == 0 then [] else AllTargets(units, n - 1) + TargetsOf(units[n - 1].code, Start(units, n - 1))
  }

  /** The units as one text: control is a unit and an instruction of it, counted through. */
  function TextOf(base: nat, units: seq<Unit>): Simulation.Text {
    Simulation.Text(base, CodeOf(units, |units|), AllTargets(units, |units|))
  }

  /** The address where unit `n` begins when they all follow each other from `base` on. */
  function BaseOf(base: nat, units: seq<Unit>, n: nat): nat
    requires n <= |units|
  {
    if n == 0 then base else BaseOf(base, units, n - 1) + Offset(units[n - 1].code, |units[n - 1].code|)
  }

  ghost predicate Contiguous(base: nat, units: seq<Unit>) {
    forall n :: 0 <= n < |units| ==> units[n].base == BaseOf(base, units, n)
  }

  lemma {:induction false} OffsetConcat<V>(p: seq<Instr<V>>, q: seq<Instr<V>>, k: nat)
    requires k <= |q|
    ensures Offset(p + q, |p| + k) == Offset(p, |p|) + Offset(q, k)
  {
    if k == 0 {
      OffsetPrefix(p, q, |p|);
    } else {
      OffsetConcat(p, q, k - 1);
    }
  }

  lemma {:induction false} Lengths(units: seq<Unit>, n: nat)
    requires n <= |units|
    ensures |CodeOf(units, n)| == |AllTargets(units, n)| == Start(units, n)
  {
    if n > 0 {
      Lengths(units, n - 1);
    }
  }

  lemma {:induction false} CodeStep(units: seq<Unit>, n: nat)
    requires n < |units|
    ensures var u := units[n]; CodeOf(units, n + 1) == CodeOf(units, n) + Loaded(u.code, u.base, u.pool)
    ensures var u := units[n]; |Loaded(u.code, u.base, u.pool)| == |u.code|
  {
  }

  /** Instruction `k` of unit `n` is at its unit's address in the text of the first `n + 1` units. */
  lemma {:induction false} UnitOffset(base: nat, units: seq<Unit>, n: nat, k: nat)
    requires n < |units| && Contiguous(base, units) && k <= |units[n].code|
    ensures |CodeOf(units, n + 1)| == Start(units, n) + |units[n].code|
    ensures base + Offset(CodeOf(units, n + 1), Start(units, n) + k) == Addr(units[n], k)
    decreases n
  {
    hide CodeOf, Loaded, LoadedInstr, Offset, AllTargets, TargetsOf, BaseOf;
    var u := units[n];
    CodeStep(units, n);
    Lengths(units, n);
    OffsetConcat(CodeOf(units, n), Loaded(u.code, u.base, u.pool), k);
    LoadedOffset(u, k);
    CodeEnd(base, units, n);
  }

  lemma {:induction false} NoOffset(units: seq<Unit>)
    ensures CodeOf(units, 0) == [] && Offset(CodeOf(units, 0), 0) == 0
  {
  }

  lemma {:induction false} CodeEnd(base: nat, units: seq<Unit>, n: nat)
    requires n <= |units|
    ensures base + Offset(CodeOf(units, n), |CodeOf(units, n)|) == BaseOf(base, units, n)
  {
    hide CodeOf, Loaded, LoadedInstr, Offset, AllTargets, TargetsOf;
    if n == 0 {
      NoOffset(units);
    } else {
      var u := units[n - 1];
      var p, q := CodeOf(units, n - 1), Loaded(u.code, u.base, u.pool);
      CodeEnd(base, units, n - 1);
      CodeStep(units, n - 1);
      OffsetConcat(p, q, |q|);
      LoadedOffset(u, |q|);
      assert Offset(CodeOf(units, n), |CodeOf(units, n)|) == Offset(p, |p|) + Offset(u.code, |u.code|);
    }
  }

  /** The text of more units begins with that of fewer. */
  lemma {:induction false} CodeGrows(units: seq<Unit>, m: nat, n: nat)
    requires m <= n <= |units|
    ensures CodeOf(units, m) <= CodeOf(units, n) && AllTargets(units, m) <= AllTargets(units, n)
    ensures Start(units, m) <= Start(units, n)
  {
    if m < n {
      CodeGrows(units, m, n - 1);
    }
  }

  /** Where instruction `k` of unit `n` is, and what it is. */
  lemma {:induction false} InText(base: nat, units: seq<Unit>, n: nat, k: nat)
    requires n < |units| && Contiguous(base, units) && k <= |units[n].code|
    ensures var x, g := TextOf(base, units), Start(units, n) + k;
      && |x.code| == |x.targets| == Start(units, |units|) && g <= |x.code|
      && Simulation.AddrOf(x, g) == Addr(units[n], k)
      && (k < |units[n].code| ==>
            && g < |x.code| && x.code[g] == LoadedInstr(units[n].code, k, units[n].base, units[n].pool)
            && x.targets[g] == TargetsOf(units[n].code, Start(units, n))[k])
  {
    hide Loaded, LoadedInstr, TargetsOf, CodeOf, AllTargets, Start, Contiguous, Offset, Addr, BaseOf;
    var g := Start(units, n) + k;
    var part, all := CodeOf(units, n + 1), CodeOf(units, |units|);
    Lengths(units, n + 1);
    Lengths(units, |units|);
    CodeGrows(units, n + 1, |units|);
    UnitOffset(base, units, n, k);
    OffsetCong(part, all, g);
    if k < |units[n].code| {
      InPart(units, n, k);
      assert all[g] == part[g] && AllTargets(units, |units|)[g] == AllTargets(units, n + 1)[g];
    }
  }

  lemma {:induction false} InPart(units: seq<Unit>, n: nat, k: nat)
    requires n < |units| && k < |units[n].code|
    ensures var g, u := Start(units, n) + k, units[n];
      && g < |CodeOf(units, n + 1)| == |AllTargets(units, n + 1)|
      && CodeOf(units, n + 1)[g] == LoadedInstr(u.code, k, u.base, u.pool)
      && AllTargets(units, n + 1)[g] == TargetsOf(u.code, Start(units, n))[k]
  {
    hide Loaded, LoadedInstr, TargetsOf;
    Lengths(units, n);
    Lengths(units, n + 1);
    LoadedAt(units[n], k);
  }

  lemma {:induction false} LoadedAt(u: Unit, k: nat)
    requires k < |u.code|
    ensures Loaded(u.code, u.base, u.pool)[k] == LoadedInstr(u.code, k, u.base, u.pool)
  {
  }

  /** The unit instruction `g` of the text comes from. */
  lemma {:induction false} WhichUnit(units: seq<Unit>, n: nat, g: nat) returns (m: nat, k: nat)
    requires n <= |units| && g < Start(units, n)
    ensures m < n && k < |units[m].code| && g == Start(units, m) + k
  {
    if g >= Start(units, n - 1) {
      m, k := n - 1, g - Start(units, n - 1);
    } else {
      m, k := WhichUnit(units, n - 1, g);
    }
  }

  /** Sound units one behind the other are a sound text. */
  lemma {:induction false} TextSound(base: nat, units: seq<Unit>)
    requires Contiguous(base, units) && forall n :: 0 <= n < |units| ==> Sound(units[n])
    requires BaseOf(base, units, |units|) < EMPTY_CATCH
    ensures Simulation.Sound(TextOf(base, units))
  {
    hide Sound, Simulation.InstrSound, Offset, CodeOf, AllTargets, Contiguous, BaseOf;
    var x := TextOf(base, units);
    Lengths(units, |units|);
    CodeEnd(base, units, |units|);
    forall g | 0 <= g < |x.code|
      ensures Simulation.InstrSound(x, g)
    {
      var n, k := WhichUnit(units, |units|, g);
      InstructionSound(base, units, n, k);
    }
  }

  lemma {:induction false} InstructionSound(base: nat, units: seq<Unit>, n: nat, k: nat)
    requires n < |units| && Contiguous(base, units) && Sound(units[n]) && k < |units[n].code|
    ensures |TextOf(base, units).code| == |TextOf(base, units).targets|
    ensures Start(units, n) + k < |TextOf(base, units).code|
    ensures Simulation.InstrSound(TextOf(base, units), Start(units, n) + k)
  {
    hide TextOf, Offset, LoadedField, Contiguous, Addr, Sound;
    var u := units[n];
    InText(base, units, n, k);
    LoadedFitting(u, k);
    if u.code[k].field.Target? {
      LoadedTarget(u, k);
      InText(base, units, n, u.code[k].field.index);
    }
  }

  lemma {:induction false} LoadedFitting(u: Unit, k: nat)
    requires Sound(u) && k < |u.code|
    ensures var x := LoadedInstr(u.code, k, u.base, u.pool); x.Known() && x.field < Pow256(x.width)
  {
    LoadedLayout(u, k);
    LoadedFits(u, k);
  }

  lemma {:induction false} LoadedTarget(u: Unit, k: nat)
    requires Sound(u) && k < |u.code| && u.code[k].field.Target?
    ensures var i := u.code[k].field.index;
      i <= |u.code| && Wrap64(LoadedInstr(u.code, k, u.base, u.pool).field) == Addr(u, i)
  {
    var i := u.code[k].field.index;
    TargetInside(u, k);
    TargetAddress(u, k, i);
    QuotientUnique(Addr(u, i), TWO64, 0, Addr(u, i));
  }

  lemma {:induction false} TargetInside(u: Unit, k: nat)
    requires Sound(u) && k < |u.code| && u.code[k].field.Target?
    ensures u.code[k].field.index <= |u.code|
  {
    assert GroundedIn(u.code[k].field, |u.code|);
  }

  lemma {:induction false} AssembleConcat(p: seq<Instr<nat>>, q: seq<Instr<nat>>)
    ensures Assemble(p + q) == Assemble(p) + Assemble(q)
  {
    hide Offset, Encode, Assemble;
    if |q| == 0 {
      assert p + q == p;
      AssembleNothing(q);
    } else {
      var n := |q| - 1;
      AssembleConcat(p, q[..n]);
      AssembleLast(p + q);
      AssembleLast(q);
      assert (p + q)[..|p + q| - 1] == p + q[..n];
    }
  }

  lemma {:induction false} AssembleNothing(p: seq<Instr<nat>>)
    requires |p| == 0
    ensures Assemble(p) == []
  {
  }
}
