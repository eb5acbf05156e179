/** Programs whose addresses are still symbolic, and what they look like once laid out. */
module Symbolic {
  import opened Words
  import opened Isa

  /** A constant a chunk asks the loader to put in the pool. */
  datatype Literal = StringLit(text: string) | IntegerLit(n: i64) | SymbolLit(text: string)

  datatype Operand =
    | Raw(n: nat)                 // plain bits
    | Rel(address: u64)                 // an address given as a byte offset into the chunk
    | Target(index: nat)          // the address of an instruction
    | Late(index: nat)            // such an address, written three bytes too far along
    | Constant(literal: Literal)   // an index into the constant pool
  {
    predicate Relocated() { Rel? || Target? || Late? }
  }

  type Program = seq<Instr<Operand>>

  /** Constants used before instruction `k`. */
  function Ordinal(p: Program, k: nat): nat
    requires k <= |p|
  {
    if k == 0 then 0 else Ordinal(p, k - 1) + (if p[k - 1].field.Constant? then 1 else 0)
  }

  const SHIFT40: nat := 0x100_0000_0000

  /** Three zero bytes followed by the five low bytes of `d`, read as one field. */
  function Displaced(d: nat): u64 { Wrap64(d * SHIFT24) }

  /** The number in the field of instruction `k`, in the chunk. */
  function FieldOf(p: Program, k: nat): nat
    requires k < |p|
  {
    match p[k].field
    case Raw(n) => n
    case Rel(n) => n
    case Target(i) => if i <= |p| then Offset(p, i) else 0
    case Late(i) => if i <= |p| then Displaced(Offset(p, i)) else 0
    case Constant(_) => Ordinal(p, k)
  }

  /** The register after the field: a late address runs over it. */
  function PostOf(p: Program, k: nat): (s: seq<byte>)
    requires k < |p|
    ensures |s| == |p[k].post|
  {
    match p[k].field
    case Late(i) => seq(|p[k].post|, _ => if i <= |p| then (Offset(p, i) / SHIFT40) % 0x100 else 0)
    case _ => p[k].post
  }

  /** Instruction `k` as numbers. */
  function Lay(p: Program, k: nat): (i: Instr<nat>)
    requires k < |p|
    ensures i.op == p[k].op && i.Layout() == p[k].Layout()
  {
    Instr(p[k].op, p[k].tagged, p[k].pre, p[k].width, FieldOf(p, k), PostOf(p, k))
  }

  function LaidOut(p: Program): (q: seq<Instr<nat>>)
    ensures |q| == |p|
    ensures forall k :: 0 <= k < |p| ==> q[k] == Lay(p, k)
  {
    seq(|p|, k requires 0 <= k < |p| => Lay(p, k))
  }

  lemma {:induction false} LaidOutOffset(p: Program, k: nat)
    requires k <= |p|
    ensures Offset(LaidOut(p), k) == Offset(p, k)
  {
    OffsetCong(p, LaidOut(p), k);
  }

  /** Every address in the program names an instruction of it, or its end. */
  ghost predicate Grounded(p: Program) {
    forall k :: 0 <= k < |p| ==> GroundedIn(p[k].field, |p|)
  }

  predicate GroundedIn(o: Operand, n: nat) {
    match o
    case Target(i) => i <= n
    case Late(i) => i <= n
    case _ => true
  }

  lemma {:induction false} OffsetPrefix<V>(p: seq<Instr<V>>, q: seq<Instr<V>>, k: nat)
    requires k <= |p|
    ensures Offset(p + q, k) == Offset(p, k)
  {
    OffsetCong(p, p + q, k);
  }

  lemma {:induction false} OrdinalPrefix(p: Program, q: Program, k: nat)
    requires k <= |p|
    ensures Ordinal(p + q, k) == Ordinal(p, k)
  {
    if k > 0 {
      OrdinalPrefix(p, q, k - 1);
    }
  }

  /** Adding instructions does not change the numbers of those already there. */
  lemma {:induction false} LayPrefix(p: Program, q: Program, k: nat)
    requires Grounded(p) && k < |p|
    ensures Lay(p + q, k) == Lay(p, k)
  {
    assert (p + q)[k] == p[k];
    OrdinalPrefix(p, q, k);
    match p[k].field
    case Target(i) => OffsetPrefix(p, q, i);
    case Late(i) => OffsetPrefix(p, q, i);
    case _ =>
  }

  lemma {:induction false} LaidOutSnoc(p: Program, x: Instr<Operand>)
    requires Grounded(p) && GroundedIn(x.field, |p|)
    ensures Grounded(p + [x])
    ensures LaidOut(p + [x]) == LaidOut(p) + [Lay(p + [x], |p|)]
  {
    forall k | 0 <= k < |p|
      ensures LaidOut(p + [x])[k] == LaidOut(p)[k]
    {
      LayPrefix(p, [x], k);
    }
  }

  function RelocationOf(x: Instr<Operand>, at: nat): seq<nat> {
    if x.field.Relocated() then [at + x.Layout().FieldAt()] else []
  }

  /** Where the addresses are: the chunk's relocation section. */
  function Relocations(p: Program): seq<nat> {
    if |p| == 0 then []
    else Relocations(p[..|p| - 1]) + RelocationOf(p[|p| - 1], Offset(p, |p| - 1))
  }

  datatype ConstantUse = ConstantUse(index: nat, literal: Literal)

  function ConstantOf(x: Instr<Operand>, at: nat): seq<ConstantUse> {
    if x.field.Constant? then [ConstantUse(at + x.Layout().FieldAt(), x.field.literal)] else []
  }

  /** Where the constants are: the chunk's constant section. */
  function Constants(p: Program): (c: seq<ConstantUse>)
    ensures |c| == Ordinal(p, |p|)
  {
    if |p| == 0 then []
    else
      var k := |p| - 1;
      assert p == p[..k] + [p[k]];
      OrdinalPrefix(p[..k], [p[k]], k);
      Constants(p[..k]) + ConstantOf(p[k], Offset(p, k))
  }

  lemma {:induction false} SectionsSnoc(p: Program, x: Instr<Operand>)
    ensures Relocations(p + [x]) == Relocations(p) + RelocationOf(x, Offset(p, |p|))
    ensures Constants(p + [x]) == Constants(p) + ConstantOf(x, Offset(p, |p|))
  {
    assert (p + [x])[..|p|] == p;
    OffsetPrefix(p, [x], |p|);
  }

  /** Turning one address operand into another leaves both sections alone. */
  lemma {:induction false} SectionsRetarget(p: Program, q: Program)
    requires |p| == |q|
    requires forall k :: 0 <= k < |p| ==> p[k].Layout() == q[k].Layout()
    requires forall k :: 0 <= k < |p| ==> p[k].field == q[k].field || (p[k].field.Relocated() && q[k].field.Relocated())
    ensures Relocations(p) == Relocations(q) && Constants(p) == Constants(q)
  {
    hide Offset, Relocations, Constants;
    if |p| == 0 {
      assert p == q;
    } else {
      var k := |p| - 1;
      SectionsRetarget(p[..k], q[..k]);
      OffsetCong(p[..k], q[..k], k);
      assert p == p[..k] + [p[k]] && q == q[..k] + [q[k]];
      SectionsSnoc(p[..k], p[k]);
      SectionsSnoc(q[..k], q[k]);
      assert RelocationOf(p[k], Offset(p[..k], k)) == RelocationOf(q[k], Offset(q[..k], k));
      assert ConstantOf(p[k], Offset(p[..k], k)) == ConstantOf(q[k], Offset(q[..k], k));
    }
  }

  /** Address and constant fields have their widths, and numbers fit theirs. */
  ghost predicate WellTyped(p: Program) {
    forall k :: 0 <= k < |p| ==> WellTypedField(p[k])
  }

  predicate WellTypedField(x: Instr<Operand>) {
    match x.field
    case Raw(n) => n < Pow256(x.width)
    case Constant(_) => x.width == 4
    case _ => x.width == 8
  }

  // ---------------------------------------------------------------- bytes against a program

  /** `code` has the bytes of `p`, except perhaps the first `from` bytes of each instruction. */
  ghost predicate Agrees(code: seq<byte>, p: seq<Instr<nat>>, from: nat) {
    && |code| == Offset(p, |p|)
    && forall k, b :: 0 <= k < |p| && from <= b < p[k].Size() ==> ByteAgrees(code, p, k, b)
  }

  ghost predicate ByteAgrees(code: seq<byte>, p: seq<Instr<nat>>, k: nat, b: nat)
    requires k < |p| && b < p[k].Size()
    requires |code| == Offset(p, |p|)
  {
    OffsetMonotone(p, k, |p|);
    code[Offset(p, k) + b] == Encode(p[k])[b]
  }

  lemma {:induction false} WhichInstruction<V>(p: seq<Instr<V>>, at: nat, n: nat) returns (k: nat)
    requires n <= |p| && at < Offset(p, n)
    ensures k < n && Offset(p, k) <= at < Offset(p, k) + p[k].Size()
  {
    if at >= Offset(p, n - 1) {
      k := n - 1;
    } else {
      k := WhichInstruction(p, at, n - 1);
    }
  }

  lemma {:induction false} AssembleByte(p: seq<Instr<nat>>, k: nat, b: nat)
    requires k < |p| && b < p[k].Size()
    ensures Offset(p, k) + b < |Assemble(p)|
    ensures Assemble(p)[Offset(p, k) + b] == Encode(p[k])[b]
  {
    AssembleAt(p, k);
    var lo, hi := Offset(p, k), Offset(p, k) + p[k].Size();
    assert Assemble(p)[lo + b] == Assemble(p)[lo..hi][b];
  }

  /** With no byte excepted, agreement is equality. */
  lemma {:induction false} AgreesExactly(code: seq<byte>, p: seq<Instr<nat>>)
    ensures Agrees(code, p, 0) <==> code == Assemble(p)
  {
    if Agrees(code, p, 0) {
      forall at | 0 <= at < |code|
        ensures code[at] == Assemble(p)[at]
      {
        var k := WhichInstruction(p, at, |p|);
        var b := at - Offset(p, k);
        assert ByteAgrees(code, p, k, b);
        AssembleByte(p, k, b);
      }
    }
    if code == Assemble(p) {
      forall k, b | 0 <= k < |p| && 0 <= b < p[k].Size()
        ensures ByteAgrees(code, p, k, b)
      {
        AssembleByte(p, k, b);
      }
    }
  }

  lemma {:induction false} AgreesSnoc(code: seq<byte>, p: seq<Instr<nat>>, x: Instr<nat>, from: nat)
    requires Agrees(code, p, from)
    ensures Agrees(code + Encode(x), p + [x], from)
  {
    var q := p + [x];
    OffsetPrefix(p, [x], |p|);
    forall k, b | 0 <= k < |q| && from <= b < q[k].Size()
      ensures |code + Encode(x)| == Offset(q, |q|) && ByteAgrees(code + Encode(x), q, k, b)
    {
      OffsetPrefix(p, [x], k);
      if k < |p| {
        OffsetMonotone(p, k, |p|);
        assert ByteAgrees(code, p, k, b);
      }
    }
  }

  /** Writing `bytes` inside instruction `j` changes instruction `j` only. */
  lemma {:induction false} AgreesPoke(code: seq<byte>, p: seq<Instr<nat>>, j: nat, x: Instr<nat>, at: nat,
      bytes: seq<byte>, from: nat)
    requires Agrees(code, p, from) && j < |p| && x.Size() == p[j].Size()
    requires at + |bytes| <= x.Size() + from
    requires forall b :: from <= b < x.Size() ==>
               Encode(x)[b] == if at <= b < at + |bytes| then bytes[b - at] else Encode(p[j])[b]
    ensures Agrees(Poke(code, Offset(p, j) + at, bytes), p[j := x], from)
  {
    var q, r := p[j := x], Poke(code, Offset(p, j) + at, bytes);
    OffsetCong(p, q, |p|);
    forall k, b | 0 <= k < |q| && from <= b < q[k].Size()
      ensures ByteAgrees(r, q, k, b)
    {
      PokeByte(code, p, j, x, at, bytes, from, k, b);
    }
  }

  lemma {:induction false} PokeByte(code: seq<byte>, p: seq<Instr<nat>>, j: nat, x: Instr<nat>, at: nat,
      bytes: seq<byte>, from: nat,
                 k: nat, b: nat)
    requires Agrees(code, p, from) && j < |p| && x.Size() == p[j].Size()
    requires at + |bytes| <= x.Size() + from
    requires k < |p| && from <= b < p[k].Size()
    requires k == j ==> Encode(x)[b] == if at <= b < at + |bytes| then bytes[b - at] else Encode(p[j])[b]
    ensures |code| == Offset(p[j := x], |p|)
    ensures ByteAgrees(Poke(code, Offset(p, j) + at, bytes), p[j := x], k, b)
  {
    hide Encode, Offset;
    var q := p[j := x];
    OffsetCong(p, q, |p|);
    OffsetCong(p, q, k);
    assert ByteAgrees(code, p, k, b);
    OffsetMonotone(p, k, |p|);
    assert k != j ==> !(Offset(p, j) + at <= Offset(p, k) + b < Offset(p, j) + at + |bytes|) by {
      if k < j {
        OffsetMonotone(p, k, j);
      } else if k > j {
        OffsetMonotone(p, j, k);
      }
    }
  }
}
