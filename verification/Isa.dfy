/** The instruction set: opcodes, operand layouts, encoding and decoding.

Every instruction is one opcode byte, an optional 3-byte subroutine tag, some
register bytes, at most one little-endian field, and more register bytes. */
module Isa {
  import opened Words

  const NOOP: byte := 0
  const DIE: byte := 1
  const JUMP: byte := 2
  const GOTO: byte := 3
  const RETURN: byte := 4
  const IF: byte := 5
  const CALL: byte := 6
  const TAILCALL: byte := 7
  const INVOKESYMBOLIC: byte := 8
  const INVOKEADDRESS: byte := 9
  const INVOKEPRIMITIVE: byte := 10
  const SETSTRING: byte := 11
  const SETINTEGER: byte := 12
  const SETFLOAT: byte := 13
  const SETSTRUCT: byte := 14
  const SETSYMBOL: byte := 15
  const SETNULL: byte := 16
  const GETLOCAL: byte := 17
  const SETLOCAL: byte := 18
  const GETGLOBAL: byte := 19
  const SETGLOBAL: byte := 20
  const ADD: byte := 21
  const SUB: byte := 22
  const MUL: byte := 23
  const DIV: byte := 24
  const MOD: byte := 25
  const ARRAYPUSH: byte := 27
  const ARRAYSHIFT: byte := 28
  const ARRAYPOP: byte := 29
  const ARRAYUNSHIFT: byte := 30
  const ARRAYGET: byte := 31
  const ARRAYSET: byte := 32
  const ARRAYREMOVE: byte := 33
  const ARRAYNEW: byte := 34
  const ARRAYLEN: byte := 35
  const STRUCTSET: byte := 36
  const STRUCTGET: byte := 37
  const STRUCTDELETE: byte := 38
  const STRUCTNEW: byte := 39
  const LITINTEGER: byte := 41
  const SYMBOLICATE: byte := 42
  const MOVE: byte := 43
  const GOTOADDRESS: byte := 44
  const LT: byte := 45
  const GT: byte := 46
  const LTE: byte := 47
  const GTE: byte := 48
  const EQ: byte := 49
  const CATCH: byte := 50
  const CLEARCATCH: byte := 51
  const CLEAREXCEPTION: byte := 52
  const SETEXCEPTION: byte := 53
  const THROW: byte := 54
  const GETEXCEPTIONDATA: byte := 55
  const GETCLOSURE: byte := 56
  const CALLSYMBOLIC: byte := 57
  const CALLPRIMITIVE: byte := 58
  const AND: byte := 60

  /** Bytes of the subroutine tag. */
  const TAG_SIZE: nat := 3

  /** Operand layout of an opcode: tag, registers, field width, registers. */
  datatype Shape = Shape(tagged: bool, pre: nat, width: nat, post: nat) {
    function PreAt(): nat { if tagged then 1 + TAG_SIZE else 1 }
    function FieldAt(): nat { PreAt() + pre }
    function PostAt(): nat { FieldAt() + width }
    function Size(): (n: nat)
      ensures n >= 1
    {
      PostAt() + post
    }
  }

  predicate OneRegister(op: byte) {
    op == RETURN || op == SETNULL || op == STRUCTNEW || op == GOTOADDRESS || op == SETEXCEPTION || op == THROW
    || op == GETCLOSURE
  }

  predicate TwoRegisters(op: byte) {
    op == INVOKEPRIMITIVE || GETLOCAL <= op <= SETGLOBAL || ARRAYPUSH <= op <= ARRAYUNSHIFT
    || op == ARRAYNEW || op == ARRAYLEN || op == SYMBOLICATE || op == MOVE
  }

  predicate ThreeRegisters(op: byte) {
    ADD <= op <= MOD || ARRAYGET <= op <= ARRAYREMOVE || STRUCTSET <= op <= STRUCTDELETE || LT <= op <= EQ || op == AND
  }

  /** The layouts the dispatcher reads; None for an opcode it does not execute. */
  function ShapeOf(op: byte): (r: Option<Shape>) {
    if op == NOOP || op == DIE || op == CLEARCATCH || op == CLEAREXCEPTION then Some(Shape(false, 0, 0, 0))
    else if OneRegister(op) then Some(Shape(false, 1, 0, 0))
    else if TwoRegisters(op) then Some(Shape(false, 2, 0, 0))
    else if ThreeRegisters(op) then Some(Shape(false, 3, 0, 0))
    else if op == JUMP then Some(Shape(false, 0, 4, 0))
    else if op == GOTO then Some(Shape(false, 0, 8, 0))
    else if op == CATCH then Some(Shape(false, 0, 8, 1))
    else if op == IF || op == LITINTEGER then Some(Shape(false, 1, 8, 0))
    else if SETSTRING <= op <= SETSYMBOL then Some(Shape(false, 1, 4, 0))
    else if op == CALL then Some(Shape(true, 0, 8, 1))
    else if op == TAILCALL then Some(Shape(true, 0, 8, 0))
    else if op == CALLSYMBOLIC || op == CALLPRIMITIVE then Some(Shape(true, 0, 4, 1))
    else if op == INVOKESYMBOLIC || op == INVOKEADDRESS then Some(Shape(true, 2, 0, 0))
    else None
  }

  /** An instruction. Its field is a number once laid out and an operand before. */
  datatype Instr<V> = Instr(op: byte, tagged: bool, pre: seq<byte>, width: nat, field: V, post: seq<byte>) {
    function Layout(): Shape { Shape(tagged, |pre|, width, |post|) }

    function Size(): (n: nat)
      ensures n >= 1
    {
      Layout().Size()
    }

    /** The layout is the one the dispatcher reads for the opcode. */
    predicate Known() { ShapeOf(op) == Some(Layout()) }
  }

  function TagBytes(tagged: bool): seq<byte> { if tagged then [0, 0, 0] else [] }

  /** The bytes the assembler writes; a fresh tag is three zero bytes. */
  function Encode(i: Instr<nat>): (s: seq<byte>)
    ensures |s| == i.Size()
  {
    [i.op] + TagBytes(i.tagged) + i.pre + Little(i.width, i.field) + i.post
  }

  /** What the dispatcher reads at `ip`: opcode, registers and field. The tag is not part of it. */
  function Decode(mem: seq<byte>, ip: nat): (r: Option<Instr<nat>>) {
    if ip >= |mem| then None
    else
      var sh :- ShapeOf(mem[ip]);
      DecodeAs(mem, ip, sh)
  }

  function DecodeAs(mem: seq<byte>, ip: nat, sh: Shape): (r: Option<Instr<nat>>)
    requires ip < |mem|
  {
    if ip + sh.Size() > |mem| then None
    else Some(Instr(mem[ip], sh.tagged,
                    mem[ip + sh.PreAt()..ip + sh.FieldAt()], sh.width,
                    FromLittle(mem[ip + sh.FieldAt()..ip + sh.PostAt()]),
                    mem[ip + sh.PostAt()..ip + sh.Size()]))
  }

  /** Byte `b` of an encoding belongs to the tag. */
  predicate InTag<V>(i: Instr<V>, b: int) { i.tagged && 1 <= b <= TAG_SIZE }

  /** `mem` holds instruction `i` at `ip`, whatever its tag has counted. */
  ghost predicate HoldsAt(mem: seq<byte>, ip: nat, i: Instr<nat>) {
    && ip + i.Size() <= |mem|
    && forall b :: 0 <= b < i.Size() && !InTag(i, b) ==> mem[ip + b] == Encode(i)[b]
  }

  lemma {:induction false} DecodeHeld(mem: seq<byte>, ip: nat, i: Instr<nat>)
    requires i.Known() && i.field < Pow256(i.width) && HoldsAt(mem, ip, i)
    ensures Decode(mem, ip) == Some(i)
  {
    assert mem[ip + 0] == Encode(i)[0] == i.op;
    DecodeAsHeld(mem, ip, i);
  }

  lemma {:induction false} DecodeAsHeld(mem: seq<byte>, ip: nat, i: Instr<nat>)
    requires i.field < Pow256(i.width) && HoldsAt(mem, ip, i)
    ensures DecodeAs(mem, ip, i.Layout()) == Some(i)
  {
    hide Encode;
    var sh, e := i.Layout(), Encode(i);
    EncodeParts(i);
    assert mem[ip + 0] == e[0] == i.op;
    Shifted(mem, ip, e, sh.PreAt(), sh.FieldAt());
    Shifted(mem, ip, e, sh.FieldAt(), sh.PostAt());
    Shifted(mem, ip, e, sh.PostAt(), sh.Size());
    FromLittleOfLittle(i.width, i.field);
    QuotientUnique(i.field, Pow256(i.width), 0, i.field);
  }

  lemma {:induction false} EncodeParts(i: Instr<nat>)
    ensures var sh, e := i.Layout(), Encode(i);
      && e[0] == i.op
      && e[sh.PreAt()..sh.FieldAt()] == i.pre
      && e[sh.FieldAt()..sh.PostAt()] == Little(i.width, i.field)
      && e[sh.PostAt()..sh.Size()] == i.post
  {
  }

  lemma {:induction false} Shifted(mem: seq<byte>, ip: nat, e: seq<byte>, lo: nat, hi: nat)
    requires lo <= hi <= |e| && ip + |e| <= |mem|
    requires forall b :: lo <= b < hi ==> mem[ip + b] == e[b]
    ensures mem[ip + lo..ip + hi] == e[lo..hi]
  {
    forall k | 0 <= k < hi - lo
      ensures mem[ip + lo..ip + hi][k] == e[lo..hi][k]
    {
      assert mem[ip + (lo + k)] == e[lo + k];
    }
  }

  // ---------------------------------------------------------------- layout

  /** Byte offset of instruction `k`. */
  function Offset<V>(p: seq<Instr<V>>, k: nat): (n: nat)
    requires k <= |p|
    ensures n >= k
  {
    if k == 0 then 0 else Offset(p, k - 1) + p[k - 1].Size()
  }

  lemma {:induction false} OffsetMonotone<V>(p: seq<Instr<V>>, j: nat, k: nat)
    requires j <= k <= |p|
    ensures Offset(p, j) + (k - j) <= Offset(p, k)
    ensures j < k ==> Offset(p, j) + p[j].Size() <= Offset(p, k)
  {
    if j < k {
      OffsetMonotone(p, j, k - 1);
    }
  }

  /** Offsets depend on the instruction sizes only. */
  lemma {:induction false} OffsetCong<V, W>(p: seq<Instr<V>>, q: seq<Instr<W>>, k: nat)
    requires k <= |p| && k <= |q|
    requires forall j :: 0 <= j < k ==> p[j].Size() == q[j].Size()
    ensures Offset(p, k) == Offset(q, k)
  {
    if k > 0 {
      OffsetCong(p, q, k - 1);
    }
  }

  /** The bytes of a program, one instruction after another. */
  function Assemble(p: seq<Instr<nat>>): (s: seq<byte>)
    ensures |s| == Offset(p, |p|)
  {
    if |p| == 0 then []
    else
      OffsetCong(p[..|p| - 1], p, |p| - 1);
      Assemble(p[..|p| - 1]) + Encode(p[|p| - 1])
  }

  lemma {:induction false} AssembleLast(p: seq<Instr<nat>>)
    requires |p| > 0
    ensures Assemble(p) == Assemble(p[..|p| - 1]) + Encode(p[|p| - 1])
  {
    hide Offset, Encode;
  }

  lemma {:induction false} AssembleAt(p: seq<Instr<nat>>, k: nat)
    requires k < |p|
    ensures Offset(p, k) + p[k].Size() <= |Assemble(p)|
    ensures Assemble(p)[Offset(p, k)..Offset(p, k) + p[k].Size()] == Encode(p[k])
  {
    hide Assemble, Encode;
    var front, last := p[..|p| - 1], Encode(p[|p| - 1]);
    OffsetCong(front, p, |p| - 1);
    OffsetCong(front, p, k);
    AssembleLast(p);
    if k < |p| - 1 {
      AssembleAt(front, k);
      SliceOfPrefix(Assemble(front), last, Offset(p, k), Offset(p, k) + p[k].Size());
    } else {
      assert (Assemble(front) + last)[|Assemble(front)|..] == last;
    }
  }

  lemma {:induction false} SliceOfPrefix<T>(s: seq<T>, t: seq<T>, lo: nat, hi: nat)
    requires lo <= hi <= |s|
    ensures (s + t)[lo..hi] == s[lo..hi]
  {
  }
}
