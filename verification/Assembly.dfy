/** What the one-pass generator does with a block (as a function), and what the block means
(by resolving every name first).

`Generator.dfy` has the generator itself: the items a front end hands it, each of which comes
to one of the lines below, and the loops that write them into a buffer. */
module Assembly {
  import opened Words
  import opened Isa
  import opened Symbolic

  /** The operands a line can have without naming a label. */
  type Given = o: Operand | o.Raw? || o.Rel? || o.Constant? witness Raw(0)

  /** One line of assembly. */
  datatype Line =
    | Plain(shape: Instr<()>, operand: Given)                            // names no label
    | Refer(op: byte, pre: seq<byte>, post: seq<byte>, name: string)     // a label's address
    | ReferCall(op: byte, reg: byte, name: string)                       // the same, in a tagged call
    | Define(name: string, sub: bool)
    | Mark(line: u64, entry: string, flags: byte)
    | Inner(block: Block)

  datatype Block = Block(lines: seq<Line>)

  predicate Names(l: Line) { l.Refer? || l.ReferCall? }

  predicate Emits(l: Line) { l.Plain? || Names(l) }

  /** The line's instruction with `v` in its field. */
  function Lower<V>(l: Line, v: V): Instr<V>
    requires Emits(l)
  {
    match l
    case Plain(s, _) => Instr(s.op, s.tagged, s.pre, s.width, v, s.post)
    case Refer(op, pre, post, _) => Instr(op, false, pre, 8, v, post)
    case ReferCall(op, reg, _) => Instr(op, true, [], 8, v, [reg])
  }

  // ---------------------------------------------------------------- the one-pass generator

  datatype SymbolDef = SymbolDef(index: nat, name: string)

  datatype DebugEntry = DebugEntry(start: nat, end: u64, line: u64, entry: string, flags: byte)

  /** A chunk under construction. */
  datatype Output = Output(code: seq<byte>, relocs: seq<nat>, constants: seq<ConstantUse>,
                           symbols: seq<SymbolDef>, debug: seq<DebugEntry>)

  const EMPTY_OUTPUT := Output([], [], [], [], [])

  /** An address still to be written once its label is known. */
  datatype Use = Use(name: string, idx: nat)

  datatype OpenMark = OpenMark(ip: nat, line: u64, entry: string, flags: byte)

  /** The generator's state while it goes through one block. */
  datatype Pass = Pass(out: Output, labels: map<string, nat>, uses: seq<Use>, mark: Option<OpenMark>)

  function CloseMark(out: Output, mark: Option<OpenMark>): Output {
    match mark
    case None => out
    case Some(m) =>
      out.(debug := out.debug + [DebugEntry(m.ip, Wrap64(|out.code| - 1), m.line, m.entry, m.flags)])
  }

  /** How far into the instruction a label use is recorded for back-patching. For a call this is
  not where its address field is. */
  function PatchAt(l: Line): nat
    requires Names(l)
  {
    if l.ReferCall? then TAG_SIZE + 4 else Lower(l, 0).Layout().FieldAt()
  }

  /** The number the generator writes in a line's field. */
  function FieldWritten(p: Pass, l: Line): nat
    requires Emits(l)
  {
    if Names(l) then (if l.name in p.labels then p.labels[l.name] else 0)
    else
      match l.operand
      case Raw(n) => n
      case Rel(n) => n
      case Constant(_) => |p.out.constants|
      case _ => 0
  }

  function EmitLine(p: Pass, l: Line): Pass
    requires Emits(l)
  {
    var at := |p.out.code|;
    var x := Lower(l, if Names(l) then Rel(0) else l.operand);
    Pass(p.out.(code := p.out.code + Encode(Lower(l, FieldWritten(p, l))),
                relocs := p.out.relocs + RelocationOf(x, at),
                constants := p.out.constants + ConstantOf(x, at)),
         p.labels,
         if Names(l) && l.name !in p.labels then [Use(l.name, at + PatchAt(l))] + p.uses else p.uses,
         p.mark)
  }

  function GenLine(p: Pass, l: Line): Pass
    decreases l
  {
    match l
    case Inner(block) => p.(out := GenBlock(p.out, block))
    case Define(name, sub) =>
      var at := |p.out.code|;
      p.(out := if sub then p.out.(symbols := p.out.symbols + [SymbolDef(at, name)]) else p.out,
         labels := p.labels[name := at])
    case Mark(line, entry, flags) =>
      p.(out := CloseMark(p.out, p.mark), mark := Some(OpenMark(|p.out.code|, line, entry, flags)))
    case _ => EmitLine(p, l)
  }

  function GenLines(p: Pass, block: Block, k: nat): Pass
    requires k <= |block.lines|
    decreases block, k
  {
    if k == 0 then p else GenLine(GenLines(p, block, k - 1), block.lines[k - 1])
  }

  function Backpatch(code: seq<byte>, uses: seq<Use>, labels: map<string, nat>): (r: seq<byte>)
    ensures |r| == |code|
    decreases |uses|
  {
    if |uses| == 0 then code
    else
      Backpatch(if uses[0].name in labels then Poke(code, uses[0].idx, Little(8, labels[uses[0].name])) else code,
                uses[1..], labels)
  }

  function GenBlock(out: Output, block: Block): Output
    decreases block
  {
    var p := GenLines(Pass(out, map[], [], None), block, |block.lines|);
    CloseMark(p.out.(code := Backpatch(p.out.code, p.uses, p.labels)), p.mark)
  }

  // ---------------------------------------------------------------- what the items mean

  /** Instructions among the first `k` lines. */
  function Count(b: Block, k: nat): nat
    requires k <= |b.lines|
    decreases b, k
  {
    if k == 0 then 0 else Count(b, k - 1) + LineCount(b.lines[k - 1])
  }

  function LineCount(l: Line): nat
    decreases l
  {
    match l
    case Inner(block) => Count(block, |block.lines|)
    case _ => if Emits(l) then 1 else 0
  }

  /** The instruction the latest definition of `name` among the first `k` lines stands before,
  when the block's first instruction is number `n0`. Inner blocks keep their labels to themselves. */
  function LabelAt(b: Block, k: nat, n0: nat, name: string): Option<nat>
    requires k <= |b.lines|
  {
    if k == 0 then None
    else if b.lines[k - 1].Define? && b.lines[k - 1].name == name then Some(n0 + Count(b, k - 1))
    else LabelAt(b, k - 1, n0, name)
  }

  /** What a label use gets if `seen` is the label's place: an unknown name is the start of the chunk. */
  function Place(seen: Option<nat>): Operand {
    match seen
    case Some(i) => Target(i)
    case None => Rel(0)
  }

  /** The operand of line `k`, knowing only the labels before it. */
  function Early(b: Block, k: nat, n0: nat): Operand
    requires k < |b.lines| && Emits(b.lines[k])
  {
    if b.lines[k].Plain? then b.lines[k].operand else Place(LabelAt(b, k, n0, b.lines[k].name))
  }

  /** Line `k` names a label its block has not defined yet. */
  predicate Unresolved(b: Block, k: nat, n0: nat)
    requires k < |b.lines|
  {
    Names(b.lines[k]) && LabelAt(b, k, n0, b.lines[k].name).None?
  }

  /** The operand of line `k`: a definition before it counts, else the block's last one. */
  function Meant(b: Block, k: nat, n0: nat): Operand
    requires k < |b.lines| && Emits(b.lines[k])
  {
    if Unresolved(b, k, n0) then Place(LabelAt(b, |b.lines|, n0, b.lines[k].name)) else Early(b, k, n0)
  }

  /** A call to a label its own block defines only later. */
  predicate ForwardCall(b: Block, k: nat, n0: nat)
    requires k < |b.lines|
  {
    b.lines[k].ReferCall? && Unresolved(b, k, n0) && LabelAt(b, |b.lines|, n0, b.lines[k].name).Some?
  }

  /** Line `k`, or a block inside it, calls forward. */
  ghost predicate Offends(b: Block, k: nat)
    requires k < |b.lines|
    decreases b, 0
  {
    ForwardCall(b, k, 0) || (b.lines[k].Inner? && !NoForwardCall(b.lines[k].block))
  }

  /** No block, at any depth, calls forward. */
  ghost predicate NoForwardCall(b: Block)
    decreases b, 1
  {
    forall k :: 0 <= k < |b.lines| ==> !Offends(b, k)
  }

  /** `Meant`, except that a forward call's address lands in the wrong place. */
  function Final(b: Block, k: nat, n0: nat): Operand
    requires k < |b.lines| && Emits(b.lines[k])
  {
    if ForwardCall(b, k, n0) then Late(Meant(b, k, n0).index) else Meant(b, k, n0)
  }

  /** The instructions of line `k`, as the generator leaves them. */
  function GeneratedLine(b: Block, k: nat, n0: nat): Program
    requires k < |b.lines|
    decreases b, 0
  {
    match b.lines[k]
    case Inner(block) => Generated(block, 0, n0 + Count(b, k))
    case l => if Emits(l) then [Lower(l, Final(b, k, n0))] else []
  }

  /** The instructions of lines `k` on. */
  function Generated(b: Block, k: nat, n0: nat): Program
    requires k <= |b.lines|
    decreases b, |b.lines| - k + 1
  {
    if k == |b.lines| then [] else GeneratedLine(b, k, n0) + Generated(b, k + 1, n0)
  }

  /** The instructions of line `k`, with every name resolved as meant. */
  function ResolvedLine(b: Block, k: nat, n0: nat): Program
    requires k < |b.lines|
    decreases b, 0
  {
    match b.lines[k]
    case Inner(block) => Resolved(block, 0, n0 + Count(b, k))
    case l => if Emits(l) then [Lower(l, Meant(b, k, n0))] else []
  }

  function Resolved(b: Block, k: nat, n0: nat): Program
    requires k <= |b.lines|
    decreases b, |b.lines| - k + 1
  {
    if k == |b.lines| then [] else ResolvedLine(b, k, n0) + Resolved(b, k + 1, n0)
  }

  /** The two-pass reference assembler: lay out all the names first, then write the bytes. */
  function TwoPass(b: Block): seq<byte> { Assemble(LaidOut(Resolved(b, 0, 0))) }

  /** The dispatcher knows every line's opcode in the layout the line writes, and fields fit. */
  ghost predicate WellFormed(b: Block)
    decreases b
  {
    forall k :: 0 <= k < |b.lines| ==>
      match b.lines[k]
      case Inner(block) => WellFormed(block)
      case l => Emits(l) ==> Lower(l, 0).Known() && (l.Plain? ==> WellTypedField(Lower(l, l.operand)))
  }
}
