/** What each item of assembly means: the bytes written for it, and what the dispatcher decodes at its place. */
module ItemLaws {
  import opened Words
  import opened Isa
  import opened Symbolic
  import opened Assembly
  import opened AssemblyProofs
  import opened AssemblyTheorems
  import opened Generator
  import opened Machine
  import opened Linking
  import opened Units
  import opened Correctness
  import InstructionLaws
  import Symbols

  // ---------------------------------------------------------------- the bytes

  /** The item has appended these bytes, relocations and constants, and nothing else has changed but perhaps `uses`. */
  ghost predicate Wrote(p: Pass, r: Pass, bytes: seq<byte>, relocs: seq<nat>, constants: seq<ConstantUse>) {
    && r.out == p.out.(code := p.out.code + bytes, relocs := p.out.relocs + relocs,
                       constants := p.out.constants + constants)
    && r.labels == p.labels && r.mark == p.mark
  }

  /** The number written for a label: its address if it is known by now. */
  function Known(p: Pass, name: string): nat { if name in p.labels then p.labels[name] else 0 }

  /** What is to be patched for a label not known by now. */
  function Open(p: Pass, name: string, at: nat): seq<Use> {
    if name in p.labels then p.uses else [Use(name, at)] + p.uses
  }

  lemma {:induction false} EncodeIs(x: Instr<nat>)
    ensures Encode(x) == [x.op] + (if x.tagged then [0, 0, 0] else []) + x.pre + Little(x.width, x.field) + x.post
  {
  }

  lemma {:induction false} PlainWritten(p: Pass, l: Line)
    requires l.Plain?
    ensures var at, s := |p.out.code|, l.shape;
      var n := match l.operand case Raw(n) => n case Rel(n) => n case Constant(_) => |p.out.constants| case _ => 0;
      Wrote(p, EmitLine(p, l),
            [s.op] + (if s.tagged then [0, 0, 0] else []) + s.pre + Little(s.width, n) + s.post,
            if l.operand.Rel? then [at + s.Layout().FieldAt()] else [],
            if l.operand.Constant? then [ConstantUse(at + s.Layout().FieldAt(), l.operand.literal)] else [])
      && EmitLine(p, l).uses == p.uses
  {
    hide Encode, Little;
    EncodeIs(Lower(l, FieldWritten(p, l)));
    assert p.out.relocs + [] == p.out.relocs && p.out.constants + [] == p.out.constants;
  }

  lemma {:induction false} LabelWritten(p: Pass, l: Line)
    requires Names(l)
    ensures var at, x := |p.out.code|, Lower(l, Known(p, l.name));
      Wrote(p, EmitLine(p, l), [x.op] + (if x.tagged then [0, 0, 0] else []) + x.pre + Little(8, x.field) + x.post,
            [at + x.Layout().FieldAt()], [])
      && EmitLine(p, l).uses == Open(p, l.name, at + PatchAt(l))
  {
    hide Encode, Little;
    EncodeIs(Lower(l, FieldWritten(p, l)));
    assert p.out.constants + [] == p.out.constants;
  }

  /** The generator's bytes, relocations, constants and label uses, item by item. Addresses are relocated where they
  stand; a call's label is to be patched three bytes behind its field. */
  lemma {:induction false} ItemWritten(p: Pass, item: Item)
    ensures var r, at, n := GenLine(p, LineOf(item)), |p.out.code|, |p.out.constants|;
      match item
      case OpA1(op, a) => Wrote(p, r, [op, a], [], []) && r.uses == p.uses
      case OpA2(op, a, b) => Wrote(p, r, [op, a, b], [], []) && r.uses == p.uses
      case OpA3(op, a, b, c) => Wrote(p, r, [op, a, b, c], [], []) && r.uses == p.uses
      case OpD1(op, dest) => Wrote(p, r, [op] + Little(8, dest), [at + 1], []) && r.uses == p.uses
      case OpD2(op, dest, reg) => Wrote(p, r, [op] + Little(8, dest) + [reg], [at + 1], []) && r.uses == p.uses
      case OpD3(op, reg, dest) => Wrote(p, r, [op, reg] + Little(8, dest), [at + 2], []) && r.uses == p.uses
      case OpE(op, diff) => Wrote(p, r, [op] + Little(4, diff % 0x1_0000_0000), [], []) && r.uses == p.uses
      case OpF(op) => Wrote(p, r, [op], [], []) && r.uses == p.uses
      case OpG(op, reg, lit) => Wrote(p, r, [op, reg] + Little(8, lit % TWO64), [], []) && r.uses == p.uses
      case OpD1Label(op, name) =>
        Wrote(p, r, [op] + Little(8, Known(p, name)), [at + 1], []) && r.uses == Open(p, name, at + 1)
      case OpD2Label(op, name, reg) =>
        Wrote(p, r, [op] + Little(8, Known(p, name)) + [reg], [at + 1], []) && r.uses == Open(p, name, at + 1)
      case OpD3Label(op, reg, name) =>
        Wrote(p, r, [op, reg] + Little(8, Known(p, name)), [at + 2], []) && r.uses == Open(p, name, at + 2)
      case OpGLabel(op, reg, name) =>
        Wrote(p, r, [op, reg] + Little(8, Known(p, name)), [at + 2], []) && r.uses == Open(p, name, at + 2)
      case OpHData(op, reg, literal) =>
        Wrote(p, r, [op, reg] + Little(4, n), [], [ConstantUse(at + 2, literal)]) && r.uses == p.uses
      case OpCall(op, dest, reg) =>
        Wrote(p, r, [op, 0, 0, 0] + Little(8, dest) + [reg], [at + 4], []) && r.uses == p.uses
      case OpCallLabel(op, name, reg) =>
        Wrote(p, r, [op, 0, 0, 0] + Little(8, Known(p, name)) + [reg], [at + 4], []) && r.uses == Open(p, name, at + 7)
      case OpCallSymbolic(op, symbol, reg) =>
        Wrote(p, r, [op, 0, 0, 0] + Little(4, n) + [reg], [], [ConstantUse(at + 4, SymbolLit(symbol))])
        && r.uses == p.uses
      case OpInvokeAddress(op, addr, ret) => Wrote(p, r, [op, 0, 0, 0, addr, ret], [], []) && r.uses == p.uses
      case OpInvokePrimitive(op, sym, ret) => Wrote(p, r, [op, sym, ret], [], []) && r.uses == p.uses
      case Label(name) => r == p.(labels := p.labels[name := at])
      case SubLabel(name) =>
        r == p.(labels := p.labels[name := at], out := p.out.(symbols := p.out.symbols + [SymbolDef(at, name)]))
      case DebugMark(line, entry, flags) =>
        r.mark == Some(OpenMark(at, line, entry, flags)) && r.out.code == p.out.code && r.labels == p.labels
      case Nested(_) => r.labels == p.labels && r.uses == p.uses && r.mark == p.mark
  {
    hide EmitLine, Wrote, Little, GenBlock, BlockOf;
    var l := LineOf(item);
    if l.Plain? {
      PlainWritten(p, l);
      PlainBytes(item, |p.out.constants|);
    } else if Names(l) {
      LabelWritten(p, l);
      var x := Lower(l, Known(p, l.name));
      Joined(x.op, Little(8, x.field), if |x.pre| > 0 then x.pre[0] else 0, if |x.post| > 0 then x.post[0] else 0);
    }
  }

  /** The bytes of an item that names no label, when its constant is number `n`. */
  lemma {:induction false} PlainBytes(item: Item, n: nat)
    requires LineOf(item).Plain?
    ensures var s, o := LineOf(item).shape, LineOf(item).operand;
      var v := match o case Raw(v) => v case Rel(v) => v case Constant(_) => n case _ => 0;
      var bytes := [s.op] + (if s.tagged then [0, 0, 0] else []) + s.pre + Little(s.width, v) + s.post;
      match item
      case OpA1(op, a) => bytes == [op, a]
      case OpA2(op, a, b) => bytes == [op, a, b]
      case OpA3(op, a, b, c) => bytes == [op, a, b, c]
      case OpD1(op, dest) => bytes == [op] + Little(8, dest)
      case OpD2(op, dest, reg) => bytes == [op] + Little(8, dest) + [reg]
      case OpD3(op, reg, dest) => bytes == [op, reg] + Little(8, dest)
      case OpE(op, diff) => bytes == [op] + Little(4, diff % 0x1_0000_0000)
      case OpF(op) => bytes == [op]
      case OpG(op, reg, lit) => bytes == [op, reg] + Little(8, lit % TWO64)
      case OpHData(op, reg, _) => bytes == [op, reg] + Little(4, n)
      case OpCall(op, dest, reg) => bytes == [op, 0, 0, 0] + Little(8, dest) + [reg]
      case OpCallSymbolic(op, _, reg) => bytes == [op, 0, 0, 0] + Little(4, n) + [reg]
      case OpInvokeAddress(op, addr, ret) => bytes == [op, 0, 0, 0, addr, ret]
      case OpInvokePrimitive(op, sym, ret) => bytes == [op, sym, ret]
      case _ => true
  {
    hide Little;
    NoField();
  }

  lemma {:induction false} Joined(op: byte, field: seq<byte>, a: byte, b: byte)
    ensures [op] + [] + [] + field + [] == [op] + field && [op] + [] + [] + field + [b] == [op] + field + [b]
    ensures [op] + [] + [a] + field + [] == [op, a] + field
    ensures [op] + [0, 0, 0] + [] + field + [b] == [op, 0, 0, 0] + field + [b]
  {
  }

  lemma {:induction false} NoField()
    ensures Little(0, 0) == []
  {
  }

  // ---------------------------------------------------------------- the place of an item

  /** `sub` is `block` or nested in it, at any depth; its first instruction is number `m0`, if that of `block` is
  `n0`. */
  ghost predicate Within(block: ItemBlock, n0: nat, sub: ItemBlock, m0: nat)
    decreases block
  {
    || (sub == block && m0 == n0)
    || exists i :: 0 <= i < |block.items| && NestedHolds(block, n0, i, sub, m0)
  }

  ghost predicate NestedHolds(block: ItemBlock, n0: nat, i: nat, sub: ItemBlock, m0: nat)
    requires i < |block.items|
    decreases block, 0
  {
    block.items[i].Nested? && Within(block.items[i].block, n0 + Count(BlockOf(block), i), sub, m0)
  }

  /** The lines' instructions follow each other. */
  lemma {:induction false} ResolvedLineAt(b: Block, j: nat, k: nat, n0: nat)
    requires j <= k < |b.lines|
    ensures Count(b, j) <= Count(b, k) && |ResolvedLine(b, k, n0)| == LineCount(b.lines[k])
    ensures var at, r := Count(b, k) - Count(b, j), Resolved(b, j, n0);
      at + LineCount(b.lines[k]) <= |r| && r[at..at + LineCount(b.lines[k])] == ResolvedLine(b, k, n0)
    decreases k - j
  {
    hide ResolvedLine, LineCount;
    LineLength(b, k, n0);
    LineLength(b, j, n0);
    CountMonotone(b, j, k);
    if j < k {
      ResolvedLineAt(b, j + 1, k, n0);
    }
  }

  lemma {:induction false} NestedAt(block: ItemBlock, n0: nat, sub: ItemBlock, m0: nat)
    requires Within(block, n0, sub, m0)
    ensures var p, q := Resolved(BlockOf(block), 0, n0), Resolved(BlockOf(sub), 0, m0);
      n0 <= m0 && m0 - n0 + |q| <= |p| && p[m0 - n0..m0 - n0 + |q|] == q
    decreases block
  {
    hide Resolved, Count, BlockOf;
    if sub == block && m0 == n0 {
      var p := Resolved(BlockOf(block), 0, n0);
      assert p[0..|p|] == p;
    } else {
      var i: nat :| i < |block.items| && NestedHolds(block, n0, i, sub, m0);
      var b, inner := BlockOf(block), block.items[i].block;
      var at := Count(b, i);
      NestedAt(inner, n0 + at, sub, m0);
      var p, q, r := Resolved(b, 0, n0), Resolved(BlockOf(inner), 0, n0 + at), Resolved(BlockOf(sub), 0, m0);
      NestedLine(block, i, n0);
      SliceInSlice(p, at, at + |q|, m0 - n0 - at, m0 - n0 - at + |r|);
    }
  }

  lemma {:induction false} SliceInSlice<T>(s: seq<T>, lo: nat, hi: nat, a: nat, b: nat)
    requires lo <= hi <= |s| && a <= b <= hi - lo
    ensures s[lo..hi][a..b] == s[lo + a..lo + b]
  {
    forall i | 0 <= i < b - a
      ensures s[lo..hi][a..b][i] == s[lo + a..lo + b][i]
    {
      assert s[lo..hi][a..b][i] == s[lo..hi][a + i] == s[lo + (a + i)];
    }
  }

  lemma {:induction false} NestedLine(block: ItemBlock, i: nat, n0: nat)
    requires i < |block.items| && block.items[i].Nested?
    ensures var b, at := BlockOf(block), Count(BlockOf(block), i);
      var p, q := Resolved(b, 0, n0), Resolved(BlockOf(block.items[i].block), 0, n0 + at);
      at + |q| <= |p| && p[at..at + |q|] == q
  {
    hide Resolved, Count, LineCount, ResolvedLine;
    var b := BlockOf(block);
    FirstCount(b);
    ResolvedLineAt(b, 0, i, n0);
    InnerLine(b, i, n0);
  }

  lemma {:induction false} InnerLine(b: Block, i: nat, n0: nat)
    requires i < |b.lines| && b.lines[i].Inner?
    ensures ResolvedLine(b, i, n0) == Resolved(b.lines[i].block, 0, n0 + Count(b, i))
  {
  }

  /** The instruction item `k` of a block comes to, nested or not. */
  lemma {:induction false} ItemInstruction(block: ItemBlock, sub: ItemBlock, m0: nat, k: nat)
    requires Within(block, 0, sub, m0) && k < |sub.items| && Emits(LineOf(sub.items[k]))
    ensures var p, at, b := Resolved(BlockOf(block), 0, 0), m0 + Count(BlockOf(sub), k), BlockOf(sub);
      at < |p| && p[at] == Lower(LineOf(sub.items[k]), Meant(b, k, m0))
  {
    hide Resolved, Meant, Count, Within;
    var b := BlockOf(sub);
    NestedAt(block, 0, sub, m0);
    FirstCount(b);
    ResolvedLineAt(b, 0, k, m0);
    OneLine(b, k, m0);
    var p, q, at := Resolved(BlockOf(block), 0, 0), Resolved(b, 0, m0), Count(b, k);
    assert q[at..at + 1][0] == q[at] == p[m0..m0 + |q|][at];
  }

  lemma {:induction false} FirstCount(b: Block)
    ensures Count(b, 0) == 0
  {
  }

  lemma {:induction false} OneLine(b: Block, k: nat, n0: nat)
    requires k < |b.lines| && Emits(b.lines[k])
    ensures LineCount(b.lines[k]) == 1 && ResolvedLine(b, k, n0) == [Lower(b.lines[k], Meant(b, k, n0))]
  {
  }

  // ---------------------------------------------------------------- labels

  predicate Defines(item: Item, name: string) { item == Label(name) || item == SubLabel(name) }

  /** A use of the name in item `k` means the label in item `j`: the last one before it, or, if there is none before,
  the last one of the block. */
  ghost predicate MeansLabel(items: seq<Item>, k: nat, name: string, j: nat) {
    && j < |items| && Defines(items[j], name)
    && (forall i :: j < i < |items| && (i < k || k <= j) ==> !Defines(items[i], name))
    && (k <= j ==> forall i :: 0 <= i < k && i < |items| ==> !Defines(items[i], name))
  }

  ghost predicate NoLabel(items: seq<Item>, name: string) { forall i :: 0 <= i < |items| ==> !Defines(items[i], name) }

  lemma {:induction false} LabelLine(item: Item, name: string)
    ensures LineOf(item).Define? && LineOf(item).name == name <==> Defines(item, name)
  {
  }

  lemma {:induction false} LastLabel(sub: ItemBlock, k: nat, m0: nat, name: string, j: nat)
    requires j < k <= |sub.items| && Defines(sub.items[j], name)
    requires forall i :: j < i < k ==> !Defines(sub.items[i], name)
    ensures LabelAt(BlockOf(sub), k, m0, name) == Some(m0 + Count(BlockOf(sub), j))
    decreases k
  {
    hide LineOf, Count;
    LabelLine(sub.items[k - 1], name);
    if j < k - 1 {
      LastLabel(sub, k - 1, m0, name, j);
    }
  }

  lemma {:induction false} NoLabelBefore(sub: ItemBlock, k: nat, m0: nat, name: string)
    requires k <= |sub.items| && forall i :: 0 <= i < k ==> !Defines(sub.items[i], name)
    ensures LabelAt(BlockOf(sub), k, m0, name) == None
  {
    hide LineOf, Count;
    if k > 0 {
      LabelLine(sub.items[k - 1], name);
      NoLabelBefore(sub, k - 1, m0, name);
    }
  }

  lemma {:induction false} LabelMeant(sub: ItemBlock, k: nat, m0: nat, j: nat)
    requires k < |sub.items| && Names(LineOf(sub.items[k]))
    ensures var b, name := BlockOf(sub), LineOf(sub.items[k]).name;
      && (MeansLabel(sub.items, k, name, j) ==> Meant(b, k, m0) == Target(m0 + Count(b, j)))
      && (NoLabel(sub.items, name) ==> Meant(b, k, m0) == Rel(0))
  {
    hide LineOf, Count, LabelAt;
    var name := LineOf(sub.items[k]).name;
    if MeansLabel(sub.items, k, name, j) {
      if j < k {
        LastLabel(sub, k, m0, name, j);
      } else {
        NoLabelBefore(sub, k, m0, name);
        LastLabel(sub, |sub.items|, m0, name, j);
      }
    }
    if NoLabel(sub.items, name) {
      NoLabelBefore(sub, k, m0, name);
      NoLabelBefore(sub, |sub.items|, m0, name);
    }
  }

  // ---------------------------------------------------------------- what the dispatcher decodes

  /** Item `k` of `sub`, a block at `m0` in the one linked behind `img`. */
  ghost predicate Placed(block: ItemBlock, img: Image, sub: ItemBlock, m0: nat, k: nat) {
    && Loadable(BlockOf(block), img) && Within(block, 0, sub, m0)
    && k < |sub.items| && Emits(LineOf(sub.items[k]))
  }

  /** The number of the item's instruction in the program. */
  function NumberOf(sub: ItemBlock, m0: nat, k: nat): nat
    requires k <= |sub.items|
  {
    m0 + Count(BlockOf(sub), k)
  }

  /** The address of the instruction that item `j` is, or stands before. */
  ghost predicate AddressOf(block: ItemBlock, img: Image, sub: ItemBlock, m0: nat, j: nat, a: nat) {
    && j <= |sub.items| && NumberOf(sub, m0, j) <= |UnitOf(BlockOf(block), img).code|
    && a == Addr(UnitOf(BlockOf(block), img), NumberOf(sub, m0, j))
  }

  /** The address a label's name is given in item `k`: that of the label meant, or of the chunk if there is none. */
  ghost predicate LabelAddress(block: ItemBlock, img: Image, sub: ItemBlock, m0: nat, k: nat, name: string, a: nat) {
    && (forall j :: MeansLabel(sub.items, k, name, j) ==> AddressOf(block, img, sub, m0, j, a))
    && (NoLabel(sub.items, name) ==> a == |img.mem|)
  }

  /** The pool object for a literal: a string, a symbol by its number, or null for an integer. */
  ghost predicate IsConstant(r: Image, n: nat, literal: Literal) {
    n < |r.pool| &&
    match literal
    case StringLit(text) => r.pool[n] == Str(text)
    case SymbolLit(text) => r.pool[n].Symbol? && 1 <= r.pool[n].id <= |r.names| && r.names[r.pool[n].id - 1] == text
    case IntegerLit(_) => r.pool[n] == Null
  }

  lemma {:induction false} ConstantNamed(img: Image, start: nat, uses: seq<ConstantUse>, k: nat, j: nat)
    requires j < k <= |uses| && uses[j].literal.SymbolLit?
    ensures uses[j].literal.text in LoadConstants(img, start, uses, k).names
  {
    hide Poke, Little, ObjectFor;
    if j < k - 1 {
      ConstantNamed(img, start, uses, k - 1, j);
      InternKeeps(LoadConstants(img, start, uses, k - 1).names, uses[k - 1].literal, uses[j].literal.text);
    }
  }

  lemma {:induction false} InternKeeps(names: seq<string>, literal: Literal, name: string)
    requires name in names
    ensures name in NamesAfter(names, literal)
  {
  }

  lemma {:induction false} NamedLater(a: seq<string>, b: seq<string>, name: string)
    requires a <= b && name in a
    ensures name in b
  {
  }

  lemma {:induction false} SymbolKnown(img: Image, chunk: Output, later: seq<Output>, j: nat)
    requires j < |chunk.constants| && chunk.constants[j].literal.SymbolLit?
    ensures chunk.constants[j].literal.text in LoadAll(LoadChunk(img, chunk), later).names
  {
    hide LoadAll, LoadSymbols, LoadConstants, LoadRelocations;
    var a := LoadSymbols(img.(mem := img.mem + chunk.code), |img.mem|, chunk.symbols, |chunk.symbols|);
    ConstantNamed(a, |img.mem|, chunk.constants, |chunk.constants|, j);
    LoadAllFrame(LoadChunk(img, chunk), later);
    NamedLater(LoadChunk(img, chunk).names, LoadAll(LoadChunk(img, chunk), later).names,
               chunk.constants[j].literal.text);
  }

  lemma {:induction false} ConstantFound(b: Block, img: Image, later: seq<Output>, k: nat, n: nat)
    requires Loadable(b, img) && k < |Resolved(b, 0, 0)| && Resolved(b, 0, 0)[k].field.Constant?
    requires var r, literal := Linked(b, img, later), Resolved(b, 0, 0)[k].field.literal;
      n < |r.pool| && r.pool[n] == ObjectFor(r.names, literal)
    ensures IsConstant(Linked(b, img, later), n, Resolved(b, 0, 0)[k].field.literal)
  {
    hide GenBlock, Resolved, LoadChunk, LoadAll, Symbols.IndexOf, TwoPass, Assemble;
    var literal := Resolved(b, 0, 0)[k].field.literal;
    if literal.SymbolLit? {
      ChunkOfBlock(b);
      ConstantAt(Resolved(b, 0, 0), k);
      SymbolKnown(img, GenBlock(EMPTY_OUTPUT, b), later, Ordinal(Resolved(b, 0, 0), k));
    }
  }

  /** What instruction `x` is for the item: the same opcode and registers, in the item's order, and in its field the
  number, the address or the constant the item names. */
  ghost predicate IsItem(x: Instr<nat>, item: Item, block: ItemBlock, img: Image, sub: ItemBlock, m0: nat, k: nat,
                         r: Image)
  {
    match item
    case OpA1(op, a) => x == Instr(op, false, [a], 0, 0, [])
    case OpA2(op, a, b) => x == Instr(op, false, [a, b], 0, 0, [])
    case OpA3(op, a, b, c) => x == Instr(op, false, [a, b, c], 0, 0, [])
    case OpD1(op, dest) => x == Instr(op, false, [], 8, (dest + |img.mem|) % TWO64, [])
    case OpD2(op, dest, reg) => x == Instr(op, false, [], 8, (dest + |img.mem|) % TWO64, [reg])
    case OpD3(op, reg, dest) => x == Instr(op, false, [reg], 8, (dest + |img.mem|) % TWO64, [])
    case OpE(op, diff) => x == Instr(op, false, [], 4, diff % 0x1_0000_0000, [])
    case OpF(op) => x == Instr(op, false, [], 0, 0, [])
    case OpG(op, reg, lit) => x == Instr(op, false, [reg], 8, lit % TWO64, [])
    case OpD1Label(op, name) =>
      x == Instr(op, false, [], 8, x.field, []) && LabelAddress(block, img, sub, m0, k, name, x.field)
    case OpD2Label(op, name, reg) =>
      x == Instr(op, false, [], 8, x.field, [reg]) && LabelAddress(block, img, sub, m0, k, name, x.field)
    case OpD3Label(op, reg, name) =>
      x == Instr(op, false, [reg], 8, x.field, []) && LabelAddress(block, img, sub, m0, k, name, x.field)
    case OpGLabel(op, reg, name) =>
      x == Instr(op, false, [reg], 8, x.field, []) && LabelAddress(block, img, sub, m0, k, name, x.field)
    case OpHData(op, reg, literal) => x == Instr(op, false, [reg], 4, x.field, []) && IsConstant(r, x.field, literal)
    case OpCall(op, dest, reg) => x == Instr(op, true, [], 8, (dest + |img.mem|) % TWO64, [reg])
    case OpCallLabel(op, name, reg) =>
      x == Instr(op, true, [], 8, x.field, [reg]) && LabelAddress(block, img, sub, m0, k, name, x.field)
    case OpCallSymbolic(op, symbol, reg) =>
      x == Instr(op, true, [], 4, x.field, [reg]) && IsConstant(r, x.field, SymbolLit(symbol))
    case OpInvokeAddress(op, addr, ret) => x == Instr(op, true, [addr, ret], 0, 0, [])
    case OpInvokePrimitive(op, sym, ret) => x == Instr(op, false, [sym, ret], 0, 0, [])
    case _ => false
  }

  /** The field of a label use. */
  lemma {:induction false} LabelFieldAddress(block: ItemBlock, img: Image, sub: ItemBlock, m0: nat, k: nat,
      x: Instr<nat>, r: Image)
    requires Placed(block, img, sub, m0, k) && Names(LineOf(sub.items[k]))
    requires NumberOf(sub, m0, k) < |UnitOf(BlockOf(block), img).code|
    requires UnitOf(BlockOf(block), img).code[NumberOf(sub, m0, k)]
             == Lower(LineOf(sub.items[k]), Meant(BlockOf(sub), k, m0))
    requires Faithful(x, UnitOf(BlockOf(block), img), NumberOf(sub, m0, k), r) && |img.mem| < TWO64
    ensures LabelAddress(block, img, sub, m0, k, LineOf(sub.items[k]).name, x.field)
  {
    hide Resolved, Meant, Count, Within, Loadable, LineOf, MeansLabel, NoLabel;
    var name := LineOf(sub.items[k]).name;
    forall j | MeansLabel(sub.items, k, name, j)
      ensures AddressOf(block, img, sub, m0, j, x.field)
    {
      LabelMeant(sub, k, m0, j);
      MeansInside(sub.items, k, name, j);
    }
    LabelMeant(sub, k, m0, 0);
    QuotientUnique(|img.mem|, TWO64, 0, |img.mem|);
  }

  lemma {:induction false} MeansInside(items: seq<Item>, k: nat, name: string, j: nat)
    requires MeansLabel(items, k, name, j)
    ensures j < |items|
  {
  }

  /** Assemble, link anywhere, link anything later, decode: at its address, item by item and at any depth of nesting,
  the dispatcher finds the instruction the item asks for. */
  lemma {:induction false} ItemDecoded(block: ItemBlock, img: Image, later: seq<Output>, sub: ItemBlock, m0: nat,
      k: nat)
    returns (x: Instr<nat>)
    requires Placed(block, img, sub, m0, k)
    ensures NumberOf(sub, m0, k) < |UnitOf(BlockOf(block), img).code|
    ensures var r := Linked(BlockOf(block), img, later);
      && Decode(r.mem, Addr(UnitOf(BlockOf(block), img), NumberOf(sub, m0, k))) == Some(x)
      && IsItem(x, sub.items[k], block, img, sub, m0, k, r)
  {
    hide Resolved, Meant, Count, Within, Linked, Loadable, Decode, LineOf, BlockOf, LoadedInstr, IsItem, Faithful;
    var b, n := BlockOf(block), NumberOf(sub, m0, k);
    var u, r := UnitOf(b, img), Linked(b, img, later);
    ItemInstruction(block, sub, m0, k);
    RoundTrip(b, img, later, n);
    x := LoadedInstr(u.code, n, u.base, u.pool);
    LoadedLayout(u, n);
    BaseSmall(b, img);
    if u.code[n].field.Constant? {
      FaithfulConstant(x, u, n, r);
      ConstantFound(b, img, later, n, x.field);
    }
    if Names(LineOf(sub.items[k])) {
      LabelFieldAddress(block, img, sub, m0, k, x, r);
    }
    ItemMatches(x, block, img, sub, m0, k, u, n, r);
  }

  lemma {:induction false} BaseSmall(b: Block, img: Image)
    requires Loadable(b, img)
    ensures |img.mem| < TWO64
  {
    hide GenBlock;
  }

  lemma {:induction false} FaithfulConstant(x: Instr<nat>, u: Unit, n: nat, r: Image)
    requires n < |u.code| && u.code[n].field.Constant? && Faithful(x, u, n, r)
    ensures x.field < |r.pool| && r.pool[x.field] == ObjectFor(r.names, u.code[n].field.literal)
  {
  }

  lemma {:induction false} ItemMatches(x: Instr<nat>, block: ItemBlock, img: Image, sub: ItemBlock, m0: nat, k: nat,
      u: Unit, n: nat, r: Image)
    requires k < |sub.items| && Emits(LineOf(sub.items[k])) && n < |u.code| && u.base == |img.mem|
    requires u.code[n] == Lower(LineOf(sub.items[k]), Meant(BlockOf(sub), k, m0))
    requires Faithful(x, u, n, r) && x.Layout() == u.code[n].Layout()
    requires u.code[n].field.Constant? ==> IsConstant(r, x.field, u.code[n].field.literal)
    requires Names(LineOf(sub.items[k])) ==> LabelAddress(block, img, sub, m0, k, LineOf(sub.items[k]).name, x.field)
    ensures IsItem(x, sub.items[k], block, img, sub, m0, k, r)
  {
    hide LabelAddress, IsConstant, LabelAt, Count;
    assert LineOf(sub.items[k]).Plain? ==> Meant(BlockOf(sub), k, m0) == LineOf(sub.items[k]).operand;
  }

  /** A relative jump, from the item's signed difference to where control goes. */
  lemma {:induction false} JumpItem(block: ItemBlock, img: Image, later: seq<Output>, sub: ItemBlock, m0: nat, k: nat,
      diff: i32, s: State, env: Env)
    requires Placed(block, img, sub, m0, k) && sub.items[k] == OpE(JUMP, diff)
    requires s.mem == Linked(BlockOf(block), img, later).mem && AddressOf(block, img, sub, m0, k, s.ip)
    ensures InstructionLaws.Reaches(s, Step(s, env), s.ip + diff, s.data)
  {
    hide Linked, Decode, Step, Loadable, Within, Count, BlockOf, InstructionLaws.Reaches;
    var x := ItemDecoded(block, img, later, sub, m0, k);
    InstructionLaws.RelativeStep(s, env, x, diff);
  }
}
