/** The one-pass generator: writes a block's items into a growing buffer, records relocations,
constants, symbols and debug ranges, and back-patches the block's forward label uses at its end. */
module Generator {
  import opened Words
  import opened Isa
  import opened Symbolic
  import opened Assembly

  type i32 = n: int | -0x8000_0000 <= n < 0x8000_0000

  /** What a front end hands to the generator, one constructor per layout it can ask for. */
  datatype Item =
    | OpA1(op: byte, reg1: byte)
    | OpA2(op: byte, reg1: byte, reg2: byte)
    | OpA3(op: byte, reg1: byte, reg2: byte, reg3: byte)
    | OpD1(op: byte, dest: u64)
    | OpD2(op: byte, dest: u64, reg: byte)
    | OpD3(op: byte, reg: byte, dest: u64)
    | OpE(op: byte, diff: i32)
    | OpF(op: byte)
    | OpG(op: byte, reg: byte, lit: i64)
    | OpD1Label(op: byte, name: string)
    | OpD2Label(op: byte, name: string, reg: byte)
    | OpD3Label(op: byte, reg: byte, name: string)
    | OpGLabel(op: byte, reg: byte, name: string)
    | OpHData(op: byte, reg: byte, literal: Literal)
    | OpCall(op: byte, dest: u64, reg: byte)
    | OpCallLabel(op: byte, name: string, reg: byte)
    | OpCallSymbolic(op: byte, symbol: string, reg: byte)
    | OpInvokeAddress(op: byte, addr: byte, ret: byte)
    | OpInvokePrimitive(op: byte, sym: byte, ret: byte)
    | Label(name: string)
    | SubLabel(name: string)
    | DebugMark(line: u64, entry: string, flags: byte)
    | Nested(block: ItemBlock)

  datatype ItemBlock = ItemBlock(items: seq<Item>)

  /** The four bytes of a signed difference, as a number. */
  function Bits32(diff: i32): u32 { if diff >= 0 then diff else diff + 0x1_0000_0000 }

  function Shaped(op: byte, tagged: bool, pre: seq<byte>, width: nat, post: seq<byte>): Instr<()> {
    Instr(op, tagged, pre, width, (), post)
  }

  /** The line of assembly an item comes to. */
  function LineOf(item: Item): Line
    decreases item
  {
    match item
    case OpA1(op, a) => Plain(Shaped(op, false, [a], 0, []), Raw(0))
    case OpA2(op, a, b) => Plain(Shaped(op, false, [a, b], 0, []), Raw(0))
    case OpA3(op, a, b, c) => Plain(Shaped(op, false, [a, b, c], 0, []), Raw(0))
    case OpD1(op, dest) => Plain(Shaped(op, false, [], 8, []), Rel(dest))
    case OpD2(op, dest, reg) => Plain(Shaped(op, false, [], 8, [reg]), Rel(dest))
    case OpD3(op, reg, dest) => Plain(Shaped(op, false, [reg], 8, []), Rel(dest))
    case OpE(op, diff) => Plain(Shaped(op, false, [], 4, []), Raw(Bits32(diff)))
    case OpF(op) => Plain(Shaped(op, false, [], 0, []), Raw(0))
    case OpG(op, reg, lit) => Plain(Shaped(op, false, [reg], 8, []), Raw(Unsigned(lit)))
    case OpD1Label(op, name) => Refer(op, [], [], name)
    case OpD2Label(op, name, reg) => Refer(op, [], [reg], name)
    case OpD3Label(op, reg, name) => Refer(op, [reg], [], name)
    case OpGLabel(op, reg, name) => Refer(op, [reg], [], name)
    case OpHData(op, reg, literal) => Plain(Shaped(op, false, [reg], 4, []), Constant(literal))
    case OpCall(op, dest, reg) => Plain(Shaped(op, true, [], 8, [reg]), Rel(dest))
    case OpCallLabel(op, name, reg) => ReferCall(op, reg, name)
    case OpCallSymbolic(op, symbol, reg) => Plain(Shaped(op, true, [], 4, [reg]), Constant(SymbolLit(symbol)))
    case OpInvokeAddress(op, addr, ret) => Plain(Shaped(op, true, [addr, ret], 0, []), Raw(0))
    case OpInvokePrimitive(op, sym, ret) => Plain(Shaped(op, false, [sym, ret], 0, []), Raw(0))
    case Label(name) => Define(name, false)
    case SubLabel(name) => Define(name, true)
    case DebugMark(line, entry, flags) => Mark(line, entry, flags)
    case Nested(block) => Inner(BlockOf(block))
  }

  function BlockOf(block: ItemBlock): (b: Block)
    ensures |b.lines| == |block.items|
    ensures forall k :: 0 <= k < |b.lines| ==> b.lines[k] == LineOf(block.items[k])
    decreases block
  {
    Block(seq(|block.items|, k requires 0 <= k < |block.items| => LineOf(block.items[k])))
  }

  const EXPANSION: nat := 1024
  const SLACK: nat := 16

  /** The bytes of a chunk: a buffer of which the first `size` are in use. */
  class Chunk {
    var data: array<byte>
    var size: nat

    ghost predicate Valid()
      reads this
    {
      size <= data.Length
    }

    ghost function Bytes(): seq<byte>
      requires Valid()
      reads this, data
    {
      data[..size]
    }

    constructor ()
      ensures Valid() && fresh(data) && Bytes() == []
    {
      data := new byte[EXPANSION](_ => 0);
      size := 0;
    }

    /** Room for one more instruction of any layout, before every item. */
    method ExpandIfNecessary()
      requires Valid()
      modifies this`data
      ensures Valid() && Bytes() == old(Bytes()) && size + SLACK < data.Length
      ensures data == old(data) || (fresh(data) && data.Length == old(data.Length) + EXPANSION)
    {
      if size + SLACK >= data.Length {
        var bigger := new byte[data.Length + EXPANSION](_ => 0);
        forall i | 0 <= i < data.Length {
          bigger[i] := data[i];
        }
        data := bigger;
      }
    }

    /** The code and `n` bytes behind it. */
    ghost function Ahead(n: nat): seq<byte>
      requires size + n <= data.Length
      reads this, data
    {
      data[..size + n]
    }

    /** Copies `bytes` to `offset` past the end; the size stays. */
    method Put(offset: nat, bytes: seq<byte>)
      requires size + offset + |bytes| <= data.Length
      modifies data
      ensures Ahead(offset + |bytes|) == old(Ahead(offset)) + bytes
    {
      var at := size + offset;
      forall i | 0 <= i < |bytes| {
        data[at + i] := bytes[i];
      }
    }

    /** The next `n` bytes become code. */
    method Advance(n: nat)
      requires size + n <= data.Length
      modifies this`size
      ensures Valid() && Bytes() == old(Ahead(n))
    {
      size := size + n;
    }

    lemma {:induction false} NothingAhead()
      requires Valid()
      ensures Ahead(0) == Bytes()
    {
    }

    /** Overwrites 8 bytes anywhere in the buffer. */
    method Overwrite(idx: nat, bytes: seq<byte>)
      requires Valid() && idx + |bytes| <= data.Length
      modifies data
      ensures Bytes() == Poke(old(Bytes()), idx, bytes)
    {
      forall i | 0 <= i < |bytes| {
        data[idx + i] := bytes[i];
      }
    }

    /** Opcode and up to three registers. */
    method PutRegisters(op: byte, regs: seq<byte>)
      requires Valid() && |regs| <= 3 && size + SLACK < data.Length
      modifies this`size, data
      ensures Valid() && Bytes() == old(Bytes()) + ([op] + regs)
    {
      hide Ahead, Bytes;
      NothingAhead();
      Joined(Bytes(), [op], regs, []);
      Put(0, [op]);
      if |regs| > 0 { Put(1, [regs[0]]); }
      if |regs| > 1 { Put(2, [regs[1]]); }
      if |regs| > 2 { Put(3, [regs[2]]); }
      Advance(1 + |regs|);
    }

    /** Opcode, at most one register, a field, at most one register. */
    method PutField(op: byte, pre: seq<byte>, field: seq<byte>, post: seq<byte>)
      requires Valid() && |pre| <= 1 && |field| <= 8 && |post| <= 1 && size + SLACK < data.Length
      modifies this`size, data
      ensures Valid() && Bytes() == old(Bytes()) + ([op] + pre + field + post)
    {
      hide Ahead, Bytes;
      NothingAhead();
      Joined(Bytes(), [op] + pre, field, post);
      assert Bytes() + [op] + pre == Bytes() + ([op] + pre);
      Put(0, [op]);
      if |pre| > 0 { Put(1, pre); }
      Put(1 + |pre|, field);
      if |post| > 0 { Put(1 + |pre| + |field|, post); }
      Advance(1 + |pre| + |field| + |post|);
    }

    /** Opcode, a cleared tag, a field and registers. */
    method PutTagged(op: byte, field: seq<byte>, post: seq<byte>)
      requires Valid() && |field| <= 8 && |post| <= 2 && size + SLACK < data.Length
      modifies this`size, data
      ensures Valid() && Bytes() == old(Bytes()) + ([op, 0, 0, 0] + field + post)
    {
      hide Ahead, Bytes;
      NothingAhead();
      Joined(Bytes(), [op, 0, 0, 0], field, post);
      assert Bytes() + [op] + [0] + [0] + [0] == Bytes() + [op, 0, 0, 0];
      Put(0, [op]);
      Put(1, [0]);
      Put(2, [0]);
      Put(3, [0]);
      Put(1 + TAG_SIZE, field);
      PutPair(1 + TAG_SIZE + |field|, post);
      Advance(1 + TAG_SIZE + |field| + |post|);
    }

    /** Up to two registers. */
    method PutPair(offset: nat, regs: seq<byte>)
      requires |regs| <= 2 && size + offset + |regs| <= data.Length
      modifies data
      ensures Ahead(offset + |regs|) == old(Ahead(offset)) + regs
    {
      hide Ahead;
      if |regs| > 0 { Put(offset, [regs[0]]); }
      if |regs| > 1 { Put(offset + 1, [regs[1]]); }
    }
  }

  lemma {:induction false} Joined(s: seq<byte>, a: seq<byte>, b: seq<byte>, c: seq<byte>)
    ensures s + a + b + c == s + (a + b + c)
  {
  }

  /** The sections of a chunk under construction. */
  class Sections {
    var relocs: seq<nat>
    var constants: seq<ConstantUse>
    var symbols: seq<SymbolDef>
    var debug: seq<DebugEntry>

    constructor ()
      ensures relocs == [] && constants == [] && symbols == [] && debug == []
    {
      relocs, constants, symbols, debug := [], [], [], [];
    }
  }

  /** What has been generated so far. */
  ghost function OutputOf(chunk: Chunk, data: Sections): Output
    requires chunk.Valid()
    reads chunk, chunk.data, data
  {
    Output(chunk.Bytes(), data.relocs, data.constants, data.symbols, data.debug)
  }

  lemma {:induction false} EncodeUntagged(op: byte, pre: seq<byte>, width: nat, v: nat, post: seq<byte>)
    ensures Encode(Instr(op, false, pre, width, v, post)) == [op] + pre + Little(width, v) + post
  {
  }

  lemma {:induction false} EncodeTagged(op: byte, pre: seq<byte>, width: nat, v: nat, post: seq<byte>)
    ensures Encode(Instr(op, true, pre, width, v, post)) == [op, 0, 0, 0] + pre + Little(width, v) + post
  {
  }

  /** What emitting a line does to the output. */
  ghost function Emitted(out: Output, labels: map<string, nat>, l: Line): Output
    requires Emits(l)
  {
    EmitLine(Pass(out, labels, [], None), l).out
  }

  /** Layouts of registers only. */
  method WriteRegisters(chunk: Chunk, data: Sections, op: byte, regs: seq<byte>)
    requires chunk.Valid() && |regs| <= 3 && chunk.size + SLACK < chunk.data.Length
    modifies chunk`size, chunk.data
    ensures chunk.Valid() && chunk.data == old(chunk.data)
    ensures OutputOf(chunk, data)
            == Emitted(old(OutputOf(chunk, data)), map[], Plain(Shaped(op, false, regs, 0, []), Raw(0)))
  {
    EncodeUntagged(op, regs, 0, 0, []);
    chunk.PutRegisters(op, regs);
  }

  /** A number that is not an address. */
  method WriteRaw(chunk: Chunk, data: Sections, op: byte, pre: seq<byte>, width: nat, n: nat)
    requires chunk.Valid() && |pre| <= 1 && width <= 8 && chunk.size + SLACK < chunk.data.Length
    modifies chunk`size, chunk.data
    ensures chunk.Valid() && chunk.data == old(chunk.data)
    ensures OutputOf(chunk, data)
            == Emitted(old(OutputOf(chunk, data)), map[], Plain(Shaped(op, false, pre, width, []), Raw(n)))
  {
    EncodeUntagged(op, pre, width, n, []);
    chunk.PutField(op, pre, Little(width, n), []);
  }

  /** An address, with its relocation. */
  method WriteAddress(chunk: Chunk, data: Sections, op: byte, pre: seq<byte>, dest: nat, post: seq<byte>)
    requires chunk.Valid() && |pre| <= 1 && |post| <= 1 && chunk.size + SLACK < chunk.data.Length
    modifies chunk`size, chunk.data, data
    ensures chunk.Valid() && chunk.data == old(chunk.data)
    ensures var out := old(OutputOf(chunk, data));
      OutputOf(chunk, data) == out.(code := out.code + Encode(Instr(op, false, pre, 8, dest, post)),
                                    relocs := out.relocs + [|out.code| + 1 + |pre|])
  {
    EncodeUntagged(op, pre, 8, dest, post);
    data.relocs := data.relocs + [chunk.size + 1 + |pre|];
    chunk.PutField(op, pre, Little(8, dest), post);
  }

  /** A call to an address. */
  method WriteCall(chunk: Chunk, data: Sections, op: byte, dest: nat, reg: byte)
    requires chunk.Valid() && chunk.size + SLACK < chunk.data.Length
    modifies chunk`size, chunk.data, data
    ensures chunk.Valid() && chunk.data == old(chunk.data)
    ensures var out := old(OutputOf(chunk, data));
      OutputOf(chunk, data) == out.(code := out.code + Encode(Instr(op, true, [], 8, dest, [reg])),
                                    relocs := out.relocs + [|out.code| + 1 + TAG_SIZE])
  {
    EncodeTagged(op, [], 8, dest, [reg]);
    data.relocs := data.relocs + [chunk.size + 1 + TAG_SIZE];
    chunk.PutTagged(op, Little(8, dest), [reg]);
  }

  /** A constant in a register. */
  method WriteConstant(chunk: Chunk, data: Sections, op: byte, reg: byte, literal: Literal)
    requires chunk.Valid() && chunk.size + SLACK < chunk.data.Length
    modifies chunk`size, chunk.data, data
    ensures chunk.Valid() && chunk.data == old(chunk.data)
    ensures OutputOf(chunk, data)
            == Emitted(old(OutputOf(chunk, data)), map[], Plain(Shaped(op, false, [reg], 4, []), Constant(literal)))
  {
    var id := |data.constants|;
    EncodeUntagged(op, [reg], 4, id, []);
    data.constants := data.constants + [ConstantUse(chunk.size + 2, literal)];
    chunk.PutField(op, [reg], Little(4, id), []);
  }

  /** A call by name: the name becomes a constant. */
  method WriteCallSymbolic(chunk: Chunk, data: Sections, op: byte, symbol: string, reg: byte)
    requires chunk.Valid() && chunk.size + SLACK < chunk.data.Length
    modifies chunk`size, chunk.data, data
    ensures chunk.Valid() && chunk.data == old(chunk.data)
    ensures OutputOf(chunk, data)
            == Emitted(old(OutputOf(chunk, data)), map[],
                       Plain(Shaped(op, true, [], 4, [reg]), Constant(SymbolLit(symbol))))
  {
    var id := |data.constants|;
    EncodeTagged(op, [], 4, id, [reg]);
    data.constants := data.constants + [ConstantUse(chunk.size + 1 + TAG_SIZE, SymbolLit(symbol))];
    chunk.PutTagged(op, Little(4, id), [reg]);
  }

  method WriteInvoke(chunk: Chunk, data: Sections, op: byte, addr: byte, ret: byte)
    requires chunk.Valid() && chunk.size + SLACK < chunk.data.Length
    modifies chunk`size, chunk.data
    ensures chunk.Valid() && chunk.data == old(chunk.data)
    ensures OutputOf(chunk, data)
            == Emitted(old(OutputOf(chunk, data)), map[], Plain(Shaped(op, true, [addr, ret], 0, []), Raw(0)))
  {
    EncodeTagged(op, [addr, ret], 0, 0, []);
    chunk.PutTagged(op, [], [addr, ret]);
  }

  /** A destination given as a number. */
  predicate HasDest(item: Item) { item.OpD1? || item.OpD2? || item.OpD3? || item.OpCall? }

  /** A line with an address adds its bytes and its relocation. */
  lemma {:induction false} AddressesEmitted(out: Output, item: Item)
    requires HasDest(item)
    ensures var l := LineOf(item);
      Emitted(out, map[], l)
      == out.(code := out.code + Encode(Lower(l, item.dest)),
              relocs := out.relocs + [|out.code| + l.shape.Layout().FieldAt()])
  {
    hide Encode;
  }

  method WriteDest(chunk: Chunk, data: Sections, item: Item)
    requires chunk.Valid() && HasDest(item) && chunk.size + SLACK < chunk.data.Length
    modifies chunk`size, chunk.data, data
    ensures chunk.Valid() && chunk.data == old(chunk.data)
    ensures OutputOf(chunk, data) == Emitted(old(OutputOf(chunk, data)), map[], LineOf(item))
  {
    hide Encode, Emitted, OutputOf;
    AddressesEmitted(OutputOf(chunk, data), item);
    match item
    case OpD1(op, dest) => WriteAddress(chunk, data, op, [], dest, []);
    case OpD2(op, dest, reg) => WriteAddress(chunk, data, op, [], dest, [reg]);
    case OpD3(op, reg, dest) => WriteAddress(chunk, data, op, [reg], dest, []);
    case OpCall(op, dest, reg) => WriteCall(chunk, data, op, dest, reg);
  }

  /** Items that name no label. */
  method WritePlain(chunk: Chunk, data: Sections, item: Item)
    requires chunk.Valid() && LineOf(item).Plain? && chunk.size + SLACK < chunk.data.Length
    modifies chunk`size, chunk.data, data
    ensures chunk.Valid() && chunk.data == old(chunk.data)
    ensures OutputOf(chunk, data) == Emitted(old(OutputOf(chunk, data)), map[], LineOf(item))
  {
    hide Encode, Emitted, OutputOf;
    if HasDest(item) {
      WriteDest(chunk, data, item);
      return;
    }
    match item
    case OpA1(op, a) => WriteRegisters(chunk, data, op, [a]);
    case OpA2(op, a, b) => WriteRegisters(chunk, data, op, [a, b]);
    case OpA3(op, a, b, c) => WriteRegisters(chunk, data, op, [a, b, c]);
    case OpE(op, diff) => WriteRaw(chunk, data, op, [], 4, Bits32(diff));
    case OpF(op) => WriteRegisters(chunk, data, op, []);
    case OpG(op, reg, lit) => WriteRaw(chunk, data, op, [reg], 8, Unsigned(lit));
    case OpHData(op, reg, literal) => WriteConstant(chunk, data, op, reg, literal);
    case OpCallSymbolic(op, symbol, reg) => WriteCallSymbolic(chunk, data, op, symbol, reg);
    case OpInvokeAddress(op, addr, ret) => WriteInvoke(chunk, data, op, addr, ret);
    case OpInvokePrimitive(op, sym, ret) => WriteRegisters(chunk, data, op, [sym, ret]);
  }

  /** The label's address, or 0 and a note to patch `at` once the label is known. */
  method GetLabel(labels: map<string, nat>, uses: seq<Use>, name: string, at: nat) returns (dest: nat, r: seq<Use>)
    ensures dest == if name in labels then labels[name] else 0
    ensures r == if name in labels then uses else [Use(name, at)] + uses
  {
    dest, r := 0, uses;
    if name in labels {
      dest := labels[name];
    } else {
      r := [Use(name, at)] + uses;
    }
  }

  lemma {:induction false} SizeOf(chunk: Chunk, data: Sections)
    requires chunk.Valid()
    ensures |OutputOf(chunk, data).code| == chunk.size
  {
  }

  lemma {:induction false} ReferenceEmitted(out: Output, labels: map<string, nat>, uses: seq<Use>, l: Line)
    requires Names(l)
    ensures var dest := if l.name in labels then labels[l.name] else 0;
      EmitLine(Pass(out, labels, uses, None), l)
      == Pass(out.(code := out.code + Encode(Lower(l, dest)),
                   relocs := out.relocs + [|out.code| + Lower(l, 0).Layout().FieldAt()]),
              labels,
              if l.name in labels then uses else [Use(l.name, |out.code| + PatchAt(l))] + uses, None)
  {
    hide Encode;
  }

  /** A label's address in a field. */
  method WriteReference(chunk: Chunk, data: Sections, op: byte, pre: seq<byte>, post: seq<byte>, name: string,
                        labels: map<string, nat>, uses: seq<Use>) returns (r: seq<Use>)
    requires chunk.Valid() && |pre| <= 1 && |post| <= 1 && chunk.size + SLACK < chunk.data.Length
    modifies chunk`size, chunk.data, data
    ensures chunk.Valid() && chunk.data == old(chunk.data)
    ensures Pass(OutputOf(chunk, data), labels, r, None)
            == EmitLine(Pass(old(OutputOf(chunk, data)), labels, uses, None), Refer(op, pre, post, name))
    ensures r == uses || r == [Use(name, old(chunk.size) + 1 + |pre|)] + uses
  {
    hide EmitLine, Encode, OutputOf;
    SizeOf(chunk, data);
    ReferenceEmitted(OutputOf(chunk, data), labels, uses, Refer(op, pre, post, name));
    var dest: nat;
    dest, r := GetLabel(labels, uses, name, chunk.size + 1 + |pre|);
    WriteAddress(chunk, data, op, pre, dest, post);
  }

  /** A label's address in a tagged call. */
  method WriteCallReference(chunk: Chunk, data: Sections, op: byte, reg: byte, name: string,
                            labels: map<string, nat>, uses: seq<Use>) returns (r: seq<Use>)
    requires chunk.Valid() && chunk.size + SLACK < chunk.data.Length
    modifies chunk`size, chunk.data, data
    ensures chunk.Valid() && chunk.data == old(chunk.data)
    ensures Pass(OutputOf(chunk, data), labels, r, None)
            == EmitLine(Pass(old(OutputOf(chunk, data)), labels, uses, None), ReferCall(op, reg, name))
    ensures r == uses || r == [Use(name, old(chunk.size) + TAG_SIZE + 4)] + uses
  {
    hide EmitLine, Encode, OutputOf;
    SizeOf(chunk, data);
    ReferenceEmitted(OutputOf(chunk, data), labels, uses, ReferCall(op, reg, name));
    var dest: nat;
    dest, r := GetLabel(labels, uses, name, chunk.size + TAG_SIZE + 4);
    WriteCall(chunk, data, op, dest, reg);
  }

  /** Items that name a label. */
  method WriteLabelled(chunk: Chunk, data: Sections, item: Item, labels: map<string, nat>, uses: seq<Use>)
    returns (r: seq<Use>)
    requires chunk.Valid() && Names(LineOf(item)) && chunk.size + SLACK < chunk.data.Length
    requires InBuffer(uses, chunk.data.Length)
    modifies chunk`size, chunk.data, data
    ensures chunk.Valid() && chunk.data == old(chunk.data)
    ensures Pass(OutputOf(chunk, data), labels, r, None)
            == EmitLine(Pass(old(OutputOf(chunk, data)), labels, uses, None), LineOf(item))
    ensures InBuffer(r, chunk.data.Length)
  {
    hide EmitLine;
    match item
    case OpD1Label(op, name) => r := WriteReference(chunk, data, op, [], [], name, labels, uses);
    case OpD2Label(op, name, reg) => r := WriteReference(chunk, data, op, [], [reg], name, labels, uses);
    case OpD3Label(op, reg, name) => r := WriteReference(chunk, data, op, [reg], [], name, labels, uses);
    case OpGLabel(op, reg, name) => r := WriteReference(chunk, data, op, [reg], [], name, labels, uses);
    case OpCallLabel(op, name, reg) => r := WriteCallReference(chunk, data, op, reg, name, labels, uses);
  }

  /** Every noted use fits in the buffer. */
  ghost predicate InBuffer(uses: seq<Use>, capacity: nat) {
    forall i :: 0 <= i < |uses| ==> uses[i].idx + 8 <= capacity
  }

  /** Closes a debug range at the end of what has been generated. */
  method AddDebugEntry(chunk: Chunk, data: Sections, mark: Option<OpenMark>)
    requires chunk.Valid()
    modifies data
    ensures OutputOf(chunk, data) == CloseMark(old(OutputOf(chunk, data)), mark)
  {
    match mark
    case None =>
    case Some(m) =>
      data.debug := data.debug + [DebugEntry(m.ip, Wrap64(chunk.size - 1), m.line, m.entry, m.flags)];
  }

  method PatchUses(chunk: Chunk, data: Sections, labels: map<string, nat>, uses: seq<Use>)
    requires chunk.Valid() && InBuffer(uses, chunk.data.Length)
    modifies chunk.data
    ensures chunk.Valid()
    ensures OutputOf(chunk, data)
            == old(OutputOf(chunk, data)).(code := Backpatch(old(chunk.Bytes()), uses, labels))
  {
    var u := 0;
    while u < |uses|
      invariant u <= |uses|
      invariant Backpatch(chunk.Bytes(), uses[u..], labels) == Backpatch(old(chunk.Bytes()), uses, labels)
    {
      var use := uses[u];
      if use.name in labels {
        chunk.Overwrite(use.idx, Little(8, labels[use.name]));
      }
      assert uses[u..][1..] == uses[u + 1..];
      u := u + 1;
    }
  }

  /** Emitting a line leaves labels and open mark alone, and without a name the uses too. */
  lemma {:induction false} EmitFrame(out: Output, labels: map<string, nat>, uses: seq<Use>,
      mark: Option<OpenMark>, l: Line)
    requires Emits(l)
    ensures EmitLine(Pass(out, labels, uses, mark), l) == EmitLine(Pass(out, labels, uses, None), l).(mark := mark)
    ensures l.Plain? ==> EmitLine(Pass(out, labels, uses, mark), l) == Pass(Emitted(out, map[], l), labels, uses, mark)
  {
    hide Encode;
  }

  /** One item, with room already made for it. */
  method ProcessItem(chunk: Chunk, data: Sections, item: Item, labels: map<string, nat>, uses: seq<Use>,
                     entry: Option<OpenMark>)
    returns (labels': map<string, nat>, uses': seq<Use>, entry': Option<OpenMark>)
    requires chunk.Valid() && chunk.size + SLACK < chunk.data.Length && InBuffer(uses, chunk.data.Length)
    modifies chunk, chunk.data, data
    ensures chunk.Valid() && (chunk.data == old(chunk.data) || fresh(chunk.data))
    ensures chunk.data.Length >= old(chunk.data.Length) && InBuffer(uses', chunk.data.Length)
    ensures Pass(OutputOf(chunk, data), labels', uses', entry')
            == GenLine(Pass(old(OutputOf(chunk, data)), labels, uses, entry), LineOf(item))
    decreases item
  {
    hide EmitLine, Emitted;
    labels', uses', entry' := labels, uses, entry;
    ghost var out := OutputOf(chunk, data);
    if item.DebugMark? {
      AddDebugEntry(chunk, data, entry);
      entry' := Some(OpenMark(chunk.size, item.line, item.entry, item.flags));
    } else if item.Nested? {
      ProcessBlock(chunk, data, item.block);
    } else if item.SubLabel? {
      data.symbols := data.symbols + [SymbolDef(chunk.size, item.name)];
      labels' := labels[item.name := chunk.size];
    } else if item.Label? {
      labels' := labels[item.name := chunk.size];
    } else if Names(LineOf(item)) {
      EmitFrame(out, labels, uses, entry, LineOf(item));
      uses' := WriteLabelled(chunk, data, item, labels, uses);
    } else {
      EmitFrame(out, labels, uses, entry, LineOf(item));
      WritePlain(chunk, data, item);
    }
  }

  /** One block: its lines in order, then its forward uses, then its last debug range. */
  method ProcessBlock(chunk: Chunk, data: Sections, block: ItemBlock)
    requires chunk.Valid()
    modifies chunk, chunk.data, data
    ensures chunk.Valid() && (chunk.data == old(chunk.data) || fresh(chunk.data))
    ensures chunk.data.Length >= old(chunk.data.Length)
    ensures OutputOf(chunk, data) == GenBlock(old(OutputOf(chunk, data)), BlockOf(block))
    decreases block
  {
    hide GenLine;
    ghost var b, p0 := BlockOf(block), Pass(OutputOf(chunk, data), map[], [], None);
    var labels: map<string, nat> := map[];
    var uses: seq<Use> := [];
    var entry: Option<OpenMark> := None;
    var i := 0;
    while i < |block.items|
      invariant i <= |block.items| == |b.lines|
      invariant chunk.Valid() && (chunk.data == old(chunk.data) || fresh(chunk.data))
      invariant chunk.data.Length >= old(chunk.data.Length)
      invariant InBuffer(uses, chunk.data.Length)
      invariant Pass(OutputOf(chunk, data), labels, uses, entry) == GenLines(p0, b, i)
    {
      chunk.ExpandIfNecessary();
      assert b.lines[i] == LineOf(block.items[i]);
      labels, uses, entry := ProcessItem(chunk, data, block.items[i], labels, uses, entry);
      i := i + 1;
    }
    PatchUses(chunk, data, labels, uses);
    AddDebugEntry(chunk, data, entry);
  }

  /** A finished chunk. */
  method GenChunk(block: ItemBlock) returns (chunk: Chunk, data: Sections)
    ensures fresh(chunk) && fresh(data) && chunk.Valid()
    ensures OutputOf(chunk, data) == GenBlock(EMPTY_OUTPUT, BlockOf(block))
  {
    chunk := new Chunk();
    data := new Sections();
    ProcessBlock(chunk, data, block);
  }
}
