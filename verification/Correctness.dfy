/** Items in, machine steps out: what the generator, the loader and the dispatcher do together. */
module Correctness {
  import opened Words
  import opened Isa
  import opened Symbolic
  import opened Assembly
  import opened AssemblyTheorems
  import opened Machine
  import opened Linking
  import opened Simulation
  import opened Units
  import Symbols
  import Loader

  /** The chunk of a block, with its place in the program memory. */
  function UnitOf(b: Block, img: Image): Unit { Unit(Resolved(b, 0, 0), |img.mem|, |img.pool|) }

  /** The image once the block's chunk, and then others, have been loaded. */
  function Linked(b: Block, img: Image, later: seq<Output>): Image {
    LoadAll(LoadChunk(img, GenBlock(EMPTY_OUTPUT, b)), later)
  }

  /** Supported items, every call to a label defined earlier or nowhere, and room in the address
  space and in 4-byte constant numbers. */
  ghost predicate Loadable(b: Block, img: Image) {
    && WellFormed(b) && NoForwardCall(b)
    && |img.mem| + |GenBlock(EMPTY_OUTPUT, b).code| < EMPTY_CATCH
    && |img.pool| + |GenBlock(EMPTY_OUTPUT, b).constants| < 0x1_0000_0000
  }

  lemma {:induction false} MeantNotLate(b: Block, k: nat, n0: nat)
    requires k < |b.lines| && Emits(b.lines[k])
    ensures !Meant(b, k, n0).Late?
  {
    hide LabelAt;
  }

  lemma {:induction false} ResolvedNotLate(b: Block, k: nat, n0: nat)
    requires k <= |b.lines|
    ensures forall j :: 0 <= j < |Resolved(b, k, n0)| ==> !Resolved(b, k, n0)[j].field.Late?
    decreases b, |b.lines| - k
  {
    hide Meant, Count;
    if k < |b.lines| {
      ResolvedNotLate(b, k + 1, n0);
      if b.lines[k].Inner? {
        ResolvedNotLate(b.lines[k].block, 0, n0 + Count(b, k));
        assert ResolvedLine(b, k, n0) == Resolved(b.lines[k].block, 0, n0 + Count(b, k));
      } else if Emits(b.lines[k]) {
        MeantNotLate(b, k, n0);
      }
    }
  }

  /** What the generator wrote is what the simulation needs, wherever it is loaded. */
  lemma {:induction false} UnitSound(b: Block, img: Image)
    requires Loadable(b, img)
    ensures Units.Sound(UnitOf(b, img))
    ensures |GenBlock(EMPTY_OUTPUT, b).code| == Offset(Resolved(b, 0, 0), |Resolved(b, 0, 0)|)
  {
    ChunkOfBlock(b);
    ResolvedWellFormed(b, 0, 0);
    ResolvedNotLate(b, 0, 0);
    LaidOutOffset(Resolved(b, 0, 0), |Resolved(b, 0, 0)|);
  }

  /** One load appends the block's instructions, as they are loaded. */
  lemma {:induction false} LoadAppends(b: Block, img: Image)
    requires Loadable(b, img)
    ensures var u := UnitOf(b, img);
      LoadChunk(img, GenBlock(EMPTY_OUTPUT, b)).mem == img.mem + Assemble(Loaded(u.code, u.base, u.pool))
  {
    hide GenBlock, Resolved, LoadChunk, Assemble, Loaded, TwoPass;
    ChunkOfBlock(b);
    ResolvedWellFormed(b, 0, 0);
    LoadProgram(img, GenBlock(EMPTY_OUTPUT, b), Resolved(b, 0, 0));
  }

  lemma {:induction false} HeldInAssembly(q: seq<Instr<nat>>, front: seq<byte>, mem: seq<byte>, k: nat)
    requires front + Assemble(q) <= mem && k < |q|
    ensures HoldsAt(mem, |front| + Offset(q, k), q[k])
  {
    AssembleAt(q, k);
    OffsetMonotone(q, k, |q|);
    var at := |front| + Offset(q, k);
    assert mem[..|front| + |Assemble(q)|] == front + Assemble(q);
    forall i | 0 <= i < q[k].Size()
      ensures mem[at + i] == Encode(q[k])[i]
    {
      assert mem[at + i] == (front + Assemble(q))[at + i] == Assemble(q)[Offset(q, k) + i];
      assert Assemble(q)[Offset(q, k) + i] == Assemble(q)[Offset(q, k)..Offset(q, k) + q[k].Size()][i];
    }
  }

  /** After its own load and any later ones, the block's instructions are in memory. */
  lemma {:induction false} UnitHeld(b: Block, img: Image, later: seq<Output>, k: nat)
    requires Loadable(b, img) && k < |Resolved(b, 0, 0)|
    ensures var u := UnitOf(b, img);
      HoldsAt(Linked(b, img, later).mem, Addr(u, k), LoadedInstr(u.code, k, u.base, u.pool))
  {
    hide GenBlock, Resolved, LoadChunk, LoadAll, Assemble, HoldsAt;
    var u := UnitOf(b, img);
    LoadAppends(b, img);
    LoadAllFrame(LoadChunk(img, GenBlock(EMPTY_OUTPUT, b)), later);
    HeldInAssembly(Loaded(u.code, u.base, u.pool), img.mem, Linked(b, img, later).mem, k);
    Units.LoadedOffset(u, k);
  }

  // ---------------------------------------------------------------- constants

  lemma {:induction false} ObjectStable(names: seq<string>, later: seq<string>, literal: Literal)
    requires names <= later && (literal.SymbolLit? ==> literal.text in names)
    ensures ObjectFor(later, literal) == ObjectFor(names, literal)
  {
    if literal.SymbolLit? {
      Symbols.IndexStable(names, later, literal.text);
    }
  }

  lemma {:induction false} PoolEntry(img: Image, start: nat, uses: seq<ConstantUse>, k: nat, j: nat,
      later: seq<string>)
    requires j < k <= |uses| && start <= |img.mem| && LoadConstants(img, start, uses, k).names <= later
    ensures var r := LoadConstants(img, start, uses, k);
      |r.pool| == |img.pool| + k && r.pool[|img.pool| + j] == ObjectFor(later, uses[j].literal)
  {
    hide ObjectFor, Poke, Little, Symbols.IdOf;
    var before := LoadConstants(img, start, uses, k - 1);
    ConstantsFrame(img, start, uses, k - 1);
    var names := NamesAfter(before.names, uses[k - 1].literal);
    if j == k - 1 {
      ObjectStable(names, later, uses[j].literal);
    } else {
      assert before.names <= names;
      PoolEntry(img, start, uses, k - 1, j, later);
    }
  }

  /** Constant number `j` of a chunk is in the pool behind those of earlier chunks, and later loads
  neither move it nor change what its name is interned as. */
  lemma {:induction false} ConstantKept(img: Image, chunk: Output, later: seq<Output>, j: nat)
    requires j < |chunk.constants|
    ensures var r := LoadAll(LoadChunk(img, chunk), later);
      |img.pool| + j < |r.pool| && r.pool[|img.pool| + j] == ObjectFor(r.names, chunk.constants[j].literal)
  {
    hide LoadAll, LoadSymbols, LoadConstants, LoadRelocations, ObjectFor;
    var r, n := LoadAll(LoadChunk(img, chunk), later), |chunk.constants|;
    LoadAllFrame(LoadChunk(img, chunk), later);
    var start := |img.mem|;
    SymbolsFrame(img.(mem := img.mem + chunk.code), start, chunk.symbols, |chunk.symbols|);
    var a := LoadSymbols(img.(mem := img.mem + chunk.code), start, chunk.symbols, |chunk.symbols|);
    PoolEntry(a, start, chunk.constants, n, j, r.names);
  }

  lemma {:induction false} ConstantAt(p: Program, k: nat)
    requires k < |p| && p[k].field.Constant?
    ensures Ordinal(p, k) < |Constants(p)| && Constants(p)[Ordinal(p, k)].literal == p[k].field.literal
  {
    var n := |p| - 1;
    assert p == p[..n] + [p[n]];
    OrdinalPrefix(p[..n], [p[n]], k);
    if k < n {
      ConstantAt(p[..n], k);
    }
  }

  // ---------------------------------------------------------------- the two main results

  /** What instruction `k` of a program reads as at run time: the same opcode and registers, the
  absolute address of the instruction it names, or the number of its own constant. */
  ghost predicate Faithful(x: Instr<nat>, u: Unit, k: nat, r: Image)
    requires k < |u.code|
  {
    && x.op == u.code[k].op && x.pre == u.code[k].pre && x.post == u.code[k].post
    && match u.code[k].field
       case Raw(n) => x.field == n
       case Rel(n) => x.field == Wrap64(n + u.base)
       case Target(i) => i <= |u.code| && x.field == Addr(u, i)
       case Late(_) => false
       case Constant(literal) => x.field < |r.pool| && r.pool[x.field] == ObjectFor(r.names, literal)
  }

  /** Assemble, load anywhere, load anything after it, decode: the instructions come back. */
  lemma {:induction false} RoundTrip(b: Block, img: Image, later: seq<Output>, k: nat)
    requires Loadable(b, img) && k < |Resolved(b, 0, 0)|
    ensures var u, r := UnitOf(b, img), Linked(b, img, later);
      && Decode(r.mem, Addr(u, k)) == Some(LoadedInstr(u.code, k, u.base, u.pool))
      && Faithful(LoadedInstr(u.code, k, u.base, u.pool), u, k, r)
  {
    hide GenBlock, Resolved, LoadChunk, LoadAll, ObjectFor, Decode, Constants, Ordinal, Assemble, Units.Sound,
        HoldsAt, TwoPass;
    var u, r, chunk := UnitOf(b, img), Linked(b, img, later), GenBlock(EMPTY_OUTPUT, b);
    UnitSound(b, img);
    UnitHeld(b, img, later, k);
    LoadedFits(u, k);
    LoadedLayout(u, k);
    KnownAt(u, k);
    DecodeHeld(r.mem, Addr(u, k), LoadedInstr(u.code, k, u.base, u.pool));
    match u.code[k].field
    case Target(i) =>
      Units.TargetInside(u, k);
      TargetAddress(u, k, i);
    case Constant(_) =>
      ChunkOfBlock(b);
      ConstantAt(u.code, k);
      ConstantKept(img, chunk, later, Ordinal(u.code, k));
    case _ =>
  }

  lemma {:induction false} KnownAt(u: Unit, k: nat)
    requires Units.Sound(u) && k < |u.code|
    ensures u.code[k].Known() && !u.code[k].field.Late?
  {
  }

  // ---------------------------------------------------------------- link histories

  /** The image after the chunks of the first `n` blocks have been loaded. */
  function ImageAt(img: Image, blocks: seq<Block>, n: nat): Image
    requires n <= |blocks|
  {
    if n == 0 then img else LoadChunk(ImageAt(img, blocks, n - 1), GenBlock(EMPTY_OUTPUT, blocks[n - 1]))
  }

  ghost predicate AllLoadable(img: Image, blocks: seq<Block>) {
    forall n :: 0 <= n < |blocks| ==> Loadable(blocks[n], ImageAt(img, blocks, n))
  }

  /** The blocks' programs where they are loaded. */
  function UnitsOf(img: Image, blocks: seq<Block>): (r: seq<Unit>)
    ensures |r| == |blocks|
    ensures forall n :: 0 <= n < |blocks| ==> r[n] == UnitOf(blocks[n], ImageAt(img, blocks, n))
  {
    seq(|blocks|, n requires 0 <= n < |blocks| => UnitOf(blocks[n], ImageAt(img, blocks, n)))
  }

  /** All the blocks' instructions as one text. */
  function TextAt(img: Image, blocks: seq<Block>): Text { TextOf(|img.mem|, UnitsOf(img, blocks)) }

  lemma {:induction false} HistoryMemory(img: Image, blocks: seq<Block>, n: nat)
    requires AllLoadable(img, blocks) && n <= |blocks|
    ensures ImageAt(img, blocks, n).mem == img.mem + Assemble(CodeOf(UnitsOf(img, blocks), n))
    ensures |ImageAt(img, blocks, n).mem| == BaseOf(|img.mem|, UnitsOf(img, blocks), n)
  {
    hide GenBlock, LoadChunk, Loadable, Assemble, UnitsOf, Offset, Loaded;
    var units := UnitsOf(img, blocks);
    if n > 0 {
      var u := units[n - 1];
      HistoryMemory(img, blocks, n - 1);
      LoadAppends(blocks[n - 1], ImageAt(img, blocks, n - 1));
      AssembleConcat(CodeOf(units, n - 1), Loaded(u.code, u.base, u.pool));
      Units.LoadedOffset(u, |u.code|);
    } else {
      NoCode(units);
    }
  }

  lemma {:induction false} NoCode(units: seq<Unit>)
    ensures Assemble(CodeOf(units, 0)) == []
  {
  }

  /** Units loaded in a row follow each other without gaps, and are a sound text. */
  lemma {:induction false} HistorySound(img: Image, blocks: seq<Block>)
    requires AllLoadable(img, blocks) && |blocks| > 0
    ensures Contiguous(|img.mem|, UnitsOf(img, blocks)) && Simulation.Sound(TextAt(img, blocks))
  {
    hide GenBlock, LoadChunk, Loadable, UnitsOf, Simulation.Sound, Units.Sound;
    var units := UnitsOf(img, blocks);
    forall n | 0 <= n < |units|
      ensures units[n].base == BaseOf(|img.mem|, units, n) && Units.Sound(units[n])
    {
      HistoryMemory(img, blocks, n);
      UnitSound(blocks[n], ImageAt(img, blocks, n));
    }
    HistoryEnd(img, blocks);
    TextSound(|img.mem|, units);
  }

  lemma {:induction false} HistoryEnd(img: Image, blocks: seq<Block>)
    requires AllLoadable(img, blocks) && |blocks| > 0
    ensures BaseOf(|img.mem|, UnitsOf(img, blocks), |blocks|) < EMPTY_CATCH
  {
    hide GenBlock, LoadChunk, UnitsOf;
    var n := |blocks| - 1;
    HistoryMemory(img, blocks, n + 1);
    assert Loadable(blocks[n], ImageAt(img, blocks, n));
    LoadFrame(ImageAt(img, blocks, n), GenBlock(EMPTY_OUTPUT, blocks[n]));
  }

  /** After the whole history and any other later loads, all the instructions are in memory. */
  lemma {:induction false} HistoryInMemory(img: Image, blocks: seq<Block>, later: seq<Output>)
    requires AllLoadable(img, blocks)
    ensures InMemory(TextAt(img, blocks), LoadAll(ImageAt(img, blocks, |blocks|), later).mem)
  {
    hide LoadAll, Assemble, CodeOf, HoldsAt, UnitsOf, ImageAt, AllLoadable;
    var x, r := TextAt(img, blocks), LoadAll(ImageAt(img, blocks, |blocks|), later);
    HistoryMemory(img, blocks, |blocks|);
    LoadAllFrame(ImageAt(img, blocks, |blocks|), later);
    forall g | 0 <= g < |x.code|
      ensures Placed(x, r.mem, g)
    {
      HeldInAssembly(x.code, img.mem, r.mem, g);
    }
  }

  /** Meaning preserved over whole runs and any link order: from related states, on the linked bytes with
  the linked constants and symbols, the interpreter follows the machine that runs the blocks' programs
  by instruction numbers, across calls from one chunk into another, for any number of steps. */
  lemma {:induction false} CompiledRun(img: Image, blocks: seq<Block>, later: seq<Output>, s: State, t: SymState,
      n: nat)
    requires AllLoadable(img, blocks) && |blocks| > 0
    requires s.mem == LoadAll(ImageAt(img, blocks, |blocks|), later).mem
    requires Related(Addresses(TextAt(img, blocks)), s, t)
    ensures var x, r := TextAt(img, blocks), LoadAll(ImageAt(img, blocks, |blocks|), later);
      && |x.targets| == |x.code|
      && Matches(Addresses(x), Run(s, Env(r.pool, r.table), n), SymRun(x, t, Env(r.pool, r.table), n))
  {
    hide LoadAll, TextAt, ImageAt, AllLoadable, InMemory, Addresses, Related, Matches, SymRun, Run;
    var r := LoadAll(ImageAt(img, blocks, |blocks|), later);
    HistorySound(img, blocks);
    HistoryInMemory(img, blocks, later);
    RunAgrees(TextAt(img, blocks), s, t, Env(r.pool, r.table), n);
  }

  /** An empty stack, with nothing executed yet. */
  function FreshState(mem: seq<byte>, ip: u64, d: Data): State { MachineState(mem, ip, [ROOT], d) }

  function FreshSymbolic(g: nat, d: Data): SymState { SymMachine(g, [SYM_ROOT], d) }

  lemma {:induction false} StartRelated(x: Text, mem: seq<byte>, g: nat, d: Data)
    requires Simulation.Sound(x) && g <= |x.code|
    ensures AddrOf(x, g) < EMPTY_CATCH
    ensures Related(Addresses(x), FreshState(mem, AddrOf(x, g), d), FreshSymbolic(g, d))
  {
    hide Simulation.Sound, AddrOf;
    AddressesSmall(x);
    assert Addresses(x)[g] < EMPTY_CATCH;
  }

  lemma {:induction false} StartMemory(mem: seq<byte>, ip: u64, d: Data)
    ensures FreshState(mem, ip, d).mem == mem
  {
  }

  /** The same from an empty stack, starting at any instruction. */
  lemma {:induction false} FreshRun(img: Image, blocks: seq<Block>, later: seq<Output>, g: nat, d: Data, n: nat)
    requires AllLoadable(img, blocks) && |blocks| > 0 && g <= |TextAt(img, blocks).code|
    ensures var x, r := TextAt(img, blocks), LoadAll(ImageAt(img, blocks, |blocks|), later);
      && |x.targets| == |x.code| && AddrOf(x, g) < EMPTY_CATCH
      && Matches(Addresses(x), Run(FreshState(r.mem, AddrOf(x, g), d), Env(r.pool, r.table), n),
                 SymRun(x, FreshSymbolic(g, d), Env(r.pool, r.table), n))
  {
    hide LoadAll, TextAt, ImageAt, AllLoadable, Matches, SymRun, Run, Related, Addresses, AddrOf, Simulation.Sound,
        Contiguous, UnitsOf, FreshState, FreshSymbolic;
    var x, r := TextAt(img, blocks), LoadAll(ImageAt(img, blocks, |blocks|), later);
    HistorySound(img, blocks);
    StartRelated(x, r.mem, g, d);
    StartMemory(r.mem, AddrOf(x, g), d);
    CompiledRun(img, blocks, later, FreshState(r.mem, AddrOf(x, g), d), FreshSymbolic(g, d), n);
  }

  // ---------------------------------------------------------------- the loader's precondition

  lemma {:induction false} SectionsInside(p: Program)
    requires WellTyped(p)
    ensures forall i :: 0 <= i < |Relocations(p)| ==> Relocations(p)[i] + 8 <= Offset(p, |p|)
    ensures forall i :: 0 <= i < |Constants(p)| ==> Constants(p)[i].index + 4 <= Offset(p, |p|)
  {
    if |p| > 0 {
      var n := |p| - 1;
      SectionsInside(p[..n]);
      OffsetCong(p[..n], p, n);
      assert WellTypedField(p[n]);
    }
  }

  /** The loader may be given every chunk the generator makes, forward calls or not. */
  lemma {:induction false} GeneratedInBounds(b: Block)
    requires WellFormed(b)
    ensures Loader.InBounds(GenBlock(EMPTY_OUTPUT, b))
  {
    hide GenBlock, Generated, Relocations, Constants, WellTyped;
    GeneratedSections(b);
    GeneratedWellTyped(b, 0, 0);
    SectionsInside(Generated(b, 0, 0));
  }
}
