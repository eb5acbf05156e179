/** Two blocks, linked in the order that makes a call by name fail although its target is loaded. */
module LinkOrderExample {
  import opened Words
  import opened Isa
  import opened Symbolic
  import opened Assembly
  import opened AssemblyTheorems
  import opened Tables
  import opened Machine
  import opened Linking
  import opened Simulation
  import opened Units
  import opened Subroutines
  import opened Correctness
  import opened Resolution
  import opened LinkOrders
  import Symbols

  const NAMED_CALL := Plain(Instr(CALLSYMBOLIC, true, [], 4, (), [0]), Constant(SymbolLit("f")))
  const STOP := Plain(Instr(DIE, false, [], 0, (), []), Raw(0))

  /** Three names for one call of "f", which is defined nowhere yet. */
  const CALLER := Block([Define("a", true), Define("b", true), Define("c", true), NAMED_CALL])

  /** "g", and then "f". */
  const CALLEE := Block([Define("g", true), Define("f", true), STOP])

  const CALL_CODE := Instr(CALLSYMBOLIC, true, [], 4, Constant(SymbolLit("f")), [0])
  const STOP_CODE := Instr(DIE, false, [], 0, Raw(0), [])

  lemma {:induction false} CallerProgram()
    ensures Resolved(CALLER, 0, 0) == [CALL_CODE]
    ensures Subs(CALLER, 4, 0) == [Sub(0, "a"), Sub(0, "b"), Sub(0, "c")]
  {
    var b := CALLER;
    assert Count(b, 0) == Count(b, 1) == Count(b, 2) == Count(b, 3) == 0;
    assert Subs(b, 1, 0) == Subs(b, 0, 0) + SubsOf(b.lines[0], 0) == [Sub(0, "a")];
    assert Subs(b, 2, 0) == Subs(b, 1, 0) + SubsOf(b.lines[1], 0) == [Sub(0, "a"), Sub(0, "b")];
    assert Subs(b, 3, 0) == Subs(b, 2, 0) + SubsOf(b.lines[2], 0);
    assert Subs(b, 4, 0) == Subs(b, 3, 0) + SubsOf(b.lines[3], 0);
    assert Resolved(b, 4, 0) == [];
    assert Resolved(b, 3, 0) == ResolvedLine(b, 3, 0) + Resolved(b, 4, 0) == [CALL_CODE];
    assert Resolved(b, 2, 0) == ResolvedLine(b, 2, 0) + Resolved(b, 3, 0);
    assert Resolved(b, 1, 0) == ResolvedLine(b, 1, 0) + Resolved(b, 2, 0);
    assert Resolved(b, 0, 0) == ResolvedLine(b, 0, 0) + Resolved(b, 1, 0);
  }

  lemma {:induction false} CalleeProgram()
    ensures Resolved(CALLEE, 0, 0) == [STOP_CODE]
    ensures Subs(CALLEE, 3, 0) == [Sub(0, "g"), Sub(0, "f")]
  {
    var b := CALLEE;
    assert Count(b, 0) == Count(b, 1) == Count(b, 2) == 0;
    assert Subs(b, 1, 0) == Subs(b, 0, 0) + SubsOf(b.lines[0], 0) == [Sub(0, "g")];
    assert Subs(b, 2, 0) == Subs(b, 1, 0) + SubsOf(b.lines[1], 0);
    assert Subs(b, 3, 0) == Subs(b, 2, 0) + SubsOf(b.lines[2], 0);
    assert Resolved(b, 3, 0) == [];
    assert Resolved(b, 2, 0) == ResolvedLine(b, 2, 0) + Resolved(b, 3, 0) == [STOP_CODE];
    assert Resolved(b, 1, 0) == ResolvedLine(b, 1, 0) + Resolved(b, 2, 0);
    assert Resolved(b, 0, 0) == ResolvedLine(b, 0, 0) + Resolved(b, 1, 0);
  }

  lemma {:induction false} BothSupported()
    ensures WellFormed(CALLER) && NoForwardCall(CALLER) && WellFormed(CALLEE) && NoForwardCall(CALLEE)
  {
  }

  /** The chunks the generator makes of the blocks. */
  lemma {:induction false} Chunks()
    ensures var a, b := GenBlock(EMPTY_OUTPUT, CALLER), GenBlock(EMPTY_OUTPUT, CALLEE);
      && |a.code| == 9 && a.constants == [ConstantUse(4, SymbolLit("f"))] && a.relocs == []
      && a.symbols == [SymbolDef(0, "a"), SymbolDef(0, "b"), SymbolDef(0, "c")]
      && |b.code| == 1 && b.constants == [] && b.relocs == []
      && b.symbols == [SymbolDef(0, "g"), SymbolDef(0, "f")]
  {
    hide GenBlock, Resolved, Subs, NoForwardCall, WellFormed, TwoPass, Assemble;
    BothSupported();
    CallerProgram();
    CalleeProgram();
    ChunkOfBlock(CALLER);
    ChunkOfBlock(CALLEE);
    SymbolSection(CALLER);
    SymbolSection(CALLEE);
    OneInstruction(CALL_CODE);
    OneInstruction(STOP_CODE);
  }

  lemma {:induction false} OneInstruction(x: Instr<Operand>)
    ensures Offset([x], 0) == 0 && |Assemble(LaidOut([x]))| == x.Size()
    ensures Relocations([x]) == RelocationOf(x, 0) && Constants([x]) == ConstantOf(x, 0)
  {
    var p := [x];
    assert p[..0] == [];
    assert Relocations(p[..0]) == [] && Constants(p[..0]) == [];
    LaidOutOffset(p, 1);
    assert Offset(p, 1) == Offset(p, 0) + x.Size();
  }

  // ---------------------------------------------------------------- the two loads

  const DEFS_A := [SymbolDef(0, "a"), SymbolDef(0, "b"), SymbolDef(0, "c")]
  const DEFS_B := [SymbolDef(0, "g"), SymbolDef(0, "f")]
  const TABLE_A: Table<u64> := [Pair(1, 0), Pair(2, 0), Pair(3, 0)]

  lemma {:induction false} FirstSymbols(img: Image)
    requires img.names == [] && img.table == []
    ensures var s := LoadSymbols(img, 0, DEFS_A, 3);
      s.names == ["a", "b", "c"] && s.table == TABLE_A && s.mem == img.mem
  {
    hide LoadSymbols;
    SymbolsAppend(img, 0, DEFS_A, 3);
    SymbolsFrame(img, 0, DEFS_A, 3);
    var s, n, m := LoadSymbols(img, 0, DEFS_A, 3), |img.names|, |img.table|;
    assert s.names[n + 0] == DEFS_A[0].name && s.names[n + 1] == DEFS_A[1].name && s.names[n + 2] == DEFS_A[2].name;
    assert s.table[m + 0] == Pair(1, 0) && s.table[m + 1] == Pair(2, 0) && s.table[m + 2] == Pair(3, 0);
  }

  lemma {:induction false} FirstLoad(chunk: Output)
    requires |chunk.code| == 9 && chunk.symbols == DEFS_A
    requires chunk.constants == [ConstantUse(4, SymbolLit("f"))] && chunk.relocs == []
    ensures var img := LoadChunk(EMPTY_IMAGE, chunk);
      |img.mem| == 9 && |img.pool| == 1 && img.names == ["a", "b", "c", "f"] && img.table == TABLE_A
  {
    hide LoadSymbols, Poke, Little, ObjectFor, LoadRelocations;
    LoadFrame(EMPTY_IMAGE, chunk);
    var img1 := EMPTY_IMAGE.(mem := EMPTY_IMAGE.mem + chunk.code);
    FirstSymbols(img1);
    var s := LoadSymbols(img1, 0, DEFS_A, 3);
    assert LoadConstants(s, 0, chunk.constants, 0) == s;
  }

  lemma {:induction false} SecondSymbols(img: Image)
    requires img.names == ["a", "b", "c", "f"] && img.table == TABLE_A
    ensures var r := LoadSymbols(img, 9, DEFS_B, 2);
      Symbols.IdOf(r.names, "f") == 4 && r.table == TABLE_A + [Pair(5, 9), Pair(4, 9)] && "f" in r.names
  {
    hide Insert, Symbols.IndexOf;
    var s0, s1 := LoadSymbols(img, 9, DEFS_B, 0), LoadSymbols(img, 9, DEFS_B, 1);
    NewId(img.names, "g");
    assert s1.names == img.names + ["g"];
    SiftStays(img.table, Pair(5, 9));
    assert s1.table == TABLE_A + [Pair(5, 9)];
    assert s1.names[3] == "f";
    Symbols.IndexIs(s1.names, 3);
    FifthKey(s1.table);
  }

  lemma {:induction false} FifthKey(t: Table<u64>)
    requires t == TABLE_A + [Pair(5, 9)]
    ensures Insert(t, Pair(4, 9)) == t + [Pair(4, 9)] && Find(t + [Pair(4, 9)], 4) == None
  {
    var s := t + [Pair(4, 9)];
    assert s[4 := Pair(4, 9)] == s;
    assert Search(s, 0, 4, 4) == Search(s, 3, 4, 4) == Search(s, 3, 3, 4) == 3;
  }

  lemma {:induction false} SecondLoad(img: Image, chunk: Output)
    requires |img.mem| == 9 && img.names == ["a", "b", "c", "f"] && img.table == TABLE_A
    requires chunk.symbols == DEFS_B && chunk.constants == []
    ensures var r := LoadChunk(img, chunk);
      && "f" in r.names && Pair(Symbols.IdOf(r.names, "f"), 9) in r.table
      && Find(r.table, Symbols.IdOf(r.names, "f")) == None
  {
    hide LoadSymbols, Symbols.IdOf, Find, Search, LoadRelocations;
    var img1 := img.(mem := img.mem + chunk.code);
    SecondSymbols(img1);
    var s := LoadSymbols(img1, 9, DEFS_B, 2);
    assert LoadConstants(s, 9, [], 0) == s;
    FifthKey(TABLE_A + [Pair(5, 9)]);
    assert s.table == TABLE_A + [Pair(5, 9)] + [Pair(4, 9)];
    assert s.table[4] == Pair(4, 9);
  }

  lemma {:induction false} BothLoadable()
    ensures AllLoadable(EMPTY_IMAGE, [CALLER, CALLEE])
    ensures ImageAt(EMPTY_IMAGE, [CALLER, CALLEE], 0) == EMPTY_IMAGE
    ensures ImageAt(EMPTY_IMAGE, [CALLER, CALLEE], 1) == LoadChunk(EMPTY_IMAGE, GenBlock(EMPTY_OUTPUT, CALLER))
    ensures ImageAt(EMPTY_IMAGE, [CALLER, CALLEE], 2)
            == LoadChunk(LoadChunk(EMPTY_IMAGE, GenBlock(EMPTY_OUTPUT, CALLER)), GenBlock(EMPTY_OUTPUT, CALLEE))
  {
    hide GenBlock, LoadChunk, NoForwardCall, WellFormed;
    Chunks();
    BothSupported();
    FirstLoad(GenBlock(EMPTY_OUTPUT, CALLER));
  }

  /** The first instruction of the caller calls "f"; "f" has an entry in the table; the call fails. */
  lemma {:induction false} CalledBeforeDefined()
    ensures var blocks := [CALLER, CALLEE];
      var r := ImageAt(EMPTY_IMAGE, blocks, 2);
      && AllLoadable(EMPTY_IMAGE, blocks) && CallsByName(blocks, 0, 0, "f") && Defined(r, "f")
      && Step(FreshState(r.mem, 0, StartData()), Env(r.pool, r.table)).Faulted?
  {
    hide GenBlock, LoadChunk, Loadable, Find, Step, InMemory, TextAt, AllLoadable, Addr, Symbols.IdOf, ImageAt;
    var blocks := [CALLER, CALLEE];
    var r := ImageAt(EMPTY_IMAGE, blocks, 2);
    BothLoadable();
    Chunks();
    FirstLoad(GenBlock(EMPTY_OUTPUT, CALLER));
    SecondLoad(LoadChunk(EMPTY_IMAGE, GenBlock(EMPTY_OUTPUT, CALLER)), GenBlock(EMPTY_OUTPUT, CALLEE));
    EntryDefined(r, "f", Pair(Symbols.IdOf(r.names, "f"), 9));
    CallerProgram();
    HistoryInMemory(EMPTY_IMAGE, blocks, []);
    NothingLater(r);
    FirstAddress(UnitsOf(EMPTY_IMAGE, blocks)[0]);
    NamedCall(EMPTY_IMAGE, blocks, [], 0, 0, "f", FreshState(r.mem, 0, StartData()));
  }

  lemma {:induction false} EntryDefined(img: Image, name: string, p: Pair<u64>)
    requires name in img.names && p in img.table && p.id == Symbols.IdOf(img.names, name)
    ensures Defined(img, name)
  {
  }

  lemma {:induction false} FirstAddress(u: Unit)
    ensures Addr(u, 0) == u.base
  {
  }

  // ---------------------------------------------------------------- the other order

  lemma {:induction false} NamesAreNew()
    ensures AllNew([], Rest([CALLEE, CALLER], 0, []))
  {
    hide GenBlock;
    Chunks();
    var a, b := GenBlock(EMPTY_OUTPUT, CALLER), GenBlock(EMPTY_OUTPUT, CALLEE);
    var names := ["g", "f"];
    assert SymbolNames([], DEFS_B, 1) == Symbols.Intern(SymbolNames([], DEFS_B, 0), "g") == ["g"];
    assert ChunkNames([], b) == SymbolNames([], DEFS_B, 2) == names;
    assert Rest([CALLEE, CALLER], 2, []) == [];
    assert Rest([CALLEE, CALLER], 1, []) == [a];
    assert AllNew(ChunkNames(names, a), [a][1..]);
    assert AllNew(names, [a]);
    assert Rest([CALLEE, CALLER], 0, []) == [b, a];
    assert [b, a][1..] == [a];
  }

  lemma {:induction false} BothLoadableToo()
    ensures AllLoadable(EMPTY_IMAGE, [CALLEE, CALLER]) && |ImageAt(EMPTY_IMAGE, [CALLEE, CALLER], 1).mem| == 1
  {
    hide GenBlock, LoadChunk, NoForwardCall, WellFormed;
    Chunks();
    BothSupported();
    var blocks := [CALLEE, CALLER];
    LoadFrame(EMPTY_IMAGE, GenBlock(EMPTY_OUTPUT, CALLEE));
    assert ImageAt(EMPTY_IMAGE, blocks, 0) == EMPTY_IMAGE;
    assert ImageAt(EMPTY_IMAGE, blocks, 1) == LoadChunk(EMPTY_IMAGE, GenBlock(EMPTY_OUTPUT, CALLEE));
  }

  /** With the blocks linked the other way round the same call enters "f", at address 0. */
  lemma {:induction false} CalledAfterDefined()
    ensures var blocks := [CALLEE, CALLER];
      var r := ImageAt(EMPTY_IMAGE, blocks, 2);
      var o := Step(FreshState(r.mem, 1, StartData()), Env(r.pool, r.table));
      AllLoadable(EMPTY_IMAGE, blocks) && CallsByName(blocks, 1, 0, "f") && o.Running? && o.s.ip == 0
  {
    hide GenBlock, LoadChunk, Loadable, Find, Step, InMemory, TextAt, AllLoadable, Addr, ImageAt, AllNew, Rest, Subs;
    var blocks := [CALLEE, CALLER];
    var r, s := ImageAt(EMPTY_IMAGE, blocks, 2), FreshState(ImageAt(EMPTY_IMAGE, blocks, 2).mem, 1, StartData());
    BothLoadableToo();
    NamesAreNew();
    CallerProgram();
    CalleeProgram();
    FirstUnitAtZero(blocks);
    HistoryInMemory(EMPTY_IMAGE, blocks, []);
    NothingLater(r);
    FirstAddress(UnitsOf(EMPTY_IMAGE, blocks)[0]);
    FirstAddress(UnitsOf(EMPTY_IMAGE, blocks)[1]);
    assert AtCall(EMPTY_IMAGE, blocks, 1, 0, "f", s);
    CallReachesSubroutine(EMPTY_IMAGE, blocks, [], 1, 0, 0, 1, s);
  }

  lemma {:induction false} FirstUnitAtZero(blocks: seq<Block>)
    requires |blocks| > 0
    ensures UnitsOf(EMPTY_IMAGE, blocks)[0].base == 0
  {
  }
}
