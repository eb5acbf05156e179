/** Three blocks, the last of which defines a name again, and with success. */
module RedefinitionExample {
  import opened Words
  import opened Isa
  import opened Symbolic
  import opened Assembly
  import opened AssemblyTheorems
  import opened Tables
  import opened Machine
  import opened Linking
  import opened Subroutines
  import opened Resolution
  import opened LinkOrders
  import opened LinkOrderExample
  import Symbols

  /** A call of "x", which has no definition yet. */
  const EARLY := Block([Plain(Instr(CALLSYMBOLIC, true, [], 4, (), [0]), Constant(SymbolLit("x")))])

  /** "p", "q" and "f". */
  const FIRST := Block([Define("p", true), Define("q", true), Define("f", true), STOP])

  /** "f" again, and "x". */
  const AGAIN := Block([Define("f", true), Define("x", true), STOP])

  const EARLY_CODE := Instr(CALLSYMBOLIC, true, [], 4, Constant(SymbolLit("x")), [0])

  lemma {:induction false} EarlyProgram()
    ensures Resolved(EARLY, 0, 0) == [EARLY_CODE] && Subs(EARLY, 1, 0) == []
  {
    var b := EARLY;
    assert Count(b, 0) == 0;
    assert Subs(b, 1, 0) == Subs(b, 0, 0) + SubsOf(b.lines[0], 0) == [];
    assert Resolved(b, 1, 0) == [];
    assert Resolved(b, 0, 0) == ResolvedLine(b, 0, 0) + Resolved(b, 1, 0) == [EARLY_CODE];
  }

  lemma {:induction false} FirstProgram()
    ensures Resolved(FIRST, 0, 0) == [STOP_CODE]
    ensures Subs(FIRST, 4, 0) == [Sub(0, "p"), Sub(0, "q"), Sub(0, "f")]
  {
    var b := FIRST;
    assert Count(b, 0) == Count(b, 1) == Count(b, 2) == Count(b, 3) == 0;
    assert Subs(b, 1, 0) == Subs(b, 0, 0) + SubsOf(b.lines[0], 0) == [Sub(0, "p")];
    assert Subs(b, 2, 0) == Subs(b, 1, 0) + SubsOf(b.lines[1], 0) == [Sub(0, "p"), Sub(0, "q")];
    assert Subs(b, 3, 0) == Subs(b, 2, 0) + SubsOf(b.lines[2], 0);
    assert Subs(b, 4, 0) == Subs(b, 3, 0) + SubsOf(b.lines[3], 0);
    assert Resolved(b, 4, 0) == [];
    assert Resolved(b, 3, 0) == ResolvedLine(b, 3, 0) + Resolved(b, 4, 0) == [STOP_CODE];
    assert Resolved(b, 2, 0) == ResolvedLine(b, 2, 0) + Resolved(b, 3, 0);
    assert Resolved(b, 1, 0) == ResolvedLine(b, 1, 0) + Resolved(b, 2, 0);
    assert Resolved(b, 0, 0) == ResolvedLine(b, 0, 0) + Resolved(b, 1, 0);
  }

  lemma {:induction false} AgainProgram()
    ensures Resolved(AGAIN, 0, 0) == [STOP_CODE] && Subs(AGAIN, 3, 0) == [Sub(0, "f"), Sub(0, "x")]
  {
    var b := AGAIN;
    assert Count(b, 0) == Count(b, 1) == Count(b, 2) == 0;
    assert Subs(b, 1, 0) == Subs(b, 0, 0) + SubsOf(b.lines[0], 0) == [Sub(0, "f")];
    assert Subs(b, 2, 0) == Subs(b, 1, 0) + SubsOf(b.lines[1], 0);
    assert Subs(b, 3, 0) == Subs(b, 2, 0) + SubsOf(b.lines[2], 0);
    assert Resolved(b, 3, 0) == [];
    assert Resolved(b, 2, 0) == ResolvedLine(b, 2, 0) + Resolved(b, 3, 0) == [STOP_CODE];
    assert Resolved(b, 1, 0) == ResolvedLine(b, 1, 0) + Resolved(b, 2, 0);
    assert Resolved(b, 0, 0) == ResolvedLine(b, 0, 0) + Resolved(b, 1, 0);
  }

  lemma {:induction false} NoneCallForward()
    ensures NoForwardCall(EARLY) && NoForwardCall(FIRST) && NoForwardCall(AGAIN)
  {
  }

  /** The chunks of the first two blocks, and that of the third. */
  function Before(): seq<Output> { [GenBlock(EMPTY_OUTPUT, EARLY), GenBlock(EMPTY_OUTPUT, FIRST)] }

  function After(): seq<Output> { Before() + [GenBlock(EMPTY_OUTPUT, AGAIN)] }

  const DEFS_FIRST := [SymbolDef(0, "p"), SymbolDef(0, "q"), SymbolDef(0, "f")]
  const DEFS_AGAIN := [SymbolDef(0, "f"), SymbolDef(0, "x")]

  lemma {:induction false} ChunksOfBlocks()
    ensures var a, b, c := GenBlock(EMPTY_OUTPUT, EARLY), GenBlock(EMPTY_OUTPUT, FIRST), GenBlock(EMPTY_OUTPUT, AGAIN);
      && |a.code| == 9 && a.constants == [ConstantUse(4, SymbolLit("x"))] && a.symbols == []
      && |b.code| == 1 && b.constants == [] && b.symbols == DEFS_FIRST
      && |c.code| == 1 && c.constants == [] && c.symbols == DEFS_AGAIN
  {
    hide GenBlock, Resolved, Subs, NoForwardCall, TwoPass, Assemble;
    NoneCallForward();
    EarlyProgram();
    FirstProgram();
    AgainProgram();
    ChunkOfBlock(EARLY);
    ChunkOfBlock(FIRST);
    ChunkOfBlock(AGAIN);
    SymbolSection(EARLY);
    SymbolSection(FIRST);
    SymbolSection(AGAIN);
    OneInstruction(EARLY_CODE);
    OneInstruction(STOP_CODE);
  }

  // ---------------------------------------------------------------- names and entries

  const NAMES := ["x", "p", "q", "f"]

  lemma {:induction false} NamesOf(a: Output, b: Output, c: Output)
    requires a.constants == [ConstantUse(4, SymbolLit("x"))] && a.symbols == []
    requires b.constants == [] && b.symbols == DEFS_FIRST && c.constants == [] && c.symbols == DEFS_AGAIN
    ensures ChunkNames([], a) == ["x"] && ChunkNames(["x"], b) == NAMES && ChunkNames(NAMES, c) == NAMES
  {
    assert SymbolNames(["x"], DEFS_FIRST, 1) == Symbols.Intern(SymbolNames(["x"], DEFS_FIRST, 0), "p") == ["x", "p"];
    assert SymbolNames(["x"], DEFS_FIRST, 2) == ["x", "p", "q"];
    assert SymbolNames(["x"], DEFS_FIRST, 3) == NAMES;
    assert "f" == NAMES[3] && "x" == NAMES[0];
    assert SymbolNames(NAMES, DEFS_AGAIN, 1) == Symbols.Intern(SymbolNames(NAMES, DEFS_AGAIN, 0), "f") == NAMES;
    assert SymbolNames(NAMES, DEFS_AGAIN, 2) == NAMES;
    assert ConstantNames([], a.constants, 1) == NamesAfter(ConstantNames([], a.constants, 0), SymbolLit("x")) == ["x"];
  }

  lemma {:induction false} Numbers()
    ensures Symbols.IdOf(["x", "p"], "p") == 2 && Symbols.IdOf(["x", "p", "q"], "q") == 3
    ensures Symbols.IdOf(NAMES, "f") == 4 && Symbols.IdOf(NAMES, "x") == 1 && "f" in NAMES
  {
    Symbols.IndexIs(["x", "p"], 1);
    Symbols.IndexIs(["x", "p", "q"], 2);
    Symbols.IndexIs(NAMES, 3);
    Symbols.IndexIs(NAMES, 0);
  }

  lemma {:induction false} EntriesOf(b: Output, c: Output)
    requires b.symbols == DEFS_FIRST && c.symbols == DEFS_AGAIN
    ensures ChunkEntries(["x"], 9, b) == [Pair(2, 9), Pair(3, 9), Pair(4, 9)]
    ensures ChunkEntries(NAMES, 10, c) == [Pair(4, 10), Pair(1, 10)]
  {
    hide Symbols.IdOf;
    Numbers();
    var names := ["x"];
    assert SymbolNames(names, DEFS_FIRST, 1) == Symbols.Intern(SymbolNames(names, DEFS_FIRST, 0), "p") == ["x", "p"];
    assert SymbolNames(names, DEFS_FIRST, 2) == ["x", "p", "q"];
    assert SymbolNames(names, DEFS_FIRST, 3) == NAMES;
    assert Numbered(names, 9, DEFS_FIRST, 1) == Numbered(names, 9, DEFS_FIRST, 0) + [Pair(2, 9)] == [Pair(2, 9)];
    assert Numbered(names, 9, DEFS_FIRST, 2) == [Pair(2, 9), Pair(3, 9)];
    assert "f" == NAMES[3] && "x" == NAMES[0];
    assert SymbolNames(NAMES, DEFS_AGAIN, 1) == Symbols.Intern(SymbolNames(NAMES, DEFS_AGAIN, 0), "f") == NAMES;
    assert SymbolNames(NAMES, DEFS_AGAIN, 2) == NAMES;
    assert Numbered(NAMES, 10, DEFS_AGAIN, 1) == Numbered(NAMES, 10, DEFS_AGAIN, 0) + [Pair(4, 10)] == [Pair(4, 10)];
  }

  /** The table after two blocks, and after three. */
  const TABLE_FIRST: Table<u64> := [Pair(2, 9), Pair(3, 9), Pair(4, 9)]
  const TABLE_AGAIN: Table<u64> := [Pair(1, 10), Pair(2, 9), Pair(3, 9), Pair(4, 10), Pair(4, 9)]

  lemma {:induction false} TablesOf()
    ensures InsertAll([], TABLE_FIRST) == TABLE_FIRST
    ensures InsertAll(TABLE_FIRST, [Pair(4, 10), Pair(1, 10)]) == TABLE_AGAIN
  {
    hide Sift;
    var t: Table<u64> := TABLE_FIRST + [Pair(4, 10)];
    Ascending(TABLE_FIRST);
    SiftStays(TABLE_FIRST, Pair(4, 10));
    InsertAllSnoc(TABLE_FIRST, [], Pair(4, 10));
    InsertAllSnoc(TABLE_FIRST, [Pair(4, 10)], Pair(1, 10));
    assert [] + [Pair(4, 10)] == [Pair(4, 10)] && [Pair(4, 10)] + [Pair(1, 10)] == [Pair(4, 10), Pair(1, 10)];
    NothingInserted(TABLE_FIRST);
    UpTheWay(t, Pair(1, 10));
  }

  lemma {:induction false} UpTheWay(t: Table<u64>, p: Pair<u64>)
    requires t == TABLE_FIRST + [Pair(4, 10)] && p == Pair(1, 10)
    ensures Insert(t, p) == TABLE_AGAIN
  {
    hide Sift;
    var s4 := t + [p];
    var s2 := s4[4 := s4[2]];
    var s1 := s2[2 := s2[1]];
    var s0 := s1[1 := s1[0]];
    SiftUp(s4, 4, p);
    SiftUp(s2, 2, p);
    SiftUp(s1, 1, p);
    SiftHere(s0, 0, p);
  }

  lemma {:induction false} Lookups()
    ensures Find(TABLE_FIRST, 4) == Some(9) && Find(TABLE_AGAIN, 4) == Some(10)
  {
    assert Search(TABLE_FIRST, 0, 2, 4) == Search(TABLE_FIRST, 2, 2, 4) == 2;
    assert Search(TABLE_AGAIN, 0, 4, 4) == Search(TABLE_AGAIN, 3, 4, 4) == Search(TABLE_AGAIN, 3, 3, 4) == 3;
  }

  lemma {:induction false} OrderOf(chunks: seq<Output>, last: Output, names: seq<string>)
    ensures OrderNames(names, chunks + [last]) == ChunkNames(OrderNames(names, chunks), last)
    ensures CodeSize(chunks + [last]) == CodeSize(chunks) + |last.code|
    ensures OrderEntries(names, 0, chunks + [last])
            == OrderEntries(names, 0, chunks) + ChunkEntries(OrderNames(names, chunks), CodeSize(chunks), last)
  {
    assert (chunks + [last])[..|chunks|] == chunks;
  }

  /** "f" resolves to the first definition, at 9, until the block that defines "f" and then "x" is loaded at 10;
  after that the second definition wins. */
  lemma {:induction false} SecondDefinitionWins()
    ensures Resolves(LoadAll(EMPTY_IMAGE, Before()), "f", 9)
    ensures Resolves(LoadAll(EMPTY_IMAGE, After()), "f", 10)
  {
    hide GenBlock, LoadAll, InsertAll, OrderNames, OrderEntries, CodeSize, ChunkNames, ChunkEntries, Symbols.IdOf, Find;
    var a, b, c := GenBlock(EMPTY_OUTPUT, EARLY), GenBlock(EMPTY_OUTPUT, FIRST), GenBlock(EMPTY_OUTPUT, AGAIN);
    ChunksOfBlocks();
    NamesOf(a, b, c);
    EntriesOf(b, c);
    NothingYet(a);
    OrderOf([], a, []);
    OrderOf([a], b, []);
    OrderOf([a, b], c, []);
    assert [] + [a] == [a] && [a] + [b] == [a, b] == Before() && [a, b] + [c] == [a, b, c] == After();
    assert OrderNames([], [a]) == ["x"] && OrderEntries([], 0, [a]) == [] && CodeSize([a]) == 9;
    assert OrderNames([], [a, b]) == NAMES && CodeSize([a, b]) == 10;
    assert OrderEntries([], 0, [a, b]) == [] + TABLE_FIRST == TABLE_FIRST;
    assert OrderEntries([], 0, [a, b, c]) == TABLE_FIRST + [Pair(4, 10), Pair(1, 10)];
    assert EMPTY_IMAGE.names == [] && EMPTY_IMAGE.mem == [] && EMPTY_IMAGE.table == [];
    OrderInserted(EMPTY_IMAGE, Before());
    OrderInserted(EMPTY_IMAGE, After());
    InsertAllConcat([], TABLE_FIRST, [Pair(4, 10), Pair(1, 10)]);
    TablesOf();
    Numbers();
    Lookups();
  }

  lemma {:induction false} NothingYet(a: Output)
    requires a.symbols == []
    ensures OrderNames([], []) == [] && OrderEntries([], 0, []) == [] && CodeSize([]) == 0
    ensures ChunkEntries([], 0, a) == []
  {
  }
}
