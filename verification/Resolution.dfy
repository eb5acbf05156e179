/** Calls by name: which address CALLSYMBOLIC reaches, and when it fails to. */
module Resolution {
  import opened Words
  import opened Isa
  import opened Symbolic
  import opened Assembly
  import opened Tables
  import opened Machine
  import opened Linking
  import opened Simulation
  import opened Units
  import opened Subroutines
  import opened Correctness
  import Symbols

  /** Names are interned once, and the subroutine table is in key order with keys given out already. */
  ghost predicate Orderly(img: Image) {
    && Symbols.Distinct(img.names) && StrictlySorted(img.table)
    && forall i :: 0 <= i < |img.table| ==> img.table[i].id <= |img.names|
  }

  /** The chunk's subroutine names are its own. */
  ghost predicate NewNames(names: seq<string>, symbols: seq<SymbolDef>) {
    && (forall j :: 0 <= j < |symbols| ==> symbols[j].name !in names)
    && (forall i, j :: 0 <= i < j < |symbols| ==> symbols[i].name != symbols[j].name)
  }

  /** Names known after the first `k` subroutine symbols. */
  function SymbolNames(names: seq<string>, symbols: seq<SymbolDef>, k: nat): seq<string>
    requires k <= |symbols|
  {
    if k == 0 then names else Symbols.Intern(SymbolNames(names, symbols, k - 1), symbols[k - 1].name)
  }

  /** Names known after the first `k` constants. */
  function ConstantNames(names: seq<string>, uses: seq<ConstantUse>, k: nat): seq<string>
    requires k <= |uses|
  {
    if k == 0 then names else NamesAfter(ConstantNames(names, uses, k - 1), uses[k - 1].literal)
  }

  /** Names known after a chunk. */
  function ChunkNames(names: seq<string>, chunk: Output): seq<string> {
    ConstantNames(SymbolNames(names, chunk.symbols, |chunk.symbols|), chunk.constants, |chunk.constants|)
  }

  /** Every chunk's names are new when it is loaded. */
  ghost predicate AllNew(names: seq<string>, chunks: seq<Output>)
    decreases |chunks|
  {
    |chunks| > 0 ==> NewNames(names, chunks[0].symbols) && AllNew(ChunkNames(names, chunks[0]), chunks[1..])
  }

  lemma {:induction false} SymbolNamesAre(img: Image, start: nat, symbols: seq<SymbolDef>, k: nat)
    requires k <= |symbols|
    ensures LoadSymbols(img, start, symbols, k).names == SymbolNames(img.names, symbols, k)
  {
    hide Insert, Symbols.Intern, Symbols.IdOf;
    if k > 0 {
      SymbolNamesAre(img, start, symbols, k - 1);
    }
  }

  lemma {:induction false} ConstantNamesAre(img: Image, start: nat, uses: seq<ConstantUse>, k: nat)
    requires k <= |uses|
    ensures LoadConstants(img, start, uses, k).names == ConstantNames(img.names, uses, k)
  {
    hide Poke, Little, ObjectFor, NamesAfter;
    if k > 0 {
      ConstantNamesAre(img, start, uses, k - 1);
    }
  }

  lemma {:induction false} ChunkNamesAre(img: Image, chunk: Output)
    ensures LoadChunk(img, chunk).names == ChunkNames(img.names, chunk)
  {
    hide LoadSymbols, LoadConstants, LoadRelocations, SymbolNames, ConstantNames;
    var img1 := img.(mem := img.mem + chunk.code);
    SymbolNamesAre(img1, |img.mem|, chunk.symbols, |chunk.symbols|);
    var a := LoadSymbols(img1, |img.mem|, chunk.symbols, |chunk.symbols|);
    ConstantNamesAre(a, |img.mem|, chunk.constants, |chunk.constants|);
  }

  /** A chunk makes known its subroutine names and the symbols among its constants, and no other name. */
  lemma {:induction false} KnownAfter(names: seq<string>, chunk: Output, name: string)
    ensures name in ChunkNames(names, chunk)
            <==> || name in names || (exists j :: 0 <= j < |chunk.symbols| && chunk.symbols[j].name == name)
                 || exists j :: 0 <= j < |chunk.constants| && chunk.constants[j].literal == SymbolLit(name)
  {
    SymbolsKnown(names, chunk.symbols, |chunk.symbols|, name);
    ConstantsKnown(SymbolNames(names, chunk.symbols, |chunk.symbols|), chunk.constants, |chunk.constants|, name);
  }

  lemma {:induction false} SymbolsKnown(names: seq<string>, symbols: seq<SymbolDef>, k: nat, name: string)
    requires k <= |symbols|
    ensures name in SymbolNames(names, symbols, k)
            <==> name in names || exists j :: 0 <= j < k && symbols[j].name == name
  {
    if k > 0 {
      SymbolsKnown(names, symbols, k - 1, name);
      assert name == symbols[k - 1].name ==> exists j :: 0 <= j < k && symbols[j].name == name;
    }
  }

  lemma {:induction false} ConstantsKnown(names: seq<string>, uses: seq<ConstantUse>, k: nat, name: string)
    requires k <= |uses|
    ensures name in ConstantNames(names, uses, k)
            <==> name in names || exists j :: 0 <= j < k && uses[j].literal == SymbolLit(name)
  {
    if k > 0 {
      ConstantsKnown(names, uses, k - 1, name);
      assert uses[k - 1].literal == SymbolLit(name) ==> exists j :: 0 <= j < k && uses[j].literal == SymbolLit(name);
    }
  }

  lemma {:induction false} LoadAllFirst(img: Image, chunks: seq<Output>)
    requires |chunks| > 0
    ensures LoadAll(img, chunks) == LoadAll(LoadChunk(img, chunks[0]), chunks[1..])
    decreases |chunks|
  {
    hide LoadChunk;
    var n := |chunks| - 1;
    if n > 0 {
      LoadAllFirst(img, chunks[..n]);
      assert chunks[1..][..n - 1] == chunks[..n][1..];
    } else {
      assert LoadAll(img, chunks[..0]) == img;
      assert LoadAll(LoadChunk(img, chunks[0]), chunks[1..]) == LoadChunk(img, chunks[0]);
    }
  }

  /** What the first `k` symbols leave: their names, in order, behind the others, and their
  addresses behind the others in the table. */
  ghost predicate Appended(img: Image, r: Image, start: nat, symbols: seq<SymbolDef>, k: nat)
    requires k <= |symbols|
  {
    && |r.names| == |img.names| + k && img.names <= r.names
    && |r.table| == |img.table| + k && img.table <= r.table
    && forall j :: 0 <= j < k ==>
         && r.names[|img.names| + j] == symbols[j].name
         && r.table[|img.table| + j] == Pair(|img.names| + 1 + j, Wrap64(start + symbols[j].index))
  }

  lemma {:induction false} NewId(names: seq<string>, name: string)
    requires Symbols.Distinct(names) && name !in names
    ensures Symbols.Intern(names, name) == names + [name] && Symbols.Distinct(names + [name])
    ensures Symbols.IdOf(names + [name], name) == |names| + 1
  {
    Symbols.InternProperties(names, name, name);
  }

  lemma {:induction false} AppendOne(img: Image, before: Image, start: nat, symbols: seq<SymbolDef>, k: nat)
    requires Orderly(before) && k < |symbols| && Appended(img, before, start, symbols, k)
    requires symbols[k].name !in before.names
    ensures var names := Symbols.Intern(before.names, symbols[k].name);
      var r := before.(names := names,
                       table := Insert(before.table, Pair(Symbols.IdOf(names, symbols[k].name),
                                                          Wrap64(start + symbols[k].index))));
      Orderly(r) && Appended(img, r, start, symbols, k + 1)
  {
    hide Symbols.Intern, Symbols.IdOf, Insert;
    NewId(before.names, symbols[k].name);
    SiftStays(before.table, Pair(|before.names| + 1, Wrap64(start + symbols[k].index)));
  }

  lemma {:induction false} SymbolsAppend(img: Image, start: nat, symbols: seq<SymbolDef>, k: nat)
    requires Orderly(img) && NewNames(img.names, symbols) && k <= |symbols|
    ensures var r := LoadSymbols(img, start, symbols, k); Orderly(r) && Appended(img, r, start, symbols, k)
  {
    hide Orderly, Insert, Symbols.Intern, Symbols.IdOf;
    if k > 0 {
      SymbolsAppend(img, start, symbols, k - 1);
      var before := LoadSymbols(img, start, symbols, k - 1);
      StillNew(img, before, start, symbols, k - 1);
      AppendOne(img, before, start, symbols, k - 1);
    }
  }

  lemma {:induction false} StillNew(img: Image, before: Image, start: nat, symbols: seq<SymbolDef>, k: nat)
    requires NewNames(img.names, symbols) && k < |symbols| && Appended(img, before, start, symbols, k)
    ensures symbols[k].name !in before.names
  {
    forall i | 0 <= i < |before.names|
      ensures before.names[i] != symbols[k].name
    {
      if i < |img.names| {
        assert before.names[i] == img.names[i];
      } else {
        var j := i - |img.names|;
        assert before.names[|img.names| + j] == symbols[j].name;
      }
    }
  }

  lemma {:induction false} DistinctAfter(names: seq<string>, literal: Literal)
    requires Symbols.Distinct(names)
    ensures Symbols.Distinct(NamesAfter(names, literal)) && names <= NamesAfter(names, literal)
  {
  }

  lemma {:induction false} ConstantsKeepOrder(img: Image, start: nat, uses: seq<ConstantUse>, k: nat)
    requires Orderly(img) && k <= |uses|
    ensures var r := LoadConstants(img, start, uses, k); Orderly(r) && img.names <= r.names && r.table == img.table
  {
    hide Poke, Little, NamesAfter, ObjectFor;
    if k > 0 {
      ConstantsKeepOrder(img, start, uses, k - 1);
      DistinctAfter(LoadConstants(img, start, uses, k - 1).names, uses[k - 1].literal);
    }
  }

  /** A load with new names keeps the table in order and only appends to it. */
  lemma {:induction false} LoadKeepsOrder(img: Image, chunk: Output)
    requires Orderly(img) && NewNames(img.names, chunk.symbols)
    ensures var r := LoadChunk(img, chunk);
      && Orderly(r) && img.table <= r.table
      && forall j :: 0 <= j < |chunk.symbols| ==>
           Resolves(r, chunk.symbols[j].name, Wrap64(|img.mem| + chunk.symbols[j].index))
  {
    hide LoadSymbols, LoadConstants, LoadRelocations, Orderly, Resolves, NewNames;
    var start, n := |img.mem|, |chunk.symbols|;
    var img1 := img.(mem := img.mem + chunk.code);
    SameOrder(img, img1);
    SymbolsAppend(img1, start, chunk.symbols, n);
    var a := LoadSymbols(img1, start, chunk.symbols, n);
    ConstantsKeepOrder(a, start, chunk.constants, |chunk.constants|);
    var b, r := LoadConstants(a, start, chunk.constants, |chunk.constants|), LoadChunk(img, chunk);
    SameOrder(b, r);
    forall j | 0 <= j < n
      ensures Resolves(r, chunk.symbols[j].name, Wrap64(start + chunk.symbols[j].index))
    {
      AppendedResolves(img1, a, r, start, chunk.symbols, j);
    }
  }

  lemma {:induction false} SameOrder(b: Image, r: Image)
    requires Orderly(b) && r.names == b.names && r.table == b.table
    ensures Orderly(r)
  {
  }

  lemma {:induction false} AppendedResolves(img: Image, a: Image, r: Image, start: nat,
      symbols: seq<SymbolDef>, j: nat)
    requires Appended(img, a, start, symbols, |symbols|) && a.names <= r.names && a.table <= r.table && Orderly(r)
    requires j < |symbols|
    ensures Resolves(r, symbols[j].name, Wrap64(start + symbols[j].index))
  {
    hide Orderly, Resolves;
    assert a.names[|img.names| + j] == symbols[j].name;
    assert a.table[|img.table| + j] == Pair(|img.names| + 1 + j, Wrap64(start + symbols[j].index));
    EntryResolves(r, |img.names| + j, |img.table| + j);
  }

  /** The table gives `dest` for `name`. */
  ghost predicate Resolves(img: Image, name: string, dest: u64) {
    name in img.names && Find(img.table, Symbols.IdOf(img.names, name)) == Some(dest)
  }

  lemma {:induction false} EntryResolves(img: Image, n: nat, k: nat)
    requires Orderly(img) && n < |img.names| && k < |img.table| && img.table[k].id == n + 1
    ensures Resolves(img, img.names[n], img.table[k].obj)
  {
    Symbols.IndexIs(img.names, n);
    FindOnSorted(img.table, n + 1);
    FirstWithAt(img.table, n + 1, k);
  }

  lemma {:induction false} ResolvesLater(img: Image, r: Image, name: string, dest: u64)
    requires Orderly(img) && Orderly(r) && img.names <= r.names && img.table <= r.table && Resolves(img, name, dest)
    ensures Resolves(r, name, dest)
  {
    var id := Symbols.IdOf(img.names, name);
    Symbols.IndexStable(img.names, r.names, name);
    FindSound(img.table, id);
    var k :| 0 <= k < |img.table| && img.table[k] == Pair(id, dest);
    assert r.table[k] == Pair(id, dest);
    FindOnSorted(r.table, id);
    FirstWithAt(r.table, id, k);
  }

  lemma {:induction false} LoadAllKeepsOrder(img: Image, chunks: seq<Output>)
    requires Orderly(img) && AllNew(img.names, chunks)
    ensures var r := LoadAll(img, chunks); Orderly(r) && img.table <= r.table && img.names <= r.names
    decreases |chunks|
  {
    hide LoadChunk, NewNames, Orderly, ChunkNames;
    if |chunks| > 0 {
      LoadAllFirst(img, chunks);
      LoadKeepsOrder(img, chunks[0]);
      ChunkNamesAre(img, chunks[0]);
      LoadFrame(img, chunks[0]);
      LoadAllKeepsOrder(LoadChunk(img, chunks[0]), chunks[1..]);
    }
  }

  /** Every subroutine of a loaded chunk is found under its name, after any later loads. */
  lemma {:induction false} SubroutineFound(img: Image, chunk: Output, later: seq<Output>, j: nat)
    requires Orderly(img) && NewNames(img.names, chunk.symbols) && AllNew(ChunkNames(img.names, chunk), later)
    requires j < |chunk.symbols|
    ensures Resolves(LoadAll(LoadChunk(img, chunk), later), chunk.symbols[j].name,
                     Wrap64(|img.mem| + chunk.symbols[j].index))
  {
    hide LoadChunk, LoadAll, NewNames, Orderly, AllNew, Resolves, ChunkNames;
    LoadKeepsOrder(img, chunk);
    ChunkNamesAre(img, chunk);
    var r1 := LoadChunk(img, chunk);
    LoadAllKeepsOrder(r1, later);
    assert Resolves(r1, chunk.symbols[j].name, Wrap64(|img.mem| + chunk.symbols[j].index));
    ResolvesLater(r1, LoadAll(r1, later), chunk.symbols[j].name, Wrap64(|img.mem| + chunk.symbols[j].index));
  }

  // ---------------------------------------------------------------- calls by name

  lemma {:induction false} FaithfulCall(x: Instr<nat>, u: Unit, k: nat, r: Image, d: Data, name: string)
    requires k < |u.code| && Faithful(x, u, k, r)
    requires u.code[k].op == CALLSYMBOLIC && u.code[k].field == Constant(SymbolLit(name))
    ensures x.op == CALLSYMBOLIC
    ensures Destination(x, d, Env(r.pool, r.table)) == Find(r.table, Symbols.IdOf(r.names, name))
  {
    hide Find, Symbols.IdOf;
  }

  /** The chunks of the blocks from number `m` on, and those after them. */
  function Rest(blocks: seq<Block>, m: nat, later: seq<Output>): seq<Output>
    requires m <= |blocks|
    decreases |blocks| - m
  {
    if m == |blocks| then later else [GenBlock(EMPTY_OUTPUT, blocks[m])] + Rest(blocks, m + 1, later)
  }

  lemma {:induction false} RestLoads(img: Image, blocks: seq<Block>, m: nat, later: seq<Output>)
    requires m <= |blocks|
    ensures LoadAll(ImageAt(img, blocks, m), Rest(blocks, m, later)) == LoadAll(ImageAt(img, blocks, |blocks|), later)
    decreases |blocks| - m
  {
    hide GenBlock, LoadChunk, LoadAll;
    if m < |blocks| {
      LoadAllFirst(ImageAt(img, blocks, m), Rest(blocks, m, later));
      RestLoads(img, blocks, m + 1, later);
      assert Rest(blocks, m, later)[1..] == Rest(blocks, m + 1, later);
    }
  }

  /** The final image, seen from the load of block `m`. */
  lemma {:induction false} LinkedFrom(img: Image, blocks: seq<Block>, m: nat, later: seq<Output>)
    requires m < |blocks|
    ensures Linked(blocks[m], ImageAt(img, blocks, m), Rest(blocks, m + 1, later))
            == LoadAll(ImageAt(img, blocks, |blocks|), later)
  {
    hide GenBlock, LoadChunk, LoadAll;
    RestLoads(img, blocks, m + 1, later);
  }

  lemma {:induction false} HistoryOrderly(img: Image, blocks: seq<Block>, m: nat, later: seq<Output>)
    requires m <= |blocks| && Orderly(img) && AllNew(img.names, Rest(blocks, 0, later))
    ensures Orderly(ImageAt(img, blocks, m)) && AllNew(ImageAt(img, blocks, m).names, Rest(blocks, m, later))
    ensures m < |blocks| ==>
              var chunk := GenBlock(EMPTY_OUTPUT, blocks[m]);
              && NewNames(ImageAt(img, blocks, m).names, chunk.symbols)
              && AllNew(ChunkNames(ImageAt(img, blocks, m).names, chunk), Rest(blocks, m + 1, later))
  {
    hide GenBlock, LoadChunk, NewNames, Orderly, ChunkNames;
    if m > 0 {
      var before := ImageAt(img, blocks, m - 1);
      HistoryOrderly(img, blocks, m - 1, later);
      LoadKeepsOrder(before, GenBlock(EMPTY_OUTPUT, blocks[m - 1]));
      ChunkNamesAre(before, GenBlock(EMPTY_OUTPUT, blocks[m - 1]));
    }
    if m < |blocks| {
      assert Rest(blocks, m, later)[1..] == Rest(blocks, m + 1, later);
    }
  }

  /** Instruction `k` of block `a` calls `name`. */
  ghost predicate CallsByName(blocks: seq<Block>, a: nat, k: nat, name: string) {
    && a < |blocks| && k < |Resolved(blocks[a], 0, 0)|
    && Resolved(blocks[a], 0, 0)[k].op == CALLSYMBOLIC
    && Resolved(blocks[a], 0, 0)[k].field == Constant(SymbolLit(name))
  }

  /** Instruction `k` of unit `a` is where the history put it, however often calls have counted in tags. */
  lemma {:induction false} FetchInHistory(img: Image, blocks: seq<Block>, a: nat, k: nat, mem: seq<byte>)
    requires AllLoadable(img, blocks) && a < |blocks| && InMemory(TextAt(img, blocks), mem)
    requires k < |UnitsOf(img, blocks)[a].code|
    ensures var u := UnitsOf(img, blocks)[a];
      && Decode(mem, Addr(u, k)) == Some(LoadedInstr(u.code, k, u.base, u.pool))
      && Addr(u, k) + LoadedInstr(u.code, k, u.base, u.pool).Size() == Addr(u, k + 1) < EMPTY_CATCH
  {
    hide GenBlock, LoadChunk, AllLoadable, UnitsOf, Simulation.Sound, InMemory, Decode, Simulation.Goal, LoadedInstr,
        Contiguous, TargetsOf, Addr;
    var units, x := UnitsOf(img, blocks), TextAt(img, blocks);
    HistorySound(img, blocks);
    InText(|img.mem|, units, a, k);
    InText(|img.mem|, units, a, k + 1);
    FetchFacts(x, mem, Start(units, a) + k);
    NextInText(x, Start(units, a) + k);
  }

  lemma {:induction false} NextInText(x: Text, g: nat)
    requires Simulation.Sound(x) && g < |x.code|
    ensures AddrOf(x, g) + x.code[g].Size() == AddrOf(x, g + 1) < EMPTY_CATCH
  {
    AddressesSmall(x);
    assert Addresses(x)[g + 1] < EMPTY_CATCH;
  }

  /** What a call by name does when the table has `found` for the name. */
  ghost predicate CallOutcome(s: State, o: Outcome<State>, found: Option<u64>) {
    if found.None? || |s.frames| >= STACK_SIZE then o.Faulted?
    else
      && o.Running? && o.s.ip == found.value
      && |o.s.frames| == |s.frames| + 1 && o.s.frames[..|s.frames| - 1] == s.frames[..|s.frames| - 1]
      && Top(o.s).ret == s.ip + 9 && o.s.data == CopyRegs(s.data)
  }

  lemma {:induction false} CallByName(s: State, env: Env, x: Instr<nat>, found: Option<u64>)
    requires Decode(s.mem, s.ip) == Some(x) && x.op == CALLSYMBOLIC && Destination(x, s.data, env) == found
    requires x.Size() == 9 && s.ip + 9 < EMPTY_CATCH
    ensures CallOutcome(s, Step(s, env), found)
  {
    hide Decode, Destination;
    QuotientUnique(s.ip + 9, TWO64, 0, s.ip + 9);
  }

  /** Control is at a call of `name`, instruction `k` of block `a`; tags may have counted. */
  ghost predicate AtCall(img: Image, blocks: seq<Block>, a: nat, k: nat, name: string, s: State) {
    && AllLoadable(img, blocks) && CallsByName(blocks, a, k, name)
    && InMemory(TextAt(img, blocks), s.mem) && s.ip == Addr(UnitsOf(img, blocks)[a], k)
  }

  /** The exact outcome of CALLSYMBOLIC in any linked history: it goes to the address the final table has
  for the name, and fails when the lookup finds none or the stack is full. */
  lemma {:induction false} NamedCall(img: Image, blocks: seq<Block>, later: seq<Output>, a: nat, k: nat, name: string,
      s: State)
    requires AtCall(img, blocks, a, k, name, s)
    ensures var r := LoadAll(ImageAt(img, blocks, |blocks|), later);
      CallOutcome(s, Step(s, Env(r.pool, r.table)), Find(r.table, Symbols.IdOf(r.names, name)))
  {
    hide GenBlock, LoadChunk, LoadAll, InMemory, TextAt, Resolved, ImageAt, Find, Symbols.IdOf, Decode, Step, Faithful,
        Destination, LoadedInstr, Loadable, Addr, CallOutcome;
    var u, r := UnitsOf(img, blocks)[a], LoadAll(ImageAt(img, blocks, |blocks|), later);
    var x := LoadedInstr(u.code, k, u.base, u.pool);
    FetchInHistory(img, blocks, a, k, s.mem);
    LinkedFrom(img, blocks, a, later);
    RoundTrip(blocks[a], ImageAt(img, blocks, a), Rest(blocks, a + 1, later), k);
    FaithfulCall(x, u, k, r, s.data, name);
    DecodedSize(s.mem, s.ip, x);
    CallByName(s, Env(r.pool, r.table), x, Find(r.table, Symbols.IdOf(r.names, name)));
  }

  lemma {:induction false} DecodedSize(mem: seq<byte>, at: nat, x: Instr<nat>)
    requires Decode(mem, at) == Some(x) && x.op == CALLSYMBOLIC
    ensures x.Size() == 9
  {
  }

  /** The loaded address of subroutine `j` of block `c`: that of the instruction its label stands before. */
  lemma {:induction false} SubAddress(img: Image, b: Block, j: nat)
    requires Loadable(b, img) && j < |Subs(b, |b.lines|, 0)|
    ensures var u, sub, chunk := UnitOf(b, img), Subs(b, |b.lines|, 0)[j], GenBlock(EMPTY_OUTPUT, b);
      && j < |chunk.symbols| && sub.index <= |u.code|
      && chunk.symbols[j].name == sub.name && Wrap64(|img.mem| + chunk.symbols[j].index) == Addr(u, sub.index)
  {
    hide GenBlock, Resolved, Subs, Loadable, Units.Sound, Offset;
    SymbolSection(b);
    UnitSound(b, img);
    var u, sub := UnitOf(b, img), Subs(b, |b.lines|, 0)[j];
    SoundAddress(u, sub.index);
    QuotientUnique(Addr(u, sub.index), TWO64, 0, Addr(u, sub.index));
  }

  lemma {:induction false} SoundAddress(u: Unit, i: nat)
    requires Units.Sound(u) && i <= |u.code|
    ensures Addr(u, i) < EMPTY_CATCH
  {
    OffsetMonotone(u.code, i, |u.code|);
  }

  /** Every subroutine of a history is found under its name, at the instruction its label stands before. */
  lemma {:induction false} HistoryResolves(img: Image, blocks: seq<Block>, later: seq<Output>, c: nat, j: nat)
    requires AllLoadable(img, blocks) && Orderly(img) && AllNew(img.names, Rest(blocks, 0, later))
    requires c < |blocks| && j < |Subs(blocks[c], |blocks[c].lines|, 0)|
    ensures var sub, v := Subs(blocks[c], |blocks[c].lines|, 0)[j], UnitsOf(img, blocks)[c];
      && sub.index <= |v.code| && Addr(v, sub.index) < TWO64
      && Resolves(LoadAll(ImageAt(img, blocks, |blocks|), later), sub.name, Addr(v, sub.index))
  {
    hide GenBlock, LoadChunk, LoadAll, Resolved, ImageAt, Loadable, Addr, Orderly, AllNew, NewNames, ChunkNames, Rest,
        Subs, Resolves;
    HistoryOrderly(img, blocks, c, later);
    LinkedFrom(img, blocks, c, later);
    SubAddress(ImageAt(img, blocks, c), blocks[c], j);
    SubroutineFound(ImageAt(img, blocks, c), GenBlock(EMPTY_OUTPUT, blocks[c]), Rest(blocks, c + 1, later), j);
  }

  /** Linking by name does what it is for. When every chunk defines new names, CALLSYMBOLIC in any chunk, on
  the name of subroutine `j` of any chunk `c`, enters the instruction that subroutine's label stands
  before, whatever is loaded between the two and after them. */
  lemma {:induction false} CallReachesSubroutine(img: Image, blocks: seq<Block>, later: seq<Output>, a: nat, k: nat,
      c: nat, j: nat, s: State)
    requires Orderly(img) && AllNew(img.names, Rest(blocks, 0, later))
    requires c < |blocks| && j < |Subs(blocks[c], |blocks[c].lines|, 0)|
    requires AtCall(img, blocks, a, k, Subs(blocks[c], |blocks[c].lines|, 0)[j].name, s)
    ensures var sub, r := Subs(blocks[c], |blocks[c].lines|, 0)[j], LoadAll(ImageAt(img, blocks, |blocks|), later);
      var v := UnitsOf(img, blocks)[c];
      && sub.index <= |v.code| && Addr(v, sub.index) < TWO64
      && CallOutcome(s, Step(s, Env(r.pool, r.table)), Some(Addr(v, sub.index)))
  {
    hide GenBlock, LoadChunk, LoadAll, ImageAt, Step, Addr, CallOutcome, Orderly, AllNew, Rest, Subs, Find, UnitsOf,
        InMemory, CallsByName, TextAt;
    NamedCall(img, blocks, later, a, k, Subs(blocks[c], |blocks[c].lines|, 0)[j].name, s);
    HistoryResolves(img, blocks, later, c, j);
  }
}
