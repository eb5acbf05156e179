/** Link orders: when the names defined so far can be looked up, what a second definition of a name does,
and a program whose call by name fails although its target is loaded. */
module LinkOrders {
  import opened Words
  import opened Isa
  import opened Symbolic
  import opened Assembly
  import opened AssemblyTheorems
  import opened Tables
  import opened Machine
  import opened Linking
  import opened Simulation
  import opened Units
  import opened Subroutines
  import opened Correctness
  import opened Resolution
  import opened Readback
  import Symbols

  ghost predicate HasKey<V>(t: Table<V>, id: nat) { exists i :: 0 <= i < |t| && t[i].id == id }

  /** A subroutine symbol of this name has been loaded. */
  ghost predicate Defined(img: Image, name: string) {
    name in img.names && HasKey(img.table, Symbols.IdOf(img.names, name))
  }

  /** The lookup of CALLSYMBOLIC finds the name. */
  predicate Resolvable(img: Image, name: string) {
    name in img.names && Find(img.table, Symbols.IdOf(img.names, name)).Some?
  }

  /** Names are interned once, and no name has two entries. */
  ghost predicate Keyed(img: Image) {
    && Symbols.Distinct(img.names) && Tables.Distinct(img.table)
    && forall i :: 0 <= i < |img.table| ==> 1 <= img.table[i].id <= |img.names|
  }

  /** When no name has two entries, all defined names can be looked up exactly when the table is in key order. */
  lemma {:induction false} ResolvableIffSorted(img: Image)
    requires Keyed(img)
    ensures (forall name :: Defined(img, name) ==> Resolvable(img, name)) <==> StrictlySorted(img.table)
  {
    hide Find, Symbols.IdOf;
    CompleteIffSorted(img.table);
    if forall name :: Defined(img, name) ==> Resolvable(img, name) {
      forall i | 0 <= i < |img.table|
        ensures Find(img.table, img.table[i].id).Some?
      {
        EntryNamed(img, i);
        assert Resolvable(img, img.names[img.table[i].id - 1]);
      }
    }
  }

  lemma {:induction false} EntryNamed(img: Image, i: nat)
    requires Keyed(img) && i < |img.table|
    ensures var name := img.names[img.table[i].id - 1];
      Symbols.IdOf(img.names, name) == img.table[i].id && Defined(img, name)
  {
    Symbols.IndexIs(img.names, img.table[i].id - 1);
  }

  // ---------------------------------------------------------------- the table, read off the chunks

  /** The entries of a chunk's first `k` symbols: the numbers of their names, and their addresses. */
  function Numbered(names: seq<string>, start: nat, symbols: seq<SymbolDef>, k: nat): Table<u64>
    requires k <= |symbols|
  {
    if k == 0 then []
    else
      Numbered(names, start, symbols, k - 1)
      + [Pair(Symbols.IdOf(SymbolNames(names, symbols, k), symbols[k - 1].name), Wrap64(start + symbols[k - 1].index))]
  }

  /** The entries of a chunk. */
  function ChunkEntries(names: seq<string>, start: nat, chunk: Output): Table<u64> {
    Numbered(names, start, chunk.symbols, |chunk.symbols|)
  }

  /** Names known after the chunks. */
  function OrderNames(names: seq<string>, chunks: seq<Output>): seq<string> {
    if |chunks| == 0 then names else ChunkNames(OrderNames(names, chunks[..|chunks| - 1]), chunks[|chunks| - 1])
  }

  function CodeSize(chunks: seq<Output>): nat {
    if |chunks| == 0 then 0 else CodeSize(chunks[..|chunks| - 1]) + |chunks[|chunks| - 1].code|
  }

  /** The entries of all the chunks, in link order. */
  function OrderEntries(names: seq<string>, start: nat, chunks: seq<Output>): Table<u64> {
    if |chunks| == 0 then []
    else
      var front := chunks[..|chunks| - 1];
      OrderEntries(names, start, front)
      + ChunkEntries(OrderNames(names, front), start + CodeSize(front), chunks[|chunks| - 1])
  }

  lemma {:induction false} SymbolEntries(img: Image, start: nat, symbols: seq<SymbolDef>, k: nat)
    requires k <= |symbols|
    ensures LoadSymbols(img, start, symbols, k).table == InsertAll(img.table, Numbered(img.names, start, symbols, k))
  {
    hide Insert, InsertAll, SymbolNames, Symbols.IdOf;
    if k == 0 {
      assert InsertAll(img.table, []) == img.table by { NothingInserted(img.table); }
    } else {
      SymbolEntries(img, start, symbols, k - 1);
      SymbolNamesAre(img, start, symbols, k);
      var p := Pair(Symbols.IdOf(SymbolNames(img.names, symbols, k), symbols[k - 1].name),
                    Wrap64(start + symbols[k - 1].index));
      InsertAllSnoc(img.table, Numbered(img.names, start, symbols, k - 1), p);
    }
  }

  lemma {:induction false} ChunkInserted(img: Image, chunk: Output)
    ensures LoadChunk(img, chunk).table == InsertAll(img.table, ChunkEntries(img.names, |img.mem|, chunk))
  {
    hide LoadSymbols, LoadConstants, LoadRelocations, InsertAll, Numbered;
    var img1 := img.(mem := img.mem + chunk.code);
    SymbolEntries(img1, |img.mem|, chunk.symbols, |chunk.symbols|);
    SymbolsFrame(img1, |img.mem|, chunk.symbols, |chunk.symbols|);
    ConstantsFrame(LoadSymbols(img1, |img.mem|, chunk.symbols, |chunk.symbols|), |img.mem|, chunk.constants,
                   |chunk.constants|);
  }

  /** The loaded table is the insertion history of entries that depend on the chunks only. */
  lemma {:induction false} OrderInserted(img: Image, chunks: seq<Output>)
    ensures var r := LoadAll(img, chunks);
      && r.table == InsertAll(img.table, OrderEntries(img.names, |img.mem|, chunks))
      && r.names == OrderNames(img.names, chunks) && |r.mem| == |img.mem| + CodeSize(chunks)
  {
    hide LoadChunk, InsertAll, ChunkEntries, ChunkNames;
    if |chunks| == 0 {
      NothingInserted(img.table);
    } else {
      var front, last := chunks[..|chunks| - 1], chunks[|chunks| - 1];
      OrderInserted(img, front);
      var before := LoadAll(img, front);
      ChunkInserted(before, last);
      ChunkNamesAre(before, last);
      LoadFrame(before, last);
      InsertAllConcat(img.table, OrderEntries(img.names, |img.mem|, front),
                      ChunkEntries(before.names, |before.mem|, last));
    }
  }

  // ---------------------------------------------------------------- one definition

  lemma {:induction false} InsertDistinct<V>(t: Table<V>, p: Pair<V>)
    requires Tables.Distinct(t) && forall i :: 0 <= i < |t| ==> t[i].id != p.id
    ensures Tables.Distinct(Insert(t, p))
  {
    SiftDistinct(t + [p], |t|, p);
  }

  /** Keys differ, leaving slot `idx` and the key of `p` out. */
  lemma {:induction false} SiftDistinct<V>(t: Table<V>, idx: nat, p: Pair<V>)
    requires idx < |t|
    requires forall i, j :: 0 <= i < j < |t| && i != idx && j != idx ==> t[i].id != t[j].id
    requires forall i :: 0 <= i < |t| && i != idx ==> t[i].id != p.id
    ensures Tables.Distinct(Sift(t, idx, p))
    decreases idx
  {
    if idx > 0 && p.id < t[idx / 2].id {
      SiftDistinct(t[idx := t[idx / 2]], idx / 2, p);
    }
  }

  lemma {:induction false} KeyIn<V>(t: Table<V>, id: nat)
    ensures HasKey(t, id) <==> exists p :: p in t && p.id == id
  {
    if HasKey(t, id) {
      var i :| 0 <= i < |t| && t[i].id == id;
      assert t[i] in t;
    }
  }

  lemma {:induction false} InsertKeys<V>(t: Table<V>, p: Pair<V>, id: nat)
    ensures HasKey(Insert(t, p), id) <==> HasKey(t, id) || id == p.id
  {
    hide Insert, HasKey;
    var r := Insert(t, p);
    InsertContents(t, p);
    KeyIn(t, id);
    KeyIn(r, id);
    forall q: Pair<V>
      ensures q in r <==> q in t || q == p
    {
      assert q in r <==> q in multiset(r);
      assert q in t <==> q in multiset(t);
    }
    assert p in r;
    if HasKey(t, id) {
      var q :| q in t && q.id == id;
      assert q in r;
    }
    if HasKey(r, id) {
      var q :| q in r && q.id == id;
      assert q in t || q == p;
    }
  }

  function WithDefinition(img: Image, name: string, dest: u64): Image {
    var names := Symbols.Intern(img.names, name);
    img.(names := names, table := Insert(img.table, Pair(Symbols.IdOf(names, name), dest)))
  }

  lemma {:induction false} KeyIsNew(img: Image, name: string)
    requires Keyed(img) && !Defined(img, name)
    ensures var names := Symbols.Intern(img.names, name);
      && Symbols.Distinct(names) && 1 <= Symbols.IdOf(names, name) <= |names|
      && forall i :: 0 <= i < |img.table| ==> img.table[i].id != Symbols.IdOf(names, name)
  {
    Symbols.InternProperties(img.names, name, name);
  }

  lemma {:induction false} DefineOne(img: Image, name: string, dest: u64)
    requires Keyed(img) && !Defined(img, name)
    ensures Keyed(WithDefinition(img, name, dest))
  {
    hide Insert, Symbols.Intern, Symbols.IdOf, Defined;
    var names := Symbols.Intern(img.names, name);
    var p := Pair(Symbols.IdOf(names, name), dest);
    KeyIsNew(img, name);
    InsertDistinct(img.table, p);
    InsertContents(img.table, p);
    var t := Insert(img.table, p);
    forall i | 0 <= i < |t|
      ensures 1 <= t[i].id <= |names|
    {
      assert t[i] in multiset(t);
    }
  }

  lemma {:induction false} DefinedNow(img: Image, name: string, dest: u64, other: string)
    requires Symbols.Distinct(img.names)
    ensures Defined(WithDefinition(img, name, dest), other)
            <==> other == name || (other in img.names && HasKey(img.table, Symbols.IdOf(img.names, other)))
  {
    hide Insert, HasKey, Symbols.IdOf;
    var names := Symbols.Intern(img.names, name);
    Symbols.InternProperties(img.names, name, other);
    InsertKeys(img.table, Pair(Symbols.IdOf(names, name), dest), Symbols.IdOf(names, other));
  }

  lemma {:induction false} NumberedLater(names: seq<string>, later: seq<string>, name: string)
    requires names <= later && name !in names && name in later
    ensures Symbols.IdOf(later, name) > |names|
  {
    hide Symbols.IndexOf;
    assert forall i :: 0 <= i < |names| ==> names[i] == later[i];
  }

  /** Constants intern names and leave the table alone. */
  lemma {:induction false} NamesGrow(img: Image, r: Image, name: string)
    requires Keyed(img) && r.table == img.table && img.names <= r.names && Symbols.Distinct(r.names)
    ensures Keyed(r) && (Defined(r, name) <==> Defined(img, name))
  {
    hide Symbols.IndexOf;
    if name in img.names {
      Symbols.IndexStable(img.names, r.names, name);
    } else if name in r.names {
      NumberedLater(img.names, r.names, name);
    }
  }

  // ---------------------------------------------------------------- a chunk

  ghost predicate Among(symbols: seq<SymbolDef>, k: nat, name: string) {
    exists j :: 0 <= j < k <= |symbols| && symbols[j].name == name
  }

  /** The chunk defines only names that have no entry yet, and each of them once. */
  ghost predicate DefinesOnce(img: Image, symbols: seq<SymbolDef>) {
    && (forall j :: 0 <= j < |symbols| ==> !Defined(img, symbols[j].name))
    && (forall i, j :: 0 <= i < j < |symbols| ==> symbols[i].name != symbols[j].name)
  }

  /** What is defined in `r`: what was, and the first `k` symbols. */
  ghost predicate DefinedAfter(img: Image, r: Image, symbols: seq<SymbolDef>, k: nat) {
    forall name :: Defined(r, name) <==> Defined(img, name) || Among(symbols, k, name)
  }

  lemma {:induction false} AmongStep(symbols: seq<SymbolDef>, k: nat, name: string)
    requires k < |symbols|
    ensures Among(symbols, k + 1, name) <==> Among(symbols, k, name) || name == symbols[k].name
  {
    if name == symbols[k].name {
      assert symbols[k].name == name;
    }
  }

  lemma {:induction false} SymbolsKeyed(img: Image, start: nat, symbols: seq<SymbolDef>, k: nat)
    requires Keyed(img) && DefinesOnce(img, symbols) && k <= |symbols|
    ensures var r := LoadSymbols(img, start, symbols, k); Keyed(r) && DefinedAfter(img, r, symbols, k)
  {
    hide Insert, Symbols.Intern, Symbols.IdOf, Keyed;
    if k > 0 {
      SymbolsKeyed(img, start, symbols, k - 1);
      var before, s := LoadSymbols(img, start, symbols, k - 1), symbols[k - 1];
      StepKeyed(img, before, symbols, k - 1, Wrap64(start + s.index));
      assert LoadSymbols(img, start, symbols, k) == WithDefinition(before, s.name, Wrap64(start + s.index));
    }
  }

  lemma {:induction false} StepKeyed(img: Image, before: Image, symbols: seq<SymbolDef>, k: nat, dest: u64)
    requires Keyed(before) && DefinesOnce(img, symbols) && k < |symbols| && DefinedAfter(img, before, symbols, k)
    ensures var r := WithDefinition(before, symbols[k].name, dest); Keyed(r) && DefinedAfter(img, r, symbols, k + 1)
  {
    hide WithDefinition, Defined, Symbols.IdOf, HasKey;
    var name := symbols[k].name;
    assert !Among(symbols, k, name);
    DefineOne(before, name, dest);
    forall other
      ensures Defined(WithDefinition(before, name, dest), other)
              <==> Defined(img, other) || Among(symbols, k + 1, other)
    {
      IsDefined(before, other);
      DefinedNow(before, name, dest, other);
      AmongStep(symbols, k, other);
    }
  }

  lemma {:induction false} IsDefined(img: Image, name: string)
    ensures Defined(img, name) <==> name in img.names && HasKey(img.table, Symbols.IdOf(img.names, name))
  {
  }

  lemma {:induction false} ConstantsDistinct(img: Image, start: nat, uses: seq<ConstantUse>, k: nat)
    requires Symbols.Distinct(img.names) && k <= |uses|
    ensures var r := LoadConstants(img, start, uses, k);
      Symbols.Distinct(r.names) && img.names <= r.names && r.table == img.table
  {
    hide Poke, Little, NamesAfter, ObjectFor;
    if k > 0 {
      ConstantsDistinct(img, start, uses, k - 1);
      DistinctAfter(LoadConstants(img, start, uses, k - 1).names, uses[k - 1].literal);
    }
  }

  lemma {:induction false} SameDefined(a: Image, b: Image, name: string)
    requires a.names == b.names && a.table == b.table
    ensures (Keyed(a) <==> Keyed(b)) && (Defined(a, name) <==> Defined(b, name))
  {
  }

  /** A load adds the chunk's names to those defined, each with one entry. */
  lemma {:induction false} LoadKeyed(img: Image, chunk: Output)
    requires Keyed(img) && DefinesOnce(img, chunk.symbols)
    ensures Keyed(LoadChunk(img, chunk)) && DefinedAfter(img, LoadChunk(img, chunk), chunk.symbols, |chunk.symbols|)
  {
    hide LoadSymbols, LoadConstants, LoadRelocations, Keyed, Defined, Among;
    var img1, start := img.(mem := img.mem + chunk.code), |img.mem|;
    forall name
      ensures (Keyed(img) <==> Keyed(img1)) && (Defined(img, name) <==> Defined(img1, name))
    {
      SameDefined(img, img1, name);
    }
    SameDefined(img, img1, "");
    SymbolsKeyed(img1, start, chunk.symbols, |chunk.symbols|);
    var a := LoadSymbols(img1, start, chunk.symbols, |chunk.symbols|);
    KeyedDistinct(a);
    ConstantsDistinct(a, start, chunk.constants, |chunk.constants|);
    var b, r := LoadConstants(a, start, chunk.constants, |chunk.constants|), LoadChunk(img, chunk);
    NamesGrow(a, b, "");
    SameDefined(b, r, "");
    forall name
      ensures Defined(r, name) <==> Defined(img, name) || Among(chunk.symbols, |chunk.symbols|, name)
    {
      NamesGrow(a, b, name);
      SameDefined(b, r, name);
      assert Defined(a, name) <==> Defined(img1, name) || Among(chunk.symbols, |chunk.symbols|, name);
    }
  }

  lemma {:induction false} KeyedDistinct(img: Image)
    requires Keyed(img)
    ensures Symbols.Distinct(img.names)
  {
  }

  /** The exact condition for one more load: the names defined before and the chunk's own can all be looked up if
  and only if inserting the chunk's entries into the table there is gives one in key order. */
  lemma {:induction false} LoadKeepsLookup(img: Image, chunk: Output)
    requires Keyed(img) && DefinesOnce(img, chunk.symbols)
    ensures var r := LoadChunk(img, chunk);
      (forall name :: Defined(img, name) || Among(chunk.symbols, |chunk.symbols|, name) ==> Resolvable(r, name))
      <==> StrictlySorted(InsertAll(img.table, ChunkEntries(img.names, |img.mem|, chunk)))
  {
    hide LoadChunk, Keyed, Defined, Among, Resolvable, StrictlySorted, DefinesOnce, ChunkEntries, InsertAll;
    LoadKeyed(img, chunk);
    ChunkInserted(img, chunk);
    ResolvableIffSorted(LoadChunk(img, chunk));
  }

  /** For a chunk with one subroutine the condition can be read off the image before the load: the table is
  short, or the name was not interned before the last defined one. */
  lemma {:induction false} OneMoreDefinition(img: Image, chunk: Output)
    requires Keyed(img) && StrictlySorted(img.table) && DefinesOnce(img, chunk.symbols) && |chunk.symbols| == 1
    ensures var name, t := chunk.symbols[0].name, img.table;
      (forall other :: Defined(img, other) || other == name ==> Resolvable(LoadChunk(img, chunk), other))
      <==> |t| <= 2 || name !in img.names || t[|t| - 1].id < Symbols.IdOf(img.names, name)
  {
    hide LoadChunk, Defined, Insert, Symbols.IdOf, Resolvable, StrictlySorted, ChunkEntries, InsertAll;
    var name := chunk.symbols[0].name;
    LoadKeepsLookup(img, chunk);
    forall other
      ensures Among(chunk.symbols, 1, other) <==> other == name
    {
      AmongStep(chunk.symbols, 0, other);
    }
    OneEntry(img, chunk);
    KeyIsNew(img, name);
    InsertKeepsOrderIff(img.table, ChunkEntries(img.names, |img.mem|, chunk)[0]);
    Symbols.InternProperties(img.names, name, name);
  }

  lemma {:induction false} OneEntry(img: Image, chunk: Output)
    requires |chunk.symbols| == 1
    ensures var p := Pair(Symbols.IdOf(Symbols.Intern(img.names, chunk.symbols[0].name), chunk.symbols[0].name),
                          Wrap64(|img.mem| + chunk.symbols[0].index));
      && ChunkEntries(img.names, |img.mem|, chunk) == [p]
      && InsertAll(img.table, ChunkEntries(img.names, |img.mem|, chunk)) == Insert(img.table, p)
  {
    hide Insert, Symbols.IdOf;
    var p := Pair(Symbols.IdOf(Symbols.Intern(img.names, chunk.symbols[0].name), chunk.symbols[0].name),
                  Wrap64(|img.mem| + chunk.symbols[0].index));
    assert SymbolNames(img.names, chunk.symbols, 0) == img.names;
    assert Numbered(img.names, |img.mem|, chunk.symbols, 0) == [];
    assert ChunkEntries(img.names, |img.mem|, chunk) == [] + [p];
    InsertAllSnoc(img.table, [], p);
    NothingInserted(img.table);
  }

  // ---------------------------------------------------------------- whole link orders

  function NamesIn(symbols: seq<SymbolDef>): (r: seq<string>)
    ensures |r| == |symbols| && forall j :: 0 <= j < |r| ==> r[j] == symbols[j].name
  {
    seq(|symbols|, j requires 0 <= j < |symbols| => symbols[j].name)
  }

  /** All subroutine names of the chunks, in link order. */
  function Definitions(chunks: seq<Output>): seq<string> {
    if |chunks| == 0 then [] else Definitions(chunks[..|chunks| - 1]) + NamesIn(chunks[|chunks| - 1].symbols)
  }

  lemma {:induction false} OrderKeyed(chunks: seq<Output>)
    requires Symbols.Distinct(Definitions(chunks))
    ensures Keyed(LoadAll(EMPTY_IMAGE, chunks))
    ensures forall name :: Defined(LoadAll(EMPTY_IMAGE, chunks), name) <==> name in Definitions(chunks)
  {
    hide LoadChunk, Keyed, Defined;
    if |chunks| == 0 {
      NothingDefined();
    } else {
      var front, last := chunks[..|chunks| - 1], chunks[|chunks| - 1];
      var defs, names := Definitions(front), NamesIn(last.symbols);
      FrontDistinct(defs, names);
      OrderKeyed(front);
      LoadKeyed(LoadAll(EMPTY_IMAGE, front), last);
      forall name
        ensures Among(last.symbols, |last.symbols|, name) <==> name in names
      {
        AmongNames(last.symbols, name);
      }
    }
  }

  lemma {:induction false} NothingDefined()
    ensures Keyed(EMPTY_IMAGE) && LoadAll(EMPTY_IMAGE, []) == EMPTY_IMAGE
    ensures forall name :: !Defined(EMPTY_IMAGE, name)
  {
  }

  lemma {:induction false} FrontDistinct(a: seq<string>, b: seq<string>)
    requires Symbols.Distinct(a + b)
    ensures Symbols.Distinct(a) && Symbols.Distinct(b) && forall j :: 0 <= j < |b| ==> b[j] !in a
  {
    assert forall i :: 0 <= i < |a| ==> (a + b)[i] == a[i];
    assert forall j :: 0 <= j < |b| ==> (a + b)[|a| + j] == b[j];
  }

  lemma {:induction false} AmongNames(symbols: seq<SymbolDef>, name: string)
    ensures Among(symbols, |symbols|, name) <==> name in NamesIn(symbols)
  {
    if Among(symbols, |symbols|, name) {
      var j :| 0 <= j < |symbols| && symbols[j].name == name;
      assert NamesIn(symbols)[j] == name;
    }
  }

  /** Any link order in which no name is defined twice: afterwards CALLSYMBOLIC can find every one of the
  subroutines if and only if inserting the entries of the chunks one after another gives a table in key order. */
  lemma {:induction false} OrderWorksIff(chunks: seq<Output>)
    requires Symbols.Distinct(Definitions(chunks))
    ensures var r := LoadAll(EMPTY_IMAGE, chunks);
      (forall name :: name in Definitions(chunks) ==> Resolvable(r, name))
      <==> StrictlySorted(InsertAll([], OrderEntries([], 0, chunks)))
  {
    hide LoadAll, Keyed, Defined, Definitions, Resolvable, StrictlySorted, OrderEntries, InsertAll;
    OrderKeyed(chunks);
    OrderInserted(EMPTY_IMAGE, chunks);
    ResolvableIffSorted(LoadAll(EMPTY_IMAGE, chunks));
  }
}
