/** Defining a name again: which of its addresses a call by name reaches. */
module Redefinition {
  import opened Words
  import opened Symbolic
  import opened Assembly
  import opened Tables
  import opened Machine
  import opened Linking
  import opened Resolution
  import opened Readback
  import opened KeyViews
  import opened SmallerKeys
  import opened LinkOrders
  import Symbols

  /** Slot `k` of the table has the name's entry, and the keys are split there. */
  ghost predicate HeldAt(img: Image, name: string, k: nat, dest: u64) {
    && Symbols.Distinct(img.names) && name in img.names
    && Split(img.table, Symbols.IdOf(img.names, name), k)
    && k < |img.table| && img.table[k] == Pair(Symbols.IdOf(img.names, name), dest)
  }

  /** No symbol has a name that was interned before `name`. */
  ghost predicate NoneOlder(names: seq<string>, name: string, symbols: seq<SymbolDef>) {
    forall j :: 0 <= j < |symbols| ==> Younger(names, name, symbols[j].name)
  }

  /** `other` is interned after `name`, or is `name`. */
  predicate Younger(names: seq<string>, name: string, other: string) {
    other in names ==> Symbols.IdOf(names, name) <= Symbols.IdOf(names, other)
  }

  lemma {:induction false} HeldResolves(img: Image, name: string, k: nat, dest: u64)
    requires HeldAt(img, name, k, dest)
    ensures Resolves(img, name, dest)
  {
    FindSplit(img.table, Symbols.IdOf(img.names, name), k);
  }

  lemma {:induction false} YoungerStays(names: seq<string>, later: seq<string>, name: string, other: string)
    requires names <= later && name in names && Younger(names, name, other) && Symbols.Distinct(later)
    ensures Younger(later, name, other) && Symbols.IdOf(later, name) == Symbols.IdOf(names, name) <= |names|
    ensures other in later ==> Symbols.IdOf(names, name) <= Symbols.IdOf(later, other)
  {
    hide Symbols.IndexOf;
    Symbols.IndexStable(names, later, name);
    if other in names {
      Symbols.IndexStable(names, later, other);
    } else if other in later {
      NumberedLater(names, later, other);
    }
  }

  lemma {:induction false} DefineKeepsHeld(img: Image, name: string, k: nat, dest: u64, other: string, at: u64)
    requires HeldAt(img, name, k, dest) && Younger(img.names, name, other)
    ensures HeldAt(WithDefinition(img, other, at), name, k, dest)
  {
    hide Symbols.IdOf, Symbols.Intern, Sift;
    var names := Symbols.Intern(img.names, other);
    Symbols.InternProperties(img.names, other, name);
    YoungerStays(img.names, names, name, other);
    var p := Pair(Symbols.IdOf(names, other), at);
    SiftSplit(img.table + [p], |img.table|, p, Symbols.IdOf(names, name), k);
  }

  lemma {:induction false} SymbolsKeepHeld(img: Image, start: nat, symbols: seq<SymbolDef>, m: nat, name: string,
      k: nat, dest: u64)
    requires HeldAt(img, name, k, dest) && NoneOlder(img.names, name, symbols) && m <= |symbols|
    ensures var r := LoadSymbols(img, start, symbols, m); HeldAt(r, name, k, dest) && img.names <= r.names
  {
    hide Insert, HeldAt, Younger, Symbols.IdOf, Symbols.Intern;
    if m > 0 {
      SymbolsKeepHeld(img, start, symbols, m - 1, name, k, dest);
      var before, s := LoadSymbols(img, start, symbols, m - 1), symbols[m - 1];
      HeldName(img, name, k, dest);
      HeldName(before, name, k, dest);
      YoungerStays(img.names, before.names, name, s.name);
      DefineKeepsHeld(before, name, k, dest, s.name, Wrap64(start + s.index));
      assert LoadSymbols(img, start, symbols, m) == WithDefinition(before, s.name, Wrap64(start + s.index));
    }
  }

  lemma {:induction false} HeldName(img: Image, name: string, k: nat, dest: u64)
    requires HeldAt(img, name, k, dest)
    ensures name in img.names && Symbols.Distinct(img.names)
  {
  }

  lemma {:induction false} HeldWithNames(img: Image, r: Image, name: string, k: nat, dest: u64)
    requires HeldAt(img, name, k, dest) && r.table == img.table && img.names <= r.names && Symbols.Distinct(r.names)
    ensures HeldAt(r, name, k, dest)
  {
    Symbols.IndexStable(img.names, r.names, name);
  }

  lemma {:induction false} LoadKeepsHeld(img: Image, chunk: Output, name: string, k: nat, dest: u64)
    requires HeldAt(img, name, k, dest) && NoneOlder(img.names, name, chunk.symbols)
    ensures HeldAt(LoadChunk(img, chunk), name, k, dest) && img.names <= LoadChunk(img, chunk).names
  {
    hide LoadSymbols, LoadConstants, LoadRelocations, HeldAt, NoneOlder;
    var img1, start := img.(mem := img.mem + chunk.code), |img.mem|;
    HeldName(img, name, k, dest);
    HeldWithNames(img, img1, name, k, dest);
    SymbolsKeepHeld(img1, start, chunk.symbols, |chunk.symbols|, name, k, dest);
    var a := LoadSymbols(img1, start, chunk.symbols, |chunk.symbols|);
    HeldName(a, name, k, dest);
    ConstantsDistinct(a, start, chunk.constants, |chunk.constants|);
    var b := LoadConstants(a, start, chunk.constants, |chunk.constants|);
    HeldWithNames(a, b, name, k, dest);
    HeldName(b, name, k, dest);
    HeldWithNames(b, LoadChunk(img, chunk), name, k, dest);
  }

  /** None of the chunks defines a name older than `name`; `name` itself may be defined again and again. */
  ghost predicate NeverOlder(names: seq<string>, name: string, chunks: seq<Output>) {
    forall i :: 0 <= i < |chunks| ==> NoneOlder(names, name, chunks[i].symbols)
  }

  lemma {:induction false} LoadAllKeepsHeld(img: Image, chunks: seq<Output>, name: string, k: nat, dest: u64)
    requires HeldAt(img, name, k, dest) && NeverOlder(img.names, name, chunks)
    ensures HeldAt(LoadAll(img, chunks), name, k, dest) && img.names <= LoadAll(img, chunks).names
  {
    hide LoadChunk, HeldAt, Younger, Symbols.IdOf;
    if |chunks| > 0 {
      var front, last := chunks[..|chunks| - 1], chunks[|chunks| - 1];
      LoadAllKeepsHeld(img, front, name, k, dest);
      var before := LoadAll(img, front);
      HeldName(img, name, k, dest);
      HeldName(before, name, k, dest);
      forall j | 0 <= j < |last.symbols|
        ensures Younger(before.names, name, last.symbols[j].name)
      {
        assert NoneOlder(img.names, name, chunks[|chunks| - 1].symbols);
        YoungerStays(img.names, before.names, name, last.symbols[j].name);
      }
      LoadKeepsHeld(before, last, name, k, dest);
    }
  }

  /** A name that resolves, in a table in key order, is at the place of its rank. */
  lemma {:induction false} FirstHeld(img: Image, name: string, dest: u64)
    requires Symbols.Distinct(img.names) && Sorted(img.table) && Resolves(img, name, dest)
    ensures HeldAt(img, name, Rank(img.table, Symbols.IdOf(img.names, name)), dest)
  {
    hide Symbols.IdOf, Find;
    var id := Symbols.IdOf(img.names, name);
    RankSplits(img.table, id);
    FindSplit(img.table, id, Rank(img.table, id));
  }

  /** A name keeps its first address through any later loads that define it again, or define names interned
  after it, as long as they define none interned before it. */
  lemma {:induction false} KeptWhileNoneOlder(img: Image, chunks: seq<Output>, name: string, dest: u64)
    requires Symbols.Distinct(img.names) && Sorted(img.table) && Resolves(img, name, dest)
    requires NeverOlder(img.names, name, chunks)
    ensures Resolves(LoadAll(img, chunks), name, dest)
  {
    hide LoadAll, Symbols.IdOf, Find, NeverOlder, HeldAt, Rank;
    FirstHeld(img, name, dest);
    var k := Rank(img.table, Symbols.IdOf(img.names, name));
    LoadAllKeepsHeld(img, chunks, name, k, dest);
    HeldResolves(LoadAll(img, chunks), name, k, dest);
  }

  /** The exact law of one more definition, of whatever name. The name found in slot `k` keeps its address if and
  only if the one defined is not older, or the older one's way into the table avoids the search for the name, or
  the next entry of the name has the same address. */
  lemma {:induction false} KeptIff(img: Image, chunk: Output, name: string, k: nat, dest: u64)
    requires HeldAt(img, name, k, dest) && |chunk.symbols| == 1
    ensures var t, id := img.table, Symbols.IdOf(img.names, name);
      Resolves(LoadChunk(img, chunk), name, dest)
      <==> Younger(img.names, name, chunk.symbols[0].name) || Stays(|t|, k)
           || AtSlot(t, Landing(|t|, k) + 1, id) == Some(dest)
  {
    hide LoadChunk, Insert, InsertAll, ChunkEntries, Symbols.IdOf, Find, Stays, Landing;
    var other, id := chunk.symbols[0].name, Symbols.IdOf(img.names, name);
    OneEntry(img, chunk);
    ChunkInserted(img, chunk);
    LoadFrame(img, chunk);
    Symbols.IndexStable(img.names, LoadChunk(img, chunk).names, name);
    StaysIff(img.table, id, k, ChunkEntries(img.names, |img.mem|, chunk)[0]);
    DefinedSide(img.names, name, other);
  }

  lemma {:induction false} DefinedSide(names: seq<string>, name: string, other: string)
    requires Symbols.Distinct(names) && name in names
    ensures Symbols.IdOf(names, name) <= Symbols.IdOf(Symbols.Intern(names, other), other)
            <==> Younger(names, name, other)
  {
    hide Symbols.IndexOf;
    Symbols.InternProperties(names, other, name);
    YoungerStays(names, names, name, name);
  }

  /** The exact law of any loads, of whatever names, from any image the loader makes: what a name resolves to is
  determined by the entries there were and, of each later definition in order, its address and whether its
  name was interned before this one, is this one, or was interned after. */
  lemma {:induction false} ResolvesByOrder(img: Image, chunks: seq<Output>, name: string, dest: u64)
    requires HeapOrdered(img.table) && name in OrderNames(img.names, chunks)
    ensures var id := Symbols.IdOf(OrderNames(img.names, chunks), name);
      Resolves(LoadAll(img, chunks), name, dest)
      <==> FindSeen(InsertAll(View(img.table, id), View(OrderEntries(img.names, |img.mem|, chunks), id))) == Some(dest)
  {
    hide LoadAll, InsertAll, OrderEntries, OrderNames, View, Find, Symbols.IdOf, HeapOrdered;
    var id := Symbols.IdOf(OrderNames(img.names, chunks), name);
    OrderInserted(img, chunks);
    HistoryLookup(img.table, OrderEntries(img.names, |img.mem|, chunks), id);
  }
}
