/** The loader: copies a chunk behind the code already in the program array and fixes its
constants, addresses, subroutine symbols and debug ranges up in place. */
module Loader {
  import opened Words
  import opened Isa
  import opened Symbolic
  import opened Assembly
  import opened Machine
  import opened Linking
  import Tables
  import Symbols

  const PROGRAM_INITIAL_CAPACITY: nat := 16384
  const POOL_INITIAL_SIZE: nat := 128
  const LOAD_SLACK: nat := 16
  const DEBUG_ENTRIES_INITIAL_CAPACITY: nat := 1024

  /** Every field a section names lies inside the code. */
  ghost predicate InBounds(chunk: Output) {
    && (forall k :: 0 <= k < |chunk.constants| ==> chunk.constants[k].index + 4 <= |chunk.code|)
    && (forall k :: 0 <= k < |chunk.relocs| ==> chunk.relocs[k] + 8 <= |chunk.code|)
  }

  /** The signed branch adds to the same bytes, wherever the chunk goes. */
  lemma {:induction false} SameShift(dest: u64, start: nat)
    ensures Unsigned(WrapSigned(Signed(dest) + Signed(Wrap64(start)))) == Wrap64(dest + start)
  {
    SignedRelocation(dest, Wrap64(start));
    WrapMod(start, dest);
  }

  lemma {:induction false} InBoundsAt(chunk: Output, start: nat)
    requires InBounds(chunk)
    ensures forall k :: 0 <= k < |chunk.constants| ==> start + chunk.constants[k].index + 4 <= start + |chunk.code|
    ensures forall k :: 0 <= k < |chunk.relocs| ==> start + chunk.relocs[k] + 8 <= start + |chunk.code|
  {
  }

  method Allocate<T>(n: nat, blank: T) returns (a: array<T>)
    ensures fresh(a) && a.Length == n && forall i :: 0 <= i < n ==> a[i] == blank
  {
    a := new T[n](_ => blank);
  }

  /** What loading changes in the virtual machine. */
  class Store {
    var program: array<byte>
    var programSize: nat
    var pool: array<Value>
    var nextConst: nat
    const symbols: Symbols.SymbolStore
    const table: Tables.ObjStruct<u64>
    var debug: array<DebugEntry>
    var debugSize: nat

    ghost predicate CodeValid()
      reads this
    {
      0 < program.Length && programSize <= program.Length
    }

    ghost predicate PoolValid()
      reads this
    {
      0 < pool.Length && nextConst <= pool.Length
    }

    /** There is always room for one more range. */
    ghost predicate DebugValid()
      reads this
    {
      debugSize < debug.Length
    }

    ghost predicate Valid()
      reads this, symbols, symbols.symbols, table
    {
      CodeValid() && PoolValid() && DebugValid() && symbols.Valid() && table.Valid()
    }

    /** The code loaded so far. */
    ghost function Code(): seq<byte>
      requires CodeValid()
      reads this, program
    {
      program[..programSize]
    }

    /** The constants loaded so far. */
    ghost function Pool(): seq<Value>
      requires PoolValid()
      reads this, pool
    {
      pool[..nextConst]
    }

    /** The debug ranges loaded so far. */
    ghost function Ranges(): seq<DebugEntry>
      requires DebugValid()
      reads this, debug
    {
      debug[..debugSize]
    }

    ghost function Contents(): Image
      requires Valid()
      reads this, program, pool, debug, symbols, symbols.symbols, table, table.heap
    {
      Image(Code(), Pool(), symbols.Names(), table.Pairs(), Ranges())
    }

    /** The objects a load may change. */
    ghost function Footprint(): set<object>
      reads this, symbols, table
    {
      {this, program, pool, debug, symbols, symbols.symbols, table, table.heap}
    }

    constructor ()
      ensures Valid() && Contents() == EMPTY_IMAGE
      ensures fresh(program) && fresh(pool) && fresh(debug)
      ensures fresh(symbols) && fresh(symbols.symbols) && fresh(table) && fresh(table.heap)
    {
      hide Symbols.SymbolStore.Valid, Symbols.SymbolStore.Names, Tables.ObjStruct.Pairs;
      var bytes := Allocate(PROGRAM_INITIAL_CAPACITY, 0 as byte);
      var values := Allocate(POOL_INITIAL_SIZE, Null);
      var ranges := Allocate(DEBUG_ENTRIES_INITIAL_CAPACITY, DebugEntry(0, 0, 0, "", 0));
      program, programSize := bytes, 0;
      pool, nextConst := values, 0;
      debug, debugSize := ranges, 0;
      symbols := new Symbols.SymbolStore();
      table := new Tables.ObjStruct(0);
    }

    method ExpandProgram()
      requires CodeValid()
      modifies this`program
      ensures CodeValid() && fresh(program) && program.Length == 2 * old(program.Length)
      ensures Code() == old(Code())
    {
      var bigger := Allocate(2 * program.Length, 0 as byte);
      forall i | 0 <= i < programSize {
        bigger[i] := program[i];
      }
      program := bigger;
    }

    method ExpandPool(id: nat)
      requires PoolValid()
      modifies this`pool
      ensures PoolValid() && (pool == old(pool) || fresh(pool)) && id < pool.Length
      ensures Pool() == old(Pool())
    {
      while id >= pool.Length
        invariant PoolValid() && (pool == old(pool) || fresh(pool))
        invariant Pool() == old(Pool())
        decreases id - pool.Length
      {
        var bigger := Allocate(2 * pool.Length, Null);
        forall i | 0 <= i < nextConst {
          bigger[i] := pool[i];
        }
        ghost var before := Pool();
        pool := bigger;
        assert Pool() == before;
      }
    }

    method AddConst(v: Value) returns (id: nat)
      requires PoolValid()
      modifies this`pool, this`nextConst, pool
      ensures PoolValid() && (pool == old(pool) || fresh(pool))
      ensures id == |old(Pool())| && Pool() == old(Pool()) + [v]
    {
      id := nextConst;
      ExpandPool(id);
      pool[id] := v;
      nextConst := nextConst + 1;
      assert Pool() == old(Pool()) + [v];
    }

    /** Writes over loaded bytes. */
    method WriteBytes(at: nat, bytes: seq<byte>)
      requires CodeValid() && at + |bytes| <= programSize
      modifies program
      ensures Code() == Poke(old(Code()), at, bytes)
    {
      forall i | 0 <= i < |bytes| {
        program[at + i] := bytes[i];
      }
    }

    /** Subroutine symbols go to the table under their interned names. */
    method AddSymbols(start: nat, defs: seq<SymbolDef>)
      requires Valid()
      modifies symbols, symbols.symbols, table, table.heap
      ensures Valid() && (symbols.symbols == old(symbols.symbols) || fresh(symbols.symbols))
      ensures table.heap == old(table.heap) || fresh(table.heap)
      ensures old(Contents()).(names := symbols.Names(), table := table.Pairs())
              == LoadSymbols(old(Contents()), start, defs, |defs|)
    {
      hide Tables.Insert, Symbols.Intern, Symbols.IdOf, Symbols.SymbolStore.Valid, Symbols.SymbolStore.Names,
          Tables.ObjStruct.Pairs;
      ghost var img := Contents();
      var k := 0;
      while k < |defs|
        invariant k <= |defs|
        invariant symbols.Valid() && (symbols.symbols == old(symbols.symbols) || fresh(symbols.symbols))
        invariant table.Valid() && (table.heap == old(table.heap) || fresh(table.heap))
        invariant img.(names := symbols.Names(), table := table.Pairs()) == LoadSymbols(img, start, defs, k)
      {
        var dest := Wrap64(start + defs[k].index);
        var id := symbols.Symbolicate(defs[k].name);
        table.Set(id, dest);
        k := k + 1;
      }
    }

    /** The pool object for a literal. */
    method ConstantObject(literal: Literal) returns (v: Value)
      requires symbols.Valid()
      modifies symbols, symbols.symbols
      ensures symbols.Valid() && (symbols.symbols == old(symbols.symbols) || fresh(symbols.symbols))
      ensures symbols.Names() == NamesAfter(old(symbols.Names()), literal)
      ensures v == ObjectFor(symbols.Names(), literal)
    {
      match literal
      case StringLit(text) => v := Str(text);
      case SymbolLit(text) =>
        var id := symbols.Symbolicate(text);
        v := Symbol(id);
      case IntegerLit(_) => v := Null;
    }

    /** Constants go to the pool, and their numbers into the code. */
    method AddConstants(start: nat, uses: seq<ConstantUse>)
      requires Valid() && forall k :: 0 <= k < |uses| ==> start + uses[k].index + 4 <= programSize
      modifies this`pool, this`nextConst, pool, program, symbols, symbols.symbols
      ensures Valid() && (symbols.symbols == old(symbols.symbols) || fresh(symbols.symbols))
      ensures pool == old(pool) || fresh(pool)
      ensures old(Contents()).(mem := Code(), pool := Pool(), names := symbols.Names())
              == LoadConstants(old(Contents()), start, uses, |uses|)
    {
      hide NamesAfter, ObjectFor, Poke, Little, Tables.ObjStruct.Pairs, Symbols.SymbolStore.Valid,
          Symbols.SymbolStore.Names;
      ghost var img := Contents();
      var k := 0;
      while k < |uses|
        invariant k <= |uses|
        invariant symbols.Valid() && (symbols.symbols == old(symbols.symbols) || fresh(symbols.symbols))
        invariant CodeValid() && PoolValid() && (pool == old(pool) || fresh(pool))
        invariant img.(mem := Code(), pool := Pool(), names := symbols.Names()) == LoadConstants(img, start, uses, k)
      {
        var v := ConstantObject(uses[k].literal);
        var id := AddConst(v);
        WriteBytes(start + uses[k].index, Little(4, id));
        k := k + 1;
      }
    }

    /** Shifts the address at `at`; the field of an integer literal is shifted with signs. */
    method Relocate(start: nat, at: nat)
      requires CodeValid() && at + 8 <= programSize
      modifies program
      ensures Code() == Poke(old(Code()), at, Little(8, Wrap64(ReadAt(old(Code()), at) + start)))
    {
      hide Poke, Little;
      var field := program[at..at + 8];
      assert field == Code()[at..at + 8];
      var dest := FromLittle(field);
      PowerFacts();
      if at >= 2 && program[at - 2] == LITINTEGER {
        var signed := WrapSigned(Signed(dest) + Signed(Wrap64(start)));
        SameShift(dest, start);
        WriteBytes(at, Little(8, Unsigned(signed)));
      } else {
        WriteBytes(at, Little(8, Wrap64(dest + start)));
      }
    }

    method AddRelocations(start: nat, relocs: seq<nat>)
      requires CodeValid() && forall k :: 0 <= k < |relocs| ==> start + relocs[k] + 8 <= programSize
      modifies program
      ensures Code() == LoadRelocations(old(Code()), start, relocs, |relocs|)
    {
      hide Poke, Little, ReadAt;
      var k := 0;
      while k < |relocs|
        invariant k <= |relocs|
        invariant Code() == LoadRelocations(old(Code()), start, relocs, k)
      {
        Relocate(start, start + relocs[k]);
        k := k + 1;
      }
    }

    method ExpandDebug()
      requires DebugValid()
      modifies this`debug
      ensures DebugValid() && fresh(debug) && debug.Length == 2 * old(debug.Length)
      ensures Ranges() == old(Ranges())
    {
      var bigger := Allocate(2 * debug.Length, DebugEntry(0, 0, 0, "", 0));
      forall i | 0 <= i < debugSize {
        bigger[i] := debug[i];
      }
      debug := bigger;
    }

    /** The array grows before its last slot is used. */
    method AddDebugEntry(start: nat, entry: DebugEntry)
      requires DebugValid()
      modifies this`debug, this`debugSize, debug
      ensures DebugValid() && (debug == old(debug) || fresh(debug))
      ensures Ranges() == old(Ranges()) + [ShiftEntry(entry, start)]
    {
      if debugSize >= debug.Length - 1 {
        ExpandDebug();
      }
      debug[debugSize] := entry;
      debug[debugSize] := debug[debugSize].(start := Wrap64(entry.start + start));
      debug[debugSize] := debug[debugSize].(end := Wrap64(entry.end + start));
      debugSize := debugSize + 1;
      assert Ranges() == old(Ranges()) + [ShiftEntry(entry, start)];
    }

    method AddDebugEntries(start: nat, entries: seq<DebugEntry>)
      requires DebugValid()
      modifies this`debug, this`debugSize, debug
      ensures DebugValid() && (debug == old(debug) || fresh(debug))
      ensures Ranges() == old(Ranges()) + ShiftEntries(entries, start)
    {
      hide ShiftEntry, ShiftEntries, Ranges;
      ghost var before, all := Ranges(), ShiftEntries(entries, start);
      assert before + all[..0] == before;
      var k := 0;
      while k < |entries|
        invariant k <= |entries| && DebugValid() && (debug == old(debug) || fresh(debug))
        invariant Ranges() == before + all[..k]
      {
        AddDebugEntry(start, entries[k]);
        assert before + all[..k] + [all[k]] == before + all[..k + 1];
        k := k + 1;
      }
      assert all[..|entries|] == all;
    }

    /** Room for the code and the slack behind it, then the code. */
    method AppendCode(code: seq<byte>)
      requires CodeValid()
      modifies this`program, this`programSize, program
      ensures CodeValid() && (program == old(program) || fresh(program))
      ensures programSize == old(programSize) + |code| && programSize + LOAD_SLACK <= program.Length
      ensures Code() == old(Code()) + code
    {
      while programSize + |code| + LOAD_SLACK > program.Length
        invariant CodeValid() && programSize == old(programSize) && (program == old(program) || fresh(program))
        invariant Code() == old(Code())
        decreases programSize + |code| + LOAD_SLACK - program.Length
      {
        ExpandProgram();
      }
      var start := programSize;
      assert program[..start] == old(Code());
      forall i | 0 <= i < |code| {
        program[start + i] := code[i];
      }
      programSize := programSize + |code|;
      assert program[..programSize] == old(Code()) + code;
    }

    /** Subroutine symbols, then constants, then addresses. */
    method AddSections(start: nat, chunk: Output)
      requires Valid() && InBounds(chunk) && start + |chunk.code| <= programSize
      modifies this`pool, this`nextConst, pool, program, symbols, symbols.symbols, table, table.heap
      ensures Valid() && (pool == old(pool) || fresh(pool))
      ensures symbols.symbols == old(symbols.symbols) || fresh(symbols.symbols)
      ensures table.heap == old(table.heap) || fresh(table.heap)
      ensures var a := LoadSymbols(old(Contents()), start, chunk.symbols, |chunk.symbols|);
        var b := LoadConstants(a, start, chunk.constants, |chunk.constants|);
        old(Contents()).(mem := Code(), pool := Pool(), names := symbols.Names(), table := table.Pairs())
        == b.(mem := LoadRelocations(b.mem, start, chunk.relocs, |chunk.relocs|))
    {
      hide LoadSymbols, LoadConstants, LoadRelocations, Tables.ObjStruct.Pairs, Symbols.SymbolStore.Valid,
          Symbols.SymbolStore.Names, InBounds;
      InBoundsAt(chunk, start);
      AddSymbols(start, chunk.symbols);
      AddConstants(start, chunk.constants);
      AddRelocations(start, chunk.relocs);
    }

    method LoadChunk(chunk: Output)
      requires Valid() && InBounds(chunk)
      modifies Footprint()
      ensures Valid() && fresh(Footprint() - old(Footprint()))
      ensures Contents() == Linking.LoadChunk(old(Contents()), chunk)
    {
      hide LoadSymbols, LoadConstants, LoadRelocations, ShiftEntries, Tables.ObjStruct.Pairs,
          Symbols.SymbolStore.Valid, Symbols.SymbolStore.Names, InBounds;
      var start := programSize;
      AppendCode(chunk.code);
      AddSections(start, chunk);
      AddDebugEntries(start, chunk.debug);
    }
  }
}
