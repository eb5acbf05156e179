/** Loading a chunk into the program memory, as a function, and what it leaves there.

`Loader.dfy` has the loaders themselves. */
module Linking {
  import opened Words
  import opened Isa
  import opened Symbolic
  import opened Assembly
  import opened Tables
  import opened Symbols
  import opened Machine

  /** What loading changes: program bytes, constant pool, interned names, subroutine table, debug entries. */
  datatype Image = Image(mem: seq<byte>, pool: seq<Value>, names: seq<string>, table: Table<u64>,
                         debug: seq<DebugEntry>)

  /** Nothing loaded. */
  const EMPTY_IMAGE := Image([], [], [], [], [])

  /** Names known after `literal` is made an object. */
  function NamesAfter(names: seq<string>, literal: Literal): seq<string> {
    match literal
    case SymbolLit(text) => Intern(names, text)
    case _ => names
  }

  /** The pool object for a literal; integers are not supported there and become null. */
  function ObjectFor(names: seq<string>, literal: Literal): Value {
    match literal
    case StringLit(text) => Str(text)
    case SymbolLit(text) => Symbol(IdOf(names, text))
    case IntegerLit(_) => Null
  }

  /** The first `k` subroutine symbols of a chunk loaded at `start`. */
  function LoadSymbols(img: Image, start: nat, symbols: seq<SymbolDef>, k: nat): Image
    requires k <= |symbols|
  {
    if k == 0 then img
    else
      var before := LoadSymbols(img, start, symbols, k - 1);
      var s := symbols[k - 1];
      var names := Intern(before.names, s.name);
      before.(names := names, table := Insert(before.table, Pair(IdOf(names, s.name), Wrap64(start + s.index))))
  }

  function LoadConstants(img: Image, start: nat, constants: seq<ConstantUse>, k: nat): Image
    requires k <= |constants|
  {
    if k == 0 then img
    else
      var before := LoadConstants(img, start, constants, k - 1);
      var c := constants[k - 1];
      var names := NamesAfter(before.names, c.literal);
      before.(mem := Poke(before.mem, start + c.index, Little(4, |before.pool|)),
              pool := before.pool + [ObjectFor(names, c.literal)],
              names := names)
  }

  /** The 8 bytes at `at`, read as a number; bytes past the end read as nothing. */
  function ReadAt(mem: seq<byte>, at: nat): nat {
    if at + 8 <= |mem| then FromLittle(mem[at..at + 8]) else 0
  }

  function LoadRelocations(mem: seq<byte>, start: nat, relocs: seq<nat>, k: nat): (r: seq<byte>)
    requires k <= |relocs|
    ensures |r| == |mem|
  {
    if k == 0 then mem
    else
      var before := LoadRelocations(mem, start, relocs, k - 1);
      var at := start + relocs[k - 1];
      Poke(before, at, Little(8, Wrap64(ReadAt(before, at) + start)))
  }

  function ShiftEntry(e: DebugEntry, start: nat): DebugEntry {
    e.(start := Wrap64(e.start + start), end := Wrap64(e.end + start))
  }

  function ShiftEntries(es: seq<DebugEntry>, start: nat): (r: seq<DebugEntry>)
    ensures |r| == |es|
    ensures forall i :: 0 <= i < |es| ==> r[i] == ShiftEntry(es[i], start)
  {
    seq(|es|, i requires 0 <= i < |es| => ShiftEntry(es[i], start))
  }

  function LoadChunk(img: Image, chunk: Output): Image {
    var start := |img.mem|;
    var a := LoadSymbols(img.(mem := img.mem + chunk.code), start, chunk.symbols, |chunk.symbols|);
    var b := LoadConstants(a, start, chunk.constants, |chunk.constants|);
    b.(mem := LoadRelocations(b.mem, start, chunk.relocs, |chunk.relocs|),
       debug := b.debug + ShiftEntries(chunk.debug, start))
  }

  /** The relocation branch for integer literals adds with signs; it stores the same bytes. */
  lemma {:induction false} SignedRelocation(u: u64, start: u64)
    ensures Unsigned(WrapSigned(Signed(u) + Signed(start))) == Wrap64(u + start)
  {
    var x := Signed(u) + Signed(start);
    assert x == u + start || x == u + start - TWO64 || x == u + start - 2 * TWO64;
    assert Wrap64(x) == Wrap64(u + start);
  }

  // ---------------------------------------------------------------- any chunk

  lemma {:induction false} SymbolsFrame(img: Image, start: nat, symbols: seq<SymbolDef>, k: nat)
    requires k <= |symbols|
    ensures var r := LoadSymbols(img, start, symbols, k);
      r.mem == img.mem && r.pool == img.pool && r.debug == img.debug && img.names <= r.names
  {
    hide Insert, Intern, IdOf;
    if k > 0 {
      SymbolsFrame(img, start, symbols, k - 1);
    }
  }

  lemma {:induction false} ConstantsFrame(img: Image, start: nat, constants: seq<ConstantUse>, k: nat)
    requires k <= |constants| && start <= |img.mem|
    ensures var r := LoadConstants(img, start, constants, k);
      && |r.mem| == |img.mem| && r.mem[..start] == img.mem[..start]
      && |r.pool| == |img.pool| + k && img.pool <= r.pool
      && img.names <= r.names && r.table == img.table && r.debug == img.debug
  {
    hide Little, ObjectFor;
    if k > 0 {
      ConstantsFrame(img, start, constants, k - 1);
    }
  }

  lemma {:induction false} RelocationsFrame(mem: seq<byte>, start: nat, relocs: seq<nat>, k: nat)
    requires k <= |relocs| && start <= |mem|
    ensures LoadRelocations(mem, start, relocs, k)[..start] == mem[..start]
  {
    if k > 0 {
      RelocationsFrame(mem, start, relocs, k - 1);
    }
  }

  /** A load leaves everything already loaded as it was: bytes, constants, interned names, debug entries. */
  lemma {:induction false} LoadFrame(img: Image, chunk: Output)
    ensures var r := LoadChunk(img, chunk);
      && |r.mem| == |img.mem| + |chunk.code| && img.mem <= r.mem
      && img.pool <= r.pool && |r.pool| == |img.pool| + |chunk.constants|
      && img.names <= r.names
      && r.debug == img.debug + ShiftEntries(chunk.debug, |img.mem|)
  {
    var start := |img.mem|;
    var img1 := img.(mem := img.mem + chunk.code);
    SymbolsFrame(img1, start, chunk.symbols, |chunk.symbols|);
    var a := LoadSymbols(img1, start, chunk.symbols, |chunk.symbols|);
    ConstantsFrame(a, start, chunk.constants, |chunk.constants|);
    var b := LoadConstants(a, start, chunk.constants, |chunk.constants|);
    RelocationsFrame(b.mem, start, chunk.relocs, |chunk.relocs|);
    assert img.mem == img1.mem[..start] == b.mem[..start];
  }

  function LoadAll(img: Image, chunks: seq<Output>): Image {
    if |chunks| == 0 then img else LoadChunk(LoadAll(img, chunks[..|chunks| - 1]), chunks[|chunks| - 1])
  }

  lemma {:induction false} NothingLater(img: Image)
    ensures LoadAll(img, []) == img
  {
  }

  /** The same over any later loads. */
  lemma {:induction false} LoadAllFrame(img: Image, chunks: seq<Output>)
    ensures var r := LoadAll(img, chunks);
      img.mem <= r.mem && img.pool <= r.pool && img.names <= r.names && img.debug <= r.debug
  {
    if |chunks| > 0 {
      LoadAllFrame(img, chunks[..|chunks| - 1]);
      LoadFrame(LoadAll(img, chunks[..|chunks| - 1]), chunks[|chunks| - 1]);
    }
  }

  // ---------------------------------------------------------------- a chunk that holds a program

  /** The number in the field of instruction `k` once the chunk is at `base` and its constants
  follow `pool` others. */
  function LoadedField(p: Program, k: nat, base: nat, pool: nat): nat
    requires k < |p|
  {
    match p[k].field
    case Raw(n) => n
    case Constant(_) => pool + FieldOf(p, k)
    case _ => Wrap64(FieldOf(p, k) + base)
  }

  function LoadedInstr(p: Program, k: nat, base: nat, pool: nat): Instr<nat>
    requires k < |p|
  {
    Lay(p, k).(field := LoadedField(p, k, base, pool))
  }

  function Loaded(p: Program, base: nat, pool: nat): (q: seq<Instr<nat>>)
    ensures |q| == |p|
    ensures forall k :: 0 <= k < |p| ==> q[k] == LoadedInstr(p, k, base, pool)
  {
    seq(|p|, k requires 0 <= k < |p| => LoadedInstr(p, k, base, pool))
  }

  /** The first `c` instructions have their constants in place and the first `r` their addresses. */
  ghost function PartLoaded(p: Program, base: nat, pool: nat, c: nat, r: nat): (q: seq<Instr<nat>>)
    ensures |q| == |p|
    ensures forall k :: 0 <= k < |p| ==>
              q[k] == if (p[k].field.Constant? && k < c) || (p[k].field.Relocated() && k < r)
                      then LoadedInstr(p, k, base, pool) else Lay(p, k)
  {
    seq(|p|, k requires 0 <= k < |p| =>
      if (p[k].field.Constant? && k < c) || (p[k].field.Relocated() && k < r)
      then LoadedInstr(p, k, base, pool) else Lay(p, k))
  }

  /** `mem` is `front` followed by the bytes of `q`. */
  ghost predicate Stored(mem: seq<byte>, front: seq<byte>, q: seq<Instr<nat>>) {
    front <= mem && Agrees(mem[|front|..], q, 0)
  }

  lemma {:induction false} StoredIsAssembled(mem: seq<byte>, front: seq<byte>, q: seq<Instr<nat>>)
    ensures Stored(mem, front, q) <==> mem == front + Assemble(q)
  {
    if front <= mem {
      assert mem == front + mem[|front|..];
      AgreesExactly(mem[|front|..], q);
    }
    if mem == front + Assemble(q) {
      assert mem[|front|..] == Assemble(q);
      AgreesExactly(mem[|front|..], q);
    }
  }

  /** Overwriting one field of stored code. */
  lemma {:induction false} PokeStored(mem: seq<byte>, front: seq<byte>, q: seq<Instr<nat>>, k: nat, v: nat, at: nat)
    requires Stored(mem, front, q) && k < |q| && at == Offset(q, k) + q[k].Layout().FieldAt()
    ensures Stored(Poke(mem, |front| + at, Little(q[k].width, v)), front, q[k := q[k].(field := v)])
  {
    var code, bytes := mem[|front|..], Little(q[k].width, v);
    var r := Poke(mem, |front| + at, bytes);
    AgreesPoke(code, q, k, q[k].(field := v), q[k].Layout().FieldAt(), bytes, 0);
    assert r[|front|..] == Poke(code, at, bytes);
  }

  lemma {:induction false} ReadStored(mem: seq<byte>, front: seq<byte>, q: seq<Instr<nat>>, k: nat, at: nat)
    requires Stored(mem, front, q) && k < |q| && q[k].width == 8
    requires at == Offset(q, k) + q[k].Layout().FieldAt()
    ensures ReadAt(mem, |front| + at) == q[k].field % TWO64
  {
    hide Encode, Offset, Little;
    var f := q[k].Layout().FieldAt();
    OffsetMonotone(q, k, |q|);
    EncodeParts(q[k]);
    forall b | 0 <= b < 8
      ensures mem[|front| + at..|front| + at + 8][b] == Little(8, q[k].field)[b]
    {
      assert ByteAgrees(mem[|front|..], q, k, f + b);
      assert Encode(q[k])[f + b] == Encode(q[k])[f..f + 8][b];
    }
    assert mem[|front| + at..|front| + at + 8] == Little(8, q[k].field);
    FromLittleOfLittle(8, q[k].field);
    PowerFacts();
  }

  lemma {:induction false} PartLoadedLayout(p: Program, base: nat, pool: nat, c: nat, r: nat, j: nat)
    requires j < |p|
    ensures var q := PartLoaded(p, base, pool, c, r);
      Offset(q, j) == Offset(p, j) && q[j].Layout() == p[j].Layout()
  {
    var q := PartLoaded(p, base, pool, c, r);
    forall k | 0 <= k < |p|
      ensures q[k].Size() == p[k].Size()
    {
    }
    OffsetCong(p, q, j);
  }

  lemma {:induction false} LoadConstantsSnoc(img: Image, start: nat, cs: seq<ConstantUse>, use: ConstantUse,
                                             before: seq<byte>, id: nat)
    requires start <= |img.mem| && before == LoadConstants(img, start, cs, |cs|).mem && id == |img.pool| + |cs|
    ensures LoadConstants(img, start, cs + [use], |cs + [use]|).mem == Poke(before, start + use.index, Little(4, id))
  {
    hide Poke, Little, ObjectFor, NamesAfter;
    LoadConstantsPrefix(img, start, cs, [use], |cs|);
    ConstantsFrame(img, start, cs, |cs|);
  }

  lemma {:induction false} PartLoadedConstant(p: Program, base: nat, pool: nat, j: nat)
    requires j < |p|
    ensures var q := PartLoaded(p, base, pool, j, 0);
      PartLoaded(p, base, pool, j + 1, 0)
        == if p[j].field.Constant? then q[j := q[j].(field := pool + Ordinal(p, j))] else q
  {
  }

  /** One constant further: the section and the program grow in step. */
  ghost predicate ConstantStage(x: Instr<Operand>, pool: nat, j: nat, cs: seq<ConstantUse>, cs': seq<ConstantUse>,
                                q: seq<Instr<nat>>, q': seq<Instr<nat>>)
  {
    && j < |q| && WellTypedField(x) && q[j].Layout() == x.Layout()
    && q' == (if x.field.Constant? then q[j := q[j].(field := pool + |cs|)] else q)
    && cs' == cs + ConstantOf(x, Offset(q, j))
  }

  lemma {:induction false} NumberOne(img: Image, front: seq<byte>, j: nat, cs: seq<ConstantUse>, use: ConstantUse,
                                     q: seq<Instr<nat>>)
    requires |front| <= |img.mem| && j < |q| && q[j].width == 4
    requires use.index == Offset(q, j) + q[j].Layout().FieldAt()
    requires Stored(LoadConstants(img, |front|, cs, |cs|).mem, front, q)
    ensures Stored(LoadConstants(img, |front|, cs + [use], |cs + [use]|).mem, front,
                   q[j := q[j].(field := |img.pool| + |cs|)])
  {
    hide Stored, Poke, Little, Offset;
    var before := LoadConstants(img, |front|, cs, |cs|).mem;
    LoadConstantsSnoc(img, |front|, cs, use, before, |img.pool| + |cs|);
    PokeStored(before, front, q, j, |img.pool| + |cs|, use.index);
  }

  lemma {:induction false} ConstantStep(img: Image, front: seq<byte>, x: Instr<Operand>, j: nat,
                                        cs: seq<ConstantUse>, cs': seq<ConstantUse>,
                                        q: seq<Instr<nat>>, q': seq<Instr<nat>>)
    requires |front| <= |img.mem| && ConstantStage(x, |img.pool|, j, cs, cs', q, q')
    requires Stored(LoadConstants(img, |front|, cs, |cs|).mem, front, q)
    ensures Stored(LoadConstants(img, |front|, cs', |cs'|).mem, front, q')
  {
    if x.field.Constant? {
      var use := ConstantUse(Offset(q, j) + x.Layout().FieldAt(), x.field.literal);
      assert cs' == cs + [use];
      NumberOne(img, front, j, cs, use, q);
    } else {
      assert cs + [] == cs;
    }
  }

  lemma {:induction false} ConstantsFold(img: Image, front: seq<byte>, p: Program, css: seq<seq<ConstantUse>>,
                                         qs: seq<seq<Instr<nat>>>, k: nat)
    requires k <= |p| && |css| == |qs| == |p| + 1 && |front| <= |img.mem|
    requires css[0] == [] && Stored(img.mem, front, qs[0])
    requires forall j :: 0 <= j < |p| ==> ConstantStage(p[j], |img.pool|, j, css[j], css[j + 1], qs[j], qs[j + 1])
    ensures Stored(LoadConstants(img, |front|, css[k], |css[k]|).mem, front, qs[k])
  {
    if k > 0 {
      ConstantsFold(img, front, p, css, qs, k - 1);
      assert ConstantStage(p[k - 1], |img.pool|, k - 1, css[k - 1], css[k - 1 + 1], qs[k - 1], qs[k - 1 + 1]);
      ConstantStep(img, front, p[k - 1], k - 1, css[k - 1], css[k], qs[k - 1], qs[k]);
    }
  }

  lemma {:induction false} ConstantStageHolds(p: Program, base: nat, pool: nat, j: nat)
    requires j < |p| && WellTyped(p)
    ensures ConstantStage(p[j], pool, j, Constants(p[..j]), Constants(p[..j + 1]),
                          PartLoaded(p, base, pool, j, 0), PartLoaded(p, base, pool, j + 1, 0))
  {
    ConstantPrefix(p, j);
    PartLoadedConstant(p, base, pool, j);
    PartLoadedLayout(p, base, pool, j, 0, j);
  }

  /** All constants in place. */
  lemma {:induction false} ConstantsLoaded(img: Image, front: seq<byte>, p: Program)
    requires WellTyped(p) && Stored(img.mem, front, LaidOut(p))
    ensures Stored(LoadConstants(img, |front|, Constants(p), |Constants(p)|).mem,
                   front, PartLoaded(p, |front|, |img.pool|, |p|, 0))
  {
    var n, base, pool := |p|, |front|, |img.pool|;
    var css := seq(n + 1, k requires 0 <= k <= n => Constants(p[..k]));
    var qs := seq(n + 1, k requires 0 <= k <= n => PartLoaded(p, base, pool, k, 0));
    forall j | 0 <= j < n
      ensures ConstantStage(p[j], pool, j, css[j], css[j + 1], qs[j], qs[j + 1])
    {
      ConstantStageHolds(p, base, pool, j);
    }
    assert PartLoaded(p, base, pool, 0, 0) == LaidOut(p);
    assert p[..n] == p;
    ConstantsFold(img, front, p, css, qs, n);
  }

  lemma {:induction false} ConstantPrefix(p: Program, j: nat)
    requires j < |p|
    ensures Constants(p[..j + 1]) == Constants(p[..j]) + ConstantOf(p[j], Offset(p, j))
    ensures Relocations(p[..j + 1]) == Relocations(p[..j]) + RelocationOf(p[j], Offset(p, j))
    ensures |Constants(p[..j])| == Ordinal(p, j)
  {
    assert p[..j + 1] == p[..j] + [p[j]];
    SectionsSnoc(p[..j], p[j]);
    OffsetCong(p[..j], p, j);
    assert p == p[..j] + p[j..];
    OrdinalPrefix(p[..j], p[j..], j);
  }

  lemma {:induction false} LoadConstantsPrefix(img: Image, start: nat, cs: seq<ConstantUse>,
      more: seq<ConstantUse>, k: nat)
    requires k <= |cs|
    ensures LoadConstants(img, start, cs + more, k) == LoadConstants(img, start, cs, k)
  {
    if k > 0 {
      LoadConstantsPrefix(img, start, cs, more, k - 1);
    }
  }

  lemma {:induction false} LoadRelocationsPrefix(mem: seq<byte>, start: nat, rs: seq<nat>, more: seq<nat>, k: nat)
    requires k <= |rs|
    ensures LoadRelocations(mem, start, rs + more, k) == LoadRelocations(mem, start, rs, k)
  {
    hide Poke, Little, ReadAt;
    if k > 0 {
      LoadRelocationsPrefix(mem, start, rs, more, k - 1);
    }
  }

  lemma {:induction false} LoadRelocationsSnoc(mem: seq<byte>, start: nat, rs: seq<nat>, at: nat,
      before: seq<byte>, v: u64)
    requires before == LoadRelocations(mem, start, rs, |rs|) && v == Wrap64(ReadAt(before, start + at) + start)
    ensures LoadRelocations(mem, start, rs + [at], |rs + [at]|) == Poke(before, start + at, Little(8, v))
  {
    hide Poke, Little, ReadAt;
    LoadRelocationsPrefix(mem, start, rs, [at], |rs|);
  }

  lemma {:induction false} PartLoadedAddress(p: Program, base: nat, pool: nat, j: nat)
    requires j < |p|
    ensures var q := PartLoaded(p, base, pool, |p|, j);
      PartLoaded(p, base, pool, |p|, j + 1)
        == if p[j].field.Relocated() then q[j := q[j].(field := Wrap64(q[j].field + base))] else q
  {
  }

  ghost predicate AddressStage(x: Instr<Operand>, base: nat, j: nat, rs: seq<nat>, rs': seq<nat>,
                               q: seq<Instr<nat>>, q': seq<Instr<nat>>)
  {
    && j < |q| && WellTypedField(x) && q[j].Layout() == x.Layout()
    && q' == (if x.field.Relocated() then q[j := q[j].(field := Wrap64(q[j].field + base))] else q)
    && rs' == rs + RelocationOf(x, Offset(q, j))
  }

  lemma {:induction false} RelocateOne(mem: seq<byte>, front: seq<byte>, j: nat, rs: seq<nat>, at: nat,
      q: seq<Instr<nat>>)
    requires j < |q| && q[j].width == 8 && at == Offset(q, j) + q[j].Layout().FieldAt()
    requires Stored(LoadRelocations(mem, |front|, rs, |rs|), front, q)
    ensures Stored(LoadRelocations(mem, |front|, rs + [at], |rs + [at]|), front,
                   q[j := q[j].(field := Wrap64(q[j].field + |front|))])
  {
    hide Stored, Poke, Little, ReadAt, Offset;
    var before, v := LoadRelocations(mem, |front|, rs, |rs|), Wrap64(q[j].field + |front|);
    ReadStored(before, front, q, j, at);
    WrapMod(q[j].field, |front|);
    LoadRelocationsSnoc(mem, |front|, rs, at, before, v);
    PokeStored(before, front, q, j, v, at);
  }

  lemma {:induction false} RelocationStep(mem: seq<byte>, front: seq<byte>, x: Instr<Operand>, j: nat,
                                          rs: seq<nat>, rs': seq<nat>, q: seq<Instr<nat>>, q': seq<Instr<nat>>)
    requires AddressStage(x, |front|, j, rs, rs', q, q')
    requires Stored(LoadRelocations(mem, |front|, rs, |rs|), front, q)
    ensures Stored(LoadRelocations(mem, |front|, rs', |rs'|), front, q')
  {
    if x.field.Relocated() {
      var at := Offset(q, j) + x.Layout().FieldAt();
      assert rs' == rs + [at];
      RelocateOne(mem, front, j, rs, at, q);
    } else {
      assert rs + [] == rs;
    }
  }

  lemma {:induction false} RelocationsFold(mem: seq<byte>, front: seq<byte>, p: Program, rss: seq<seq<nat>>,
                                           qs: seq<seq<Instr<nat>>>, k: nat)
    requires k <= |p| && |rss| == |qs| == |p| + 1
    requires rss[0] == [] && Stored(mem, front, qs[0])
    requires forall j :: 0 <= j < |p| ==> AddressStage(p[j], |front|, j, rss[j], rss[j + 1], qs[j], qs[j + 1])
    ensures Stored(LoadRelocations(mem, |front|, rss[k], |rss[k]|), front, qs[k])
  {
    if k > 0 {
      RelocationsFold(mem, front, p, rss, qs, k - 1);
      assert AddressStage(p[k - 1], |front|, k - 1, rss[k - 1], rss[k - 1 + 1], qs[k - 1], qs[k - 1 + 1]);
      RelocationStep(mem, front, p[k - 1], k - 1, rss[k - 1], rss[k], qs[k - 1], qs[k]);
    }
  }

  lemma {:induction false} AddressStageHolds(p: Program, base: nat, pool: nat, j: nat)
    requires j < |p| && WellTyped(p)
    ensures AddressStage(p[j], base, j, Relocations(p[..j]), Relocations(p[..j + 1]),
                         PartLoaded(p, base, pool, |p|, j), PartLoaded(p, base, pool, |p|, j + 1))
  {
    ConstantPrefix(p, j);
    PartLoadedAddress(p, base, pool, j);
    PartLoadedLayout(p, base, pool, |p|, j, j);
  }

  /** All addresses shifted, each exactly once. */
  lemma {:induction false} RelocationsLoaded(mem: seq<byte>, front: seq<byte>, p: Program, pool: nat)
    requires WellTyped(p) && Stored(mem, front, PartLoaded(p, |front|, pool, |p|, 0))
    ensures Stored(LoadRelocations(mem, |front|, Relocations(p), |Relocations(p)|),
                   front, PartLoaded(p, |front|, pool, |p|, |p|))
  {
    var n, base := |p|, |front|;
    var rss := seq(n + 1, k requires 0 <= k <= n => Relocations(p[..k]));
    var qs := seq(n + 1, k requires 0 <= k <= n => PartLoaded(p, base, pool, n, k));
    forall j | 0 <= j < n
      ensures AddressStage(p[j], base, j, rss[j], rss[j + 1], qs[j], qs[j + 1])
    {
      AddressStageHolds(p, base, pool, j);
    }
    assert p[..n] == p;
    RelocationsFold(mem, front, p, rss, qs, n);
  }

  /** Loading a program's chunk after `img` leaves the program there, with every address shifted
  by the chunk's base and every constant numbered in the pool. */
  lemma {:induction false} LoadProgram(img: Image, chunk: Output, p: Program)
    requires WellTyped(p) && chunk.code == Assemble(LaidOut(p))
    requires chunk.relocs == Relocations(p) && chunk.constants == Constants(p)
    ensures LoadChunk(img, chunk).mem == img.mem + Assemble(Loaded(p, |img.mem|, |img.pool|))
  {
    var start, pool, n := |img.mem|, |img.pool|, |p|;
    var a := LoadSymbols(img.(mem := img.mem + chunk.code), start, chunk.symbols, |chunk.symbols|);
    SymbolsFrame(img.(mem := img.mem + chunk.code), start, chunk.symbols, |chunk.symbols|);
    StoredIsAssembled(a.mem, img.mem, LaidOut(p));
    ConstantsLoaded(a, img.mem, p);
    var b := LoadConstants(a, start, chunk.constants, |chunk.constants|);
    RelocationsLoaded(b.mem, img.mem, p, pool);
    assert PartLoaded(p, start, pool, n, n) == Loaded(p, start, pool);
    StoredIsAssembled(LoadChunk(img, chunk).mem, img.mem, Loaded(p, start, pool));
  }
}
