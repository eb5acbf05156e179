/** Debug ranges: what the generator records, what the loader makes of it, and what a lookup finds. */
module Debugging {
  import opened Words
  import opened Isa
  import opened Symbolic
  import opened Assembly
  import opened Linking
  import opened Machine
  import opened Correctness

  predicate Flat(b: Block) { forall k :: 0 <= k < |b.lines| ==> !b.lines[k].Inner? }

  /** Bytes of the first `k` lines of a flat block. */
  function Position(b: Block, k: nat): nat
    requires k <= |b.lines|
  {
    if k == 0 then 0
    else Position(b, k - 1) + (if Emits(b.lines[k - 1]) then Lower(b.lines[k - 1], 0).Size() else 0)
  }

  /** The markers among the first `k` lines and where they are. */
  function Marks(b: Block, k: nat): seq<OpenMark>
    requires k <= |b.lines|
  {
    if k == 0 then []
    else
      match b.lines[k - 1]
      case Mark(line, entry, flags) => Marks(b, k - 1) + [OpenMark(Position(b, k - 1), line, entry, flags)]
      case _ => Marks(b, k - 1)
  }

  /** Where the range of marker `i` stops: at the next marker, or at `end`. */
  function Next(ms: seq<OpenMark>, i: nat, end: nat): nat
    requires i < |ms|
  {
    if i + 1 < |ms| then ms[i + 1].ip else end
  }

  function Range(m: OpenMark, next: nat): DebugEntry { DebugEntry(m.ip, Wrap64(next - 1), m.line, m.entry, m.flags) }

  /** The ranges of the first `n` markers. */
  function Ranges(ms: seq<OpenMark>, n: nat, end: nat): (r: seq<DebugEntry>)
    requires n <= |ms|
    ensures |r| == n && forall i :: 0 <= i < n ==> r[i] == Range(ms[i], Next(ms, i, end))
  {
    seq(n, i requires 0 <= i < n => Range(ms[i], Next(ms, i, end)))
  }

  // ---------------------------------------------------------------- what the generator records

  /** The state after some lines: all markers but the last have been closed. */
  ghost predicate MarksRecorded(p: Pass, ms: seq<OpenMark>, at: nat) {
    && |p.out.code| == at
    && p.mark == (if |ms| == 0 then None else Some(ms[|ms| - 1]))
    && p.out.debug == Ranges(ms, if |ms| == 0 then 0 else |ms| - 1, 0)
  }

  lemma {:induction false} RangesSnoc(ms: seq<OpenMark>, m: OpenMark)
    requires |ms| > 0
    ensures Ranges(ms + [m], |ms|, 0) == Ranges(ms, |ms| - 1, 0) + [Range(ms[|ms| - 1], m.ip)]
  {
  }

  lemma {:induction false} EmitMarks(p: Pass, l: Line)
    requires Emits(l)
    ensures EmitLine(p, l).mark == p.mark && EmitLine(p, l).out.debug == p.out.debug
    ensures |EmitLine(p, l).out.code| == |p.out.code| + Lower(l, 0).Size()
  {
    hide Encode;
  }

  lemma {:induction false} MarkStep(p: Pass, l: Line, ms: seq<OpenMark>, at: nat)
    requires MarksRecorded(p, ms, at) && l.Mark?
    ensures MarksRecorded(GenLine(p, l), ms + [OpenMark(at, l.line, l.entry, l.flags)], at)
  {
    if |ms| > 0 {
      RangesSnoc(ms, OpenMark(at, l.line, l.entry, l.flags));
    }
  }

  lemma {:induction false} LinesMarks(b: Block, k: nat)
    requires Flat(b) && k <= |b.lines|
    ensures MarksRecorded(GenLines(Pass(EMPTY_OUTPUT, map[], [], None), b, k), Marks(b, k), Position(b, k))
    decreases k
  {
    hide EmitLine;
    if k > 0 {
      LinesMarks(b, k - 1);
      var p := GenLines(Pass(EMPTY_OUTPUT, map[], [], None), b, k - 1);
      if b.lines[k - 1].Mark? {
        MarkStep(p, b.lines[k - 1], Marks(b, k - 1), Position(b, k - 1));
      } else if Emits(b.lines[k - 1]) {
        EmitMarks(p, b.lines[k - 1]);
      }
    }
  }

  /** The ranges of a flat block run from each marker to just before the next, the last one to the
  end of the code. */
  lemma {:induction false} DebugOfBlock(b: Block)
    requires Flat(b)
    ensures var out, ms := GenBlock(EMPTY_OUTPUT, b), Marks(b, |b.lines|);
      |out.code| == Position(b, |b.lines|) && out.debug == Ranges(ms, |ms|, |out.code|)
  {
    hide GenLines, Backpatch;
    var n := |b.lines|;
    LinesMarks(b, n);
    var p := GenLines(Pass(EMPTY_OUTPUT, map[], [], None), b, n);
    var ms := Marks(b, n);
    if |ms| > 0 {
      assert Ranges(ms, |ms|, |p.out.code|) == Ranges(ms, |ms| - 1, 0) + [Range(ms[|ms| - 1], |p.out.code|)];
    }
  }

  lemma {:induction false} MarksAscend(b: Block, k: nat)
    requires k <= |b.lines|
    ensures forall i, j :: 0 <= i <= j < |Marks(b, k)| ==> Marks(b, k)[i].ip <= Marks(b, k)[j].ip
    ensures forall i :: 0 <= i < |Marks(b, k)| ==> Marks(b, k)[i].ip <= Position(b, k)
  {
    if k > 0 {
      MarksAscend(b, k - 1);
    }
  }

  // ---------------------------------------------------------------- lookup

  predicate Covers(e: DebugEntry, ip: nat) { e.start <= ip <= e.end }

  /** The ranges in the order of their markers, each with its marker's line, entry and flags. */
  lemma {:induction false} EntryOfMark(b: Block, k: nat)
    requires Flat(b) && k < |b.lines| && b.lines[k].Mark?
    ensures var i, debug := |Marks(b, k)|, GenBlock(EMPTY_OUTPUT, b).debug;
      && i < |debug| && debug[i].start == Position(b, k)
      && debug[i].line == b.lines[k].line && debug[i].entry == b.lines[k].entry && debug[i].flags == b.lines[k].flags
  {
    hide GenBlock, Position;
    DebugOfBlock(b);
    MarksGrow(b, k + 1, |b.lines|);
    assert Marks(b, k + 1)[|Marks(b, k)|] == Marks(b, |b.lines|)[|Marks(b, k)|];
  }

  lemma {:induction false} MarksGrow(b: Block, j: nat, k: nat)
    requires j <= k <= |b.lines|
    ensures Marks(b, j) <= Marks(b, k)
  {
    hide Position;
    if j < k {
      MarksGrow(b, j, k - 1);
    }
  }

  /** The first range that covers `ip`. */
  function FindIndex(es: seq<DebugEntry>, ip: nat): (r: Option<nat>)
    ensures r.Some? ==> r.value < |es|
  {
    if |es| == 0 then None
    else if Covers(es[0], ip) then Some(0)
    else
      match FindIndex(es[1..], ip)
      case None => None
      case Some(i) => Some(i + 1)
  }

  lemma {:induction false} FindIs(es: seq<DebugEntry>, ip: nat, i: nat)
    requires i < |es| && Covers(es[i], ip) && forall j :: 0 <= j < i ==> !Covers(es[j], ip)
    ensures FindIndex(es, ip) == Some(i)
  {
    if i > 0 {
      FindIs(es[1..], ip, i - 1);
    }
  }

  /** What is found covers the address, from its start to its end, and no earlier range does; nothing is found if
  none does. */
  lemma {:induction false} FoundCovers(es: seq<DebugEntry>, ip: nat)
    ensures match FindIndex(es, ip)
            case None => forall j :: 0 <= j < |es| ==> !(es[j].start <= ip <= es[j].end)
            case Some(i) =>
              es[i].start <= ip <= es[i].end && forall j :: 0 <= j < i ==> !(es[j].start <= ip <= es[j].end)
  {
    if |es| > 0 && !Covers(es[0], ip) {
      FoundCovers(es[1..], ip);
      assert forall j :: 0 < j < |es| ==> es[j] == es[1..][j - 1];
    }
  }

  method FindDebugEntry(es: seq<DebugEntry>, ip: nat) returns (r: Option<nat>)
    ensures r == FindIndex(es, ip)
  {
    var i := 0;
    while i < |es|
      invariant i <= |es|
      invariant FindIndex(es, ip) == match FindIndex(es[i..], ip) case None => None case Some(j) => Some(i + j)
    {
      if Covers(es[i], ip) {
        return Some(i);
      }
      assert es[i..][1..] == es[i + 1..];
      i := i + 1;
    }
    return None;
  }

  /** The range of marker `i`, loaded at `base`, covers the bytes from the marker to the next. The
  one exception: an empty range at offset 0 of a chunk loaded at address 0 covers everything. */
  lemma {:induction false} ShiftedCovers(m: OpenMark, next: nat, base: nat, o: nat)
    requires m.ip <= next && base + next < TWO64 && base + o < TWO64
    ensures Covers(ShiftEntry(Range(m, next), base), base + o)
            <==> m.ip <= o < next || (base == 0 && next == 0)
  {
    var e := Range(m, next);
    QuotientUnique(m.ip + base, TWO64, 0, m.ip + base);
    if next > 0 {
      QuotientUnique(next - 1, TWO64, 0, next - 1);
      QuotientUnique(next - 1 + base, TWO64, 0, next - 1 + base);
    } else {
      assert e.end == TWO64 - 1;
      if base > 0 {
        QuotientUnique(TWO64 - 1 + base, TWO64, 1, base - 1);
      }
    }
  }

  /** Marker `i` is the last one at or before offset `o`. */
  predicate IsLast(ms: seq<OpenMark>, i: nat, o: nat) {
    i < |ms| && ms[i].ip <= o && (i + 1 < |ms| ==> o < ms[i + 1].ip)
  }

  /** An empty range at offset 0, loaded at address 0. */
  predicate SwallowsAll(ms: seq<OpenMark>, base: nat) { base == 0 && |ms| >= 2 && ms[1].ip == 0 }

  lemma {:induction false} FindAt(before: seq<DebugEntry>, mine: seq<DebugEntry>, after: seq<DebugEntry>,
      ip: nat, k: nat)
    requires k < |mine| && Covers(mine[k], ip)
    requires forall j :: 0 <= j < |before| ==> !Covers(before[j], ip)
    requires forall j :: 0 <= j < k ==> !Covers(mine[j], ip)
    ensures FindIndex(before + mine + after, ip) == Some(|before| + k)
  {
    hide Covers, FindIndex;
    var es := before + mine + after;
    forall j | 0 <= j < |before| + k
      ensures !Covers(es[j], ip)
    {
      assert es[j] == if j < |before| then before[j] else mine[j - |before|];
    }
    assert es[|before| + k] == mine[k];
    FindIs(es, ip, |before| + k);
  }

  /** Markers in order, none past `end`. */
  ghost predicate InOrder(ms: seq<OpenMark>, end: nat) {
    && (forall i, j :: 0 <= i <= j < |ms| ==> ms[i].ip <= ms[j].ip)
    && (forall i :: 0 <= i < |ms| ==> ms[i].ip <= end)
  }

  /** Of the ranges before the last marker's none covers the address; its own does. */
  lemma {:induction false} OnlyLastCovers(ms: seq<OpenMark>, end: nat, base: nat, o: nat, i: nat, j: nat)
    requires InOrder(ms, end) && base + end < TWO64 && o < end && IsLast(ms, i, o) && j <= i
    requires !SwallowsAll(ms, base)
    ensures Covers(ShiftEntry(Range(ms[j], Next(ms, j, end)), base), base + o) <==> j == i
  {
    hide Covers;
    ShiftedCovers(ms[j], Next(ms, j, end), base, o);
    if j < i {
      assert ms[j + 1].ip <= ms[i].ip && ms[1].ip <= ms[j + 1].ip;
    }
  }

  /** In any list that has the block's ranges after others that do not cover the address, a lookup
  finds the last marker at or before it, unless the chunk's first range swallows everything. */
  lemma {:induction false} LookupFindsLastMarker(ms: seq<OpenMark>, end: nat, base: nat, before: seq<DebugEntry>,
                                                 after: seq<DebugEntry>, o: nat, i: nat)
    requires InOrder(ms, end) && base + end < TWO64 && o < end && IsLast(ms, i, o)
    requires forall j :: 0 <= j < |before| ==> !Covers(before[j], base + o)
    ensures FindIndex(before + ShiftEntries(Ranges(ms, |ms|, end), base) + after, base + o) == Some(|before| + i)
            <==> !SwallowsAll(ms, base)
  {
    hide FindIndex, Covers, Range, ShiftEntry;
    var mine := ShiftEntries(Ranges(ms, |ms|, end), base);
    if SwallowsAll(ms, base) {
      ShiftedCovers(ms[0], Next(ms, 0, end), base, o);
      assert mine[0] == ShiftEntry(Range(ms[0], Next(ms, 0, end)), base);
      FindAt(before, mine, after, base + o, 0);
      assert i > 0;
    } else {
      OwnRanges(ms, end, base, o, i);
      FindAt(before, mine, after, base + o, i);
    }
  }

  lemma {:induction false} OwnRanges(ms: seq<OpenMark>, end: nat, base: nat, o: nat, i: nat)
    requires InOrder(ms, end) && base + end < TWO64 && o < end && IsLast(ms, i, o) && !SwallowsAll(ms, base)
    ensures forall j :: 0 <= j <= i ==> (Covers(ShiftEntries(Ranges(ms, |ms|, end), base)[j], base + o) <==> j == i)
  {
    hide Covers, Range, ShiftEntry;
    forall j | 0 <= j <= i
      ensures Covers(ShiftEntries(Ranges(ms, |ms|, end), base)[j], base + o) <==> j == i
    {
      OnlyLastCovers(ms, end, base, o, i, j);
    }
  }

  /** Every range of the image lies inside the code, or is empty. */
  ghost predicate Inside(img: Image) {
    forall j :: 0 <= j < |img.debug| ==> img.debug[j].start > img.debug[j].end || img.debug[j].end < |img.mem|
  }

  /** No range of the chunk is empty at offset 0 and loaded at address 0. */
  ghost predicate NoneSwallows(ms: seq<OpenMark>, end: nat, base: nat) {
    base > 0 || forall j :: 0 <= j < |ms| ==> Next(ms, j, end) > 0
  }

  lemma {:induction false} RangesInside(ms: seq<OpenMark>, end: nat, base: nat, j: nat)
    requires InOrder(ms, end) && base + end < TWO64 && NoneSwallows(ms, end, base) && j < |ms|
    ensures var e := ShiftEntries(Ranges(ms, |ms|, end), base)[j]; e.start > e.end || e.end < base + end
  {
    ShiftedInside(ms[j], Next(ms, j, end), base, end);
  }

  /** Loading a flat block's chunk keeps all ranges inside the code, unless one swallows everything. */
  lemma {:induction false} LoadKeepsInside(img: Image, b: Block)
    requires Inside(img) && Flat(b) && |img.mem| + Position(b, |b.lines|) < TWO64
    requires NoneSwallows(Marks(b, |b.lines|), Position(b, |b.lines|), |img.mem|)
    ensures Inside(LoadChunk(img, GenBlock(EMPTY_OUTPUT, b)))
  {
    hide GenBlock, LoadChunk, Marks, Position, Ranges, ShiftEntries, NoneSwallows;
    var ms, end, base := Marks(b, |b.lines|), Position(b, |b.lines|), |img.mem|;
    DebugOfBlock(b);
    MarksAscend(b, |b.lines|);
    LoadFrame(img, GenBlock(EMPTY_OUTPUT, b));
    var mine := ShiftEntries(Ranges(ms, |ms|, end), base);
    forall j | 0 <= j < |mine|
      ensures mine[j].start > mine[j].end || mine[j].end < base + end
    {
      RangesInside(ms, end, base, j);
    }
  }

  lemma {:induction false} ShiftedInside(m: OpenMark, next: nat, base: nat, end: nat)
    requires m.ip <= next <= end && base + end < TWO64 && (base > 0 || next > 0)
    ensures var e := ShiftEntry(Range(m, next), base); e.start > e.end || e.end < base + end
  {
    QuotientUnique(m.ip + base, TWO64, 0, m.ip + base);
    if next > 0 {
      QuotientUnique(next - 1, TWO64, 0, next - 1);
      QuotientUnique(next - 1 + base, TWO64, 0, next - 1 + base);
    } else {
      QuotientUnique(TWO64 - 1 + base, TWO64, 1, base - 1);
    }
  }

  // ---------------------------------------------------------------- whole link histories

  /** The address where flat block `n` is loaded when the blocks are loaded in a row from address 0. */
  function BaseAt(blocks: seq<Block>, n: nat): nat
    requires n <= |blocks|
  {
    if n == 0 then 0 else BaseAt(blocks, n - 1) + Position(blocks[n - 1], |blocks[n - 1].lines|)
  }

  /** How many markers the first `n` blocks have. */
  function MarksBefore(blocks: seq<Block>, n: nat): nat
    requires n <= |blocks|
  {
    if n == 0 then 0 else MarksBefore(blocks, n - 1) + |Marks(blocks[n - 1], |blocks[n - 1].lines|)|
  }

  /** The loaded ranges of block `n`. */
  function EntriesOf(blocks: seq<Block>, n: nat): (r: seq<DebugEntry>)
    requires n < |blocks|
    ensures |r| == |Marks(blocks[n], |blocks[n].lines|)|
  {
    var ms := Marks(blocks[n], |blocks[n].lines|);
    ShiftEntries(Ranges(ms, |ms|, Position(blocks[n], |blocks[n].lines|)), BaseAt(blocks, n))
  }

  function Entries(blocks: seq<Block>, n: nat): (r: seq<DebugEntry>)
    requires n <= |blocks|
    ensures |r| == MarksBefore(blocks, n)
  {
    if n == 0 then [] else Entries(blocks, n - 1) + EntriesOf(blocks, n - 1)
  }

  /** No range of block `m` is empty at address 0. */
  ghost predicate Harmless(blocks: seq<Block>, m: nat)
    requires m < |blocks|
  {
    NoneSwallows(Marks(blocks[m], |blocks[m].lines|), Position(blocks[m], |blocks[m].lines|), BaseAt(blocks, m))
  }

  lemma {:induction false} HistoryEntries(blocks: seq<Block>, n: nat)
    requires n <= |blocks| && forall m :: 0 <= m < |blocks| ==> Flat(blocks[m])
    ensures var img := ImageAt(EMPTY_IMAGE, blocks, n);
      |img.mem| == BaseAt(blocks, n) && img.debug == Entries(blocks, n)
  {
    hide GenBlock, LoadChunk, Marks, Position, Ranges, Flat;
    if n > 0 {
      HistoryEntries(blocks, n - 1);
      DebugOfBlock(blocks[n - 1]);
      LoadFrame(ImageAt(EMPTY_IMAGE, blocks, n - 1), GenBlock(EMPTY_OUTPUT, blocks[n - 1]));
    }
  }

  lemma {:induction false} BaseMonotone(blocks: seq<Block>, m: nat, n: nat)
    requires m <= n <= |blocks|
    ensures BaseAt(blocks, m) <= BaseAt(blocks, n)
  {
    if m < n {
      BaseMonotone(blocks, m, n - 1);
    }
  }

  /** A range of an earlier block covers an address behind that block only if it is empty at address 0. */
  lemma {:induction false} EarlierCovers(blocks: seq<Block>, m: nat, j: nat, ip: u64)
    requires m < |blocks| && BaseAt(blocks, m + 1) <= ip && j < |Marks(blocks[m], |blocks[m].lines|)|
    ensures var ms, end := Marks(blocks[m], |blocks[m].lines|), Position(blocks[m], |blocks[m].lines|);
      Covers(EntriesOf(blocks, m)[j], ip) <==> BaseAt(blocks, m) == 0 && Next(ms, j, end) == 0
  {
    hide Marks, Position, Covers;
    var ms, end, base := Marks(blocks[m], |blocks[m].lines|), Position(blocks[m], |blocks[m].lines|), BaseAt(blocks, m);
    MarksInOrder(blocks[m]);
    assert j + 1 < |ms| ==> ms[j].ip <= ms[j + 1].ip;
    ShiftedCovers(ms[j], Next(ms, j, end), base, ip - base);
  }

  lemma {:induction false} BlockCovers(blocks: seq<Block>, m: nat, ip: u64)
    requires m < |blocks| && BaseAt(blocks, m + 1) <= ip
    ensures (forall j :: 0 <= j < |EntriesOf(blocks, m)| ==> !Covers(EntriesOf(blocks, m)[j], ip))
            <==> Harmless(blocks, m)
  {
    hide Marks, Position, Covers, EntriesOf, BaseAt;
    var ms, end := Marks(blocks[m], |blocks[m].lines|), Position(blocks[m], |blocks[m].lines|);
    forall j | 0 <= j < |ms|
      ensures Covers(EntriesOf(blocks, m)[j], ip) <==> BaseAt(blocks, m) == 0 && Next(ms, j, end) == 0
    {
      EarlierCovers(blocks, m, j, ip);
    }
    if !Harmless(blocks, m) {
      var j :| 0 <= j < |ms| && Next(ms, j, end) == 0;
      assert Covers(EntriesOf(blocks, m)[j], ip);
    }
  }

  lemma {:induction false} CoversEither(a: seq<DebugEntry>, b: seq<DebugEntry>, ip: nat)
    ensures (forall j :: 0 <= j < |a + b| ==> !Covers((a + b)[j], ip))
            <==> (forall j :: 0 <= j < |a| ==> !Covers(a[j], ip)) && (forall j :: 0 <= j < |b| ==> !Covers(b[j], ip))
  {
    hide Covers;
    assert forall j :: 0 <= j < |a| ==> (a + b)[j] == a[j];
    assert forall j :: 0 <= j < |b| ==> (a + b)[|a| + j] == b[j];
  }

  lemma {:induction false} HistoryCovers(blocks: seq<Block>, n: nat, ip: u64)
    requires n <= |blocks| && BaseAt(blocks, n) <= ip
    ensures (forall j :: 0 <= j < |Entries(blocks, n)| ==> !Covers(Entries(blocks, n)[j], ip))
            <==> (forall m :: 0 <= m < n ==> Harmless(blocks, m))
  {
    hide Covers, EntriesOf, Harmless, MarksBefore, Position, Marks;
    if n > 0 {
      HistoryCovers(blocks, n - 1, ip);
      BlockCovers(blocks, n - 1, ip);
      var a, b := Entries(blocks, n - 1), EntriesOf(blocks, n - 1);
      CoversEither(a, b, ip);
      assert Entries(blocks, n) == a + b;
      assert (forall m :: 0 <= m < n ==> Harmless(blocks, m))
             <==> (forall m :: 0 <= m < n - 1 ==> Harmless(blocks, m)) && Harmless(blocks, n - 1);
    }
  }

  lemma {:induction false} FindEarly(es: seq<DebugEntry>, ip: nat, j: nat)
    requires j < |es| && Covers(es[j], ip)
    ensures FindIndex(es, ip).Some? && FindIndex(es, ip).value <= j
  {
    if j > 0 {
      FindEarly(es[1..], ip, j - 1);
    }
  }

  /** Within a block that has code, an empty range at address 0 is one before the second marker. */
  lemma {:induction false} HarmlessIffNot(ms: seq<OpenMark>, end: nat, base: nat)
    requires InOrder(ms, end) && end > 0
    ensures NoneSwallows(ms, end, base) <==> !SwallowsAll(ms, base)
  {
    if SwallowsAll(ms, base) {
      assert Next(ms, 0, end) == 0;
    }
  }

  /** Over whole link histories from the empty image, and whatever is loaded later: for an instruction byte
  of flat block `n` with a marker at or before it, the lookup finds the last such marker if and only if no
  block up to this one has a range that is empty at address 0. */
  lemma {:induction false} LinkedLookup(blocks: seq<Block>, n: nat, later: seq<Output>, o: nat, i: nat)
    requires n < |blocks| && (forall m :: 0 <= m < |blocks| ==> Flat(blocks[m])) && BaseAt(blocks, n + 1) < TWO64
    requires o < Position(blocks[n], |blocks[n].lines|) && IsLast(Marks(blocks[n], |blocks[n].lines|), i, o)
    ensures FindIndex(LoadAll(ImageAt(EMPTY_IMAGE, blocks, n + 1), later).debug, BaseAt(blocks, n) + o)
            == Some(MarksBefore(blocks, n) + i)
            <==> (forall m :: 0 <= m <= n ==> Harmless(blocks, m))
  {
    hide GenBlock, ImageAt, LoadAll, Marks, Position, FindIndex, SwallowsAll, Covers, Ranges, ShiftEntries, IsLast,
        InOrder, NoneSwallows, Entries, MarksBefore;
    var ms, end, base := Marks(blocks[n], |blocks[n].lines|), Position(blocks[n], |blocks[n].lines|), BaseAt(blocks, n);
    var before := Entries(blocks, n);
    var own, all := Entries(blocks, n + 1), LoadAll(ImageAt(EMPTY_IMAGE, blocks, n + 1), later).debug;
    HistoryEntries(blocks, n + 1);
    LoadAllFrame(ImageAt(EMPTY_IMAGE, blocks, n + 1), later);
    Remainder(own, all);
    EntriesStep(blocks, n);
    MarksInOrder(blocks[n]);
    HarmlessIffNot(ms, end, base);
    HistoryCovers(blocks, n, base + o);
    assert Harmless(blocks, n) <==> !SwallowsAll(ms, base);
    if forall m :: 0 <= m < n ==> Harmless(blocks, m) {
      LookupFindsLastMarker(ms, end, base, before, all[|own|..], o, i);
    } else {
      var j :| 0 <= j < |before| && Covers(before[j], base + o);
      assert all[j] == before[j];
      FindEarly(all, base + o, j);
    }
  }

  lemma {:induction false} EntriesStep(blocks: seq<Block>, n: nat)
    requires n < |blocks|
    ensures var ms := Marks(blocks[n], |blocks[n].lines|);
      Entries(blocks, n + 1)
      == Entries(blocks, n) + ShiftEntries(Ranges(ms, |ms|, Position(blocks[n], |blocks[n].lines|)), BaseAt(blocks, n))
  {
  }

  lemma {:induction false} Remainder<T>(s: seq<T>, t: seq<T>)
    requires s <= t
    ensures t == s + t[|s|..]
  {
  }

  lemma {:induction false} MarksInOrder(b: Block)
    ensures InOrder(Marks(b, |b.lines|), Position(b, |b.lines|))
  {
    MarksAscend(b, |b.lines|);
  }

  // ---------------------------------------------------------------- backtraces

  datatype Location = Location(frame: nat, entry: Option<DebugEntry>)

  const HIDE_BACKTRACE: byte := 0x80

  /** The flag is the top bit. */
  predicate Hidden(e: DebugEntry) { e.flags >= HIDE_BACKTRACE }

  /** The location of one frame; none when its range is hidden. */
  function LocationOf(es: seq<DebugEntry>, frames: seq<Frame>, i: nat): seq<Location>
    requires i < |frames|
  {
    match FindIndex(es, frames[i].current)
    case None => [Location(i, None)]
    case Some(k) => if Hidden(es[k]) then [] else [Location(i, Some(es[k]))]
  }

  /** The locations of the frames from `i` down. */
  function Backtrace(es: seq<DebugEntry>, frames: seq<Frame>, i: nat): seq<Location>
    requires i < |frames|
  {
    if i == 0 then LocationOf(es, frames, 0) else LocationOf(es, frames, i) + Backtrace(es, frames, i - 1)
  }

  method BuildBacktrace(es: seq<DebugEntry>, frames: seq<Frame>) returns (r: seq<Location>)
    requires |frames| > 0
    ensures r == Backtrace(es, frames, |frames| - 1)
  {
    hide FindIndex, Hidden;
    r := [];
    var i: nat := |frames| - 1;
    while i > 0
      invariant i < |frames|
      invariant r + Backtrace(es, frames, i) == Backtrace(es, frames, |frames| - 1)
    {
      var here := LocateFrame(es, frames, i);
      r := r + here;
      i := i - 1;
    }
    var here := LocateFrame(es, frames, 0);
    r := r + here;
  }

  /** One frame's location, unless hidden. */
  method LocateFrame(es: seq<DebugEntry>, frames: seq<Frame>, i: nat) returns (r: seq<Location>)
    requires i < |frames|
    ensures r == LocationOf(es, frames, i)
  {
    hide FindIndex;
    var entry := FindDebugEntry(es, frames[i].current);
    if entry.None? {
      return [Location(i, None)];
    }
    return if Hidden(es[entry.value]) then [] else [Location(i, Some(es[entry.value]))];
  }

  lemma {:induction false} LocationShape(es: seq<DebugEntry>, frames: seq<Frame>, i: nat)
    requires i < |frames|
    ensures var l := LocationOf(es, frames, i); l == [] || (|l| == 1 && l[0].frame == i)
  {
    hide FindIndex;
  }

  /** The locations of `r` are those of the frames from `i` down that have one, topmost first. */
  ghost predicate Lists(es: seq<DebugEntry>, frames: seq<Frame>, i: nat, r: seq<Location>)
    requires i < |frames|
  {
    && (forall a, b :: 0 <= a < b < |r| ==> r[b].frame < r[a].frame)
    && (forall a :: 0 <= a < |r| ==> r[a].frame <= i && LocationOf(es, frames, r[a].frame) == [r[a]])
    && (forall k :: 0 <= k <= i && LocationOf(es, frames, k) != [] ==> exists a :: 0 <= a < |r| && r[a].frame == k)
  }

  lemma {:induction false} ListsStep(es: seq<DebugEntry>, frames: seq<Frame>, i: nat, rest: seq<Location>)
    requires 0 < i < |frames| && Lists(es, frames, i - 1, rest)
    ensures Lists(es, frames, i, LocationOf(es, frames, i) + rest)
  {
    hide LocationOf;
    LocationShape(es, frames, i);
    var head := LocationOf(es, frames, i);
    if head == [] {
      assert head + rest == rest;
    } else {
      ListsMore(es, frames, i, head[0], rest);
      assert head == [head[0]];
    }
  }

  lemma {:induction false} ListsMore(es: seq<DebugEntry>, frames: seq<Frame>, i: nat, here: Location,
      rest: seq<Location>)
    requires 0 < i < |frames| && Lists(es, frames, i - 1, rest)
    requires LocationOf(es, frames, i) == [here] && here.frame == i
    ensures Lists(es, frames, i, [here] + rest)
  {
    hide LocationOf;
    var r := [here] + rest;
    forall k | 0 <= k <= i && LocationOf(es, frames, k) != []
      ensures exists a :: 0 <= a < |r| && r[a].frame == k
    {
      if k == i {
        assert r[0].frame == i;
      } else {
        var a :| 0 <= a < |rest| && rest[a].frame == k;
        assert r[1 + a].frame == k;
      }
    }
  }

  /** Every frame that is not hidden is in the backtrace, topmost first, and no other. */
  lemma {:induction false} BacktraceFrames(es: seq<DebugEntry>, frames: seq<Frame>, i: nat)
    requires i < |frames|
    ensures Lists(es, frames, i, Backtrace(es, frames, i))
  {
    hide LocationOf;
    LocationShape(es, frames, i);
    if i > 0 {
      BacktraceFrames(es, frames, i - 1);
      ListsStep(es, frames, i, Backtrace(es, frames, i - 1));
    } else {
      var r := LocationOf(es, frames, 0);
      assert r != [] ==> r[0].frame == 0;
    }
  }

  /** The backtrace, frame by frame: the range found for the frame's address, unless its flags have the top bit; a
  frame without a range is listed without one. */
  lemma {:induction false} BacktraceOf(es: seq<DebugEntry>, frames: seq<Frame>, i: nat, k: nat)
    requires k <= i < |frames|
    ensures var r := Backtrace(es, frames, i);
      match FindIndex(es, frames[k].current)
      case None => Location(k, None) in r
      case Some(j) =>
        if es[j].flags < 128 then Location(k, Some(es[j])) in r else forall a :: 0 <= a < |r| ==> r[a].frame != k
  {
    hide FindIndex, Backtrace;
    BacktraceFrames(es, frames, i);
    var r, here := Backtrace(es, frames, i), LocationOf(es, frames, k);
    LocationShape(es, frames, k);
    if here != [] {
      var a :| 0 <= a < |r| && r[a].frame == k;
      assert here == [r[a]];
      assert r[a] in r;
    } else {
      forall a | 0 <= a < |r|
        ensures r[a].frame != k
      {
        assert LocationOf(es, frames, r[a].frame) == [r[a]];
      }
    }
  }
}
