/** The subroutine tag: an 8-bit heat counter over a 16-bit trace index, in three bytes. */
module Tags {
  import opened Words
  import opened Machine

  lemma {:induction false} FourBytes(s: seq<byte>)
    requires |s| == 4
    ensures FromLittle(s) == s[0] + 0x100 * (s[1] as int) + 0x1_0000 * (s[2] as int) + 0x100_0000 * (s[3] as int)
  {
    var s1, s2, s3 := s[1..], s[2..], s[3..];
    assert s1[1..] == s2 && s2[1..] == s3 && s3[1..] == [];
    assert FromLittle(s3) == s[3];
    assert FromLittle(s2) == s[2] + 256 * FromLittle(s3);
    assert FromLittle(s1) == s[1] + 256 * FromLittle(s2);
  }

  /** The word at a tag. */
  function WordAt(mem: seq<byte>, at: nat): nat
    requires at + 4 <= |mem|
  {
    FromLittle(mem[at..at + 4])
  }

  lemma {:induction false} WordParts(raw: nat, high: nat, low: nat)
    requires low < SHIFT24 && raw == high * SHIFT24 + low
    ensures raw / SHIFT24 == high && raw % SHIFT24 == low
  {
    QuotientUnique(raw, SHIFT24, high, low);
  }

  lemma {:induction false} LowParts(low: nat, heat: nat, trace: nat)
    requires trace < SHIFT16 && low == heat * SHIFT16 + trace
    ensures low / SHIFT16 == heat && low % SHIFT16 == trace
  {
    QuotientUnique(low, SHIFT16, heat, trace);
  }

  /** Writing a tag and reading it back: the heat modulo 256, the trace index as it was, and the
  fourth byte's value untouched. */
  lemma {:induction false} TagRoundTrip(raw: nat, heat: nat, trace: nat)
    requires raw < 0x1_0000_0000 && heat <= 0x100 && trace < SHIFT16
    ensures var w := TagWord(raw, heat, trace);
      && w < 0x1_0000_0000
      && TagHeat(w) == heat % 0x100 && TagTrace(w) == trace
      && w / SHIFT24 == raw / SHIFT24
  {
    var low := heat % 0x100 * SHIFT16 + trace;
    var full := heat * SHIFT16 + trace;
    if heat == 0x100 {
      assert full == 1 * SHIFT24 + trace;
      WordParts(full, 1, trace);
    } else {
      assert full == 0 * SHIFT24 + full;
      WordParts(full, 0, full);
    }
    assert full % SHIFT24 == low;
    var w := TagWord(raw, heat, trace);
    WordParts(w, raw / SHIFT24, low);
    LowParts(low, heat % 0x100, trace);
  }

  lemma {:induction false} TopByte(s: seq<byte>)
    requires |s| == 4
    ensures FromLittle(s) < 0x1_0000_0000 && FromLittle(s) / SHIFT24 == s[3]
  {
    FourBytes(s);
    WordParts(FromLittle(s), s[3], s[0] + 0x100 * (s[1] as int) + 0x1_0000 * (s[2] as int));
  }

  lemma {:induction false} WordBound(mem: seq<byte>, at: nat)
    requires at + 4 <= |mem|
    ensures WordAt(mem, at) < 0x1_0000_0000 && WordAt(mem, at) / SHIFT24 == mem[at + 3]
    ensures TagHeat(WordAt(mem, at)) < 0x100 && TagTrace(WordAt(mem, at)) < SHIFT16
  {
    TopByte(mem[at..at + 4]);
  }

  /** Which bytes a tag is: the trace index in the first two, low byte first, and the heat in the third. */
  lemma {:induction false} TagLayout(mem: seq<byte>, at: nat)
    requires at + 4 <= |mem|
    ensures TagTrace(WordAt(mem, at)) == mem[at] + 0x100 * (mem[at + 1] as int)
    ensures TagHeat(WordAt(mem, at)) == mem[at + 2]
  {
    var s := mem[at..at + 4];
    var low := s[0] + 0x100 * (s[1] as int);
    FourBytes(s);
    WordParts(FromLittle(s), s[3], s[2] * SHIFT16 + low);
    LowParts(s[2] * SHIFT16 + low, s[2], low);
  }

  /** A call adds one to the third byte behind its opcode's, modulo 256, and changes no other byte of the program. */
  lemma {:induction false} BumpBytes(mem: seq<byte>, at: nat)
    requires at + 4 <= |mem|
    ensures BumpTag(mem, at) == mem[at + 2 := ((mem[at + 2] as int) + 1) % 0x100]
  {
    hide BumpTag, TagWord, TagHeat, TagTrace, WordAt;
    var r := BumpTag(mem, at);
    BumpFrame(mem, at);
    TagLayout(mem, at);
    TagLayout(r, at);
    WordBound(mem, at);
    TagRoundTrip(WordAt(mem, at), TagHeat(WordAt(mem, at)) + 1, TagTrace(WordAt(mem, at)));
    LowBytes(r[at], r[at + 1], mem[at], mem[at + 1]);
  }

  lemma {:induction false} LowBytes(a: byte, b: byte, c: byte, d: byte)
    requires a + 0x100 * (b as int) == c + 0x100 * (d as int)
    ensures a == c && b == d
  {
  }

  lemma {:induction false} PokeWord(mem: seq<byte>, at: nat, w: nat)
    requires at + 4 <= |mem| && w < 0x1_0000_0000
    ensures WordAt(Poke(mem, at, Little(4, w)), at) == w
  {
    var r := Poke(mem, at, Little(4, w));
    assert r[at..at + 4] == Little(4, w);
    FromLittleOfLittle(4, w);
    PowerFacts();
    QuotientUnique(w, 0x1_0000_0000, 0, w);
  }

  /** Counting changes three bytes at most: the fourth, and all outside, keep their values. */
  lemma {:induction false} BumpFrame(mem: seq<byte>, at: nat)
    requires at + 4 <= |mem|
    ensures var r := BumpTag(mem, at);
      && (forall k :: 0 <= k < |mem| && !(at <= k < at + 3) ==> r[k] == mem[k])
      && WordAt(r, at) == TagWord(WordAt(mem, at), TagHeat(WordAt(mem, at)) + 1, TagTrace(WordAt(mem, at)))
  {
    var raw := WordAt(mem, at);
    WordBound(mem, at);
    TagRoundTrip(raw, TagHeat(raw) + 1, TagTrace(raw));
    PokeWord(mem, at, TagWord(raw, TagHeat(raw) + 1, TagTrace(raw)));
    WordBound(BumpTag(mem, at), at);
  }

  /** Writes another trace index into the tag at `at`. */
  function SetIndex(mem: seq<byte>, at: nat, index: nat): (r: seq<byte>)
    requires at + 4 <= |mem|
    ensures |r| == |mem|
  {
    Poke(mem, at, Little(4, TagWord(WordAt(mem, at), TagHeat(WordAt(mem, at)), index)))
  }

  /** Writing an index leaves the heat, and every byte but the tag's three. */
  lemma {:induction false} IndexFrame(mem: seq<byte>, at: nat, index: nat)
    requires at + 4 <= |mem| && index < SHIFT16
    ensures var r := SetIndex(mem, at, index);
      && (forall k :: 0 <= k < |mem| && !(at <= k < at + 3) ==> r[k] == mem[k])
      && TagHeat(WordAt(r, at)) == TagHeat(WordAt(mem, at)) && TagTrace(WordAt(r, at)) == index
  {
    var raw := WordAt(mem, at);
    WordBound(mem, at);
    TagRoundTrip(raw, TagHeat(raw), index);
    PokeWord(mem, at, TagWord(raw, TagHeat(raw), index));
    WordBound(SetIndex(mem, at, index), at);
    QuotientUnique(TagHeat(raw), 0x100, 0, TagHeat(raw));
  }

  function BumpTimes(mem: seq<byte>, at: nat, n: nat): (r: seq<byte>)
    requires at + 4 <= |mem|
    ensures |r| == |mem|
  {
    if n == 0 then mem else BumpTag(BumpTimes(mem, at, n - 1), at)
  }

  /** After `n` executions the heat is the initial heat plus `n`, modulo 256: it wraps, as the cap
  tested for is never reached. The trace index and every byte but the tag's three stay. */
  lemma {:induction false} HeatAfter(mem: seq<byte>, at: nat, n: nat)
    requires at + 4 <= |mem|
    ensures var r := BumpTimes(mem, at, n);
      && TagHeat(WordAt(r, at)) == (TagHeat(WordAt(mem, at)) + n) % 0x100
      && TagTrace(WordAt(r, at)) == TagTrace(WordAt(mem, at))
      && forall k :: 0 <= k < |mem| && !(at <= k < at + 3) ==> r[k] == mem[k]
  {
    hide BumpTag, TagHeat, TagTrace, TagWord, WordAt;
    WordBound(mem, at);
    if n > 0 {
      HeatAfter(mem, at, n - 1);
      var before := BumpTimes(mem, at, n - 1);
      var raw := WordAt(before, at);
      WordBound(before, at);
      BumpFrame(before, at);
      TagRoundTrip(raw, TagHeat(raw) + 1, TagTrace(raw));
      ModStep(TagHeat(WordAt(mem, at)), n);
    }
  }

  lemma {:induction false} ModStep(h: nat, n: nat)
    requires n > 0
    ensures ((h + (n - 1)) % 0x100 + 1) % 0x100 == (h + n) % 0x100
  {
  }
}
