/** What the machine's small parts mean: arithmetic, registers, argument passing, handlers, locals. */
module MachineLaws {
  import opened Words
  import opened Isa
  import opened Machine

  // ---------------------------------------------------------------- arithmetic

  lemma {:induction false} WrapSignedIs(x: int) returns (k: int)
    ensures WrapSigned(x) == x + k * TWO64
    ensures -0x8000_0000_0000_0000 <= x < 0x8000_0000_0000_0000 ==> k == 0
  {
    var q := x / TWO64;
    assert x == q * TWO64 + x % TWO64;
    k := if x % TWO64 < 0x8000_0000_0000_0000 then -q else -q - 1;
  }

  /** Sums, differences and products are right modulo 2^64, and exactly right when they fit. */
  lemma {:induction false} RingOperations(op: byte, a: i64, b: i64) returns (k: int)
    requires op == ADD || op == SUB || op == MUL
    ensures var exact := if op == ADD then a + b else if op == SUB then a - b else a * b;
      && Arithmetic(op, a, b).Some? && Arithmetic(op, a, b).value == exact + k * TWO64
      && (-0x8000_0000_0000_0000 <= exact < 0x8000_0000_0000_0000 ==> k == 0)
  {
    k := WrapSignedIs(if op == ADD then a + b else if op == SUB then a - b else a * b);
  }

  lemma {:induction false} Signs(q: int, y: int)
    ensures (-q) * y == -(q * y) && q * (-y) == -(q * y) && (-q) * (-y) == q * y
  {
  }

  lemma {:induction false} AtLeast(q: nat, y: nat, n: nat)
    requires n <= y
    ensures n * q <= y * q
  {
    assert y * q == n * q + (y - n) * q;
  }

  lemma {:induction false} DivMod(x: nat, y: nat) returns (q: nat, r: nat)
    requires y > 0
    ensures q == x / y && r < y && x == y * q + r
  {
    q, r := x / y, x % y;
  }

  /** The quotient of the absolute values, with its sign. */
  lemma {:induction false} QuotientParts(a: int, b: int) returns (q: nat, r: nat)
    requires b != 0
    ensures r < Abs(b) && Abs(a) == Abs(b) * q + r
    ensures Quotient(a, b) == if (a >= 0) == (b > 0) then q as int else -(q as int)
  {
    q, r := DivMod(Abs(a), Abs(b));
  }

  lemma {:induction false} QuotientLaw(a: int, b: int)
    requires b != 0
    ensures var q := Quotient(a, b); var r := a - q * b;
      Abs(r) < Abs(b) && (r == 0 || (r > 0 <==> a > 0))
  {
    hide Quotient;
    var q, r := QuotientParts(a, b);
    var y := Abs(b);
    Signs(q, y);
    var m: int := q * y;
    assert y * q == m;
    assert Quotient(a, b) * b == if a >= 0 then m else -m;
  }

  /** Division truncates towards zero and the remainder has the dividend's sign; both are undefined
  exactly for a zero divisor and for the one quotient that does not fit. */
  lemma {:induction false} DivisionLaw(a: i64, b: i64)
    ensures var q, r := Arithmetic(DIV, a, b), Arithmetic(MOD, a, b);
      && (q.None? <==> b == 0 || (b == -1 && a == -0x8000_0000_0000_0000)) && (r.None? <==> q.None?)
      && (q.Some? ==> a == q.value * b + r.value && Abs(r.value) < Abs(b) && (r.value == 0 || (r.value > 0 <==> a > 0)))
  {
    if b != 0 && !(b == -1 && a == -0x8000_0000_0000_0000) {
      QuotientLaw(a, b);
      var q := Quotient(a, b);
      QuotientFits(a, b);
      var k := WrapSignedIs(q);
      var k' := WrapSignedIs(a - q * b);
    }
  }

  lemma {:induction false} QuotientFits(a: i64, b: i64)
    requires b != 0 && !(b == -1 && a == -0x8000_0000_0000_0000)
    ensures -0x8000_0000_0000_0000 <= Quotient(a, b) < 0x8000_0000_0000_0000
  {
    hide Quotient;
    var q, r := QuotientParts(a, b);
    if b == 1 || b == -1 {
      assert Abs(b) * q == q;
    } else {
      AtLeast(q, Abs(b), 2);
    }
  }

  /** Exactly one of less, greater and equal holds; the others are their unions; the order is strict. */
  lemma {:induction false} ComparisonLaw(a: i64, b: i64, c: i64)
    ensures forall op :: LT <= op <= EQ ==> Arithmetic(op, a, b) == Some(0) || Arithmetic(op, a, b) == Some(1)
    ensures var lt, gt, lte, gte, eq := Arithmetic(LT, a, b), Arithmetic(GT, a, b), Arithmetic(LTE, a, b),
                                        Arithmetic(GTE, a, b), Arithmetic(EQ, a, b);
      && (lt.value as int) + gt.value + eq.value == 1
      && (lte.value as int) == (lt.value as int) + eq.value && (gte.value as int) == (gt.value as int) + eq.value
      && (eq == Some(1) <==> a == b) && gt == Arithmetic(LT, b, a)
    ensures Arithmetic(LT, a, b) == Some(1) && Arithmetic(LT, b, c) == Some(1) ==> Arithmetic(LT, a, c) == Some(1)
    ensures a < 0x7FFF_FFFF_FFFF_FFFF ==> Arithmetic(LT, a, a + 1) == Some(1)
  {
  }

  /** A relative jump back undoes one forwards, and the other way round, through address wrap-around. */
  lemma {:induction false} JumpBack(ip: u64, d: nat)
    requires 0 < d < 0x8000_0000
    ensures JumpTo(JumpTo(ip, d), 0x1_0000_0000 - d) == ip && JumpTo(JumpTo(ip, 0x1_0000_0000 - d), d) == ip
  {
    var f, b := ip + d, ip - d;
    assert f < 2 * TWO64 && b > -TWO64;
  }

  // ---------------------------------------------------------------- registers and arguments

  /** A write is seen by a read of the same general register and by no other readable one. */
  lemma {:induction false} ReadAfterWrite(d: Data, r: byte, v: Reg, other: byte)
    requires Write(d, r, v).Some?
    ensures var d' := Write(d, r, v).value;
      && (r < GENERAL_REGISTERS ==> Read(d', r) == Some(v))
      && (other != r || r >= GENERAL_REGISTERS ==> Read(d', other) == Read(d, other))
      && d'.exception == d.exception && d'.globals == d.globals
  {
  }

  /** A call passes the first argument and no other, says it passed one, and uses it up: a call right
  after it passes nothing. */
  lemma {:induction false} ArgumentsOnce(d: Data)
    ensures var c := CopyRegs(d);
      && Read(c, REG_PARAM_OFFSET) == Some(d.args[0])
      && (forall i {:trigger c.params[i]} :: 1 <= i < 16 ==> c.params[i] == None)
      && Read(c, 162) == Some(Some(Int(1)))
      && c.general == d.general && c.args[1..] == d.args[1..]
      && Read(CopyRegs(c), REG_PARAM_OFFSET) == Some(None)
  {
  }

  // ---------------------------------------------------------------- handlers

  predicate Armed(f: Frame) { f.catchAt != EMPTY_CATCH }

  /** The handler found is the innermost armed one, and none is found only if none is armed. */
  lemma {:induction false} InnermostHandler(frames: seq<Frame>, k: nat)
    requires k < |frames|
    ensures match Handler(frames, k)
      case Some(h) => h <= k && Armed(frames[h]) && forall j :: h < j <= k ==> !Armed(frames[j])
      case None => forall j :: 0 <= j <= k ==> !Armed(frames[j])
  {
    if !Armed(frames[k]) && k > 0 {
      InnermostHandler(frames, k - 1);
    }
  }

  /** Catching resumes at the innermost handler with the exception in its register, disarms that
  handler and no other, and leaves the stack as deep as it was. */
  lemma {:induction false} CatchConsumes(s: State)
    requires Climb(s).Running?
    ensures var r, h := Climb(s).s, Handler(s.frames, |s.frames| - 1);
      && h.Some? && r.ip == s.frames[h.value].catchAt
      && |r.frames| == |s.frames| && !Armed(r.frames[h.value])
      && (forall j :: 0 <= j < |s.frames| && j != h.value ==> r.frames[j] == s.frames[j])
      && Write(s.data, s.frames[h.value].catchReg, s.data.exception) == Some(r.data)
  {
    InnermostHandler(s.frames, |s.frames| - 1);
  }
}
