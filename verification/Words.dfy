/** Bytes, machine words and little-endian fields.

The virtual machine moves 32- and 64-bit values in and out of byte buffers with
memcpy on a little-endian target; here those moves are `Little` and `FromLittle`. */
module Words {
  type byte = b: int | 0 <= b < 0x100
  type u32 = n: int | 0 <= n < 0x1_0000_0000
  type u64 = n: int | 0 <= n < 0x1_0000_0000_0000_0000
  type i64 = n: int | -0x8000_0000_0000_0000 <= n < 0x8000_0000_0000_0000

  const TWO64: int := 0x1_0000_0000_0000_0000
  const SHIFT24: nat := 0x100_0000

  datatype Option<+T> = None | Some(value: T) {
    predicate IsFailure() { None? }
    function PropagateFailure<U>(): Option<U>
      requires None?
    {
      None
    }
    function Extract(): T
      requires Some?
    {
      value
    }
  }

  function Pow256(n: nat): (p: nat)
    ensures p > 0
  {
    if n == 0 then 1 else 256 * Pow256(n - 1)
  }

  /** The `n` low-order bytes of `v`, least significant first. */
  function Little(n: nat, v: nat): (s: seq<byte>)
    ensures |s| == n
  {
    if n == 0 then [] else [v % 256] + Little(n - 1, v / 256)
  }

  /** The number a little-endian field holds. */
  function FromLittle(s: seq<byte>): (v: nat)
    ensures v < Pow256(|s|)
  {
    if |s| == 0 then 0 else s[0] + 256 * FromLittle(s[1..])
  }

  lemma {:induction false} FromLittleOfLittle(n: nat, v: nat)
    ensures FromLittle(Little(n, v)) == v % Pow256(n)
  {
    if n != 0 {
      var rest := Little(n - 1, v / 256);
      assert Little(n, v)[1..] == rest;
      FromLittleOfLittle(n - 1, v / 256);
      DivModSplit(v, Pow256(n - 1));
    }
  }

  lemma {:induction false} DivModSplit(v: nat, p: nat)
    requires p > 0
    ensures v % (256 * p) == v % 256 + 256 * ((v / 256) % p)
  {
    var q, r := (v / 256) / p, (v / 256) % p;
    var low := v % 256;
    assert v == 256 * (q * p + r) + low;
    assert v == (256 * p) * q + (256 * r + low) by {
      assert 256 * (q * p) == (256 * p) * q;
    }
    assert 0 <= 256 * r + low < 256 * p;
    QuotientUnique(v, 256 * p, q, 256 * r + low);
  }

  lemma {:induction false} QuotientUnique(v: nat, m: nat, q: nat, r: nat)
    requires m > 0 && r < m && v == m * q + r
    ensures v % m == r && v / m == q
  {
    var d := v / m - q;
    assert v == m * (v / m) + v % m;
    assert m * d == r - v % m by {
      assert m * d == m * (v / m) - m * q;
    }
    assert d >= 1 ==> m * d >= m;
    assert d <= -1 ==> m * d + m <= 0;
  }

  lemma {:induction false} LittleOfFromLittle(s: seq<byte>)
    ensures Little(|s|, FromLittle(s)) == s
  {
    if |s| != 0 {
      var v := FromLittle(s);
      assert v % 256 == s[0] && v / 256 == FromLittle(s[1..]);
      LittleOfFromLittle(s[1..]);
      assert s == [s[0]] + s[1..];
    }
  }

  lemma {:induction false} LittleInjective(n: nat, v: nat, w: nat)
    requires v < Pow256(n) && w < Pow256(n)
    requires Little(n, v) == Little(n, w)
    ensures v == w
  {
    FromLittleOfLittle(n, v);
    FromLittleOfLittle(n, w);
    QuotientUnique(v, Pow256(n), 0, v);
    QuotientUnique(w, Pow256(n), 0, w);
  }

  lemma {:induction false} PowerFacts()
    ensures Pow256(0) == 1
    ensures Pow256(1) == 0x100
    ensures Pow256(4) == 0x1_0000_0000
    ensures Pow256(5) == 0x100_0000_0000
    ensures Pow256(8) == TWO64
  {
    assert Pow256(2) == 256 * Pow256(1);
    assert Pow256(3) == 256 * Pow256(2);
    assert Pow256(4) == 256 * Pow256(3);
    assert Pow256(5) == 256 * Pow256(4);
    assert Pow256(6) == 256 * Pow256(5);
    assert Pow256(7) == 256 * Pow256(6);
    assert Pow256(8) == 256 * Pow256(7);
  }

  /** Unsigned 64-bit arithmetic wraps. */
  function Wrap64(x: int): u64 { x % TWO64 }

  lemma {:induction false} WrapMod(f: nat, b: nat)
    ensures Wrap64(f % TWO64 + b) == Wrap64(f + b)
  {
    var q := f / TWO64;
    assert f + b == f % TWO64 + b + TWO64 * q;
    var x := f % TWO64 + b;
    assert x + TWO64 * q == TWO64 * (x / TWO64 + q) + x % TWO64;
    QuotientUnique(x + TWO64 * q, TWO64, x / TWO64 + q, x % TWO64);
  }

  function Signed(x: u64): i64 {
    if x < 0x8000_0000_0000_0000 then x else x - TWO64
  }

  function Unsigned(x: i64): u64 {
    if x >= 0 then x else x + TWO64
  }

  /** Signed 64-bit arithmetic in two's complement. */
  function WrapSigned(x: int): i64 { Signed(Wrap64(x)) }

  /** `s` with the bytes `p` written over it at `at`; what would fall past the end is dropped. */
  function Poke(s: seq<byte>, at: nat, p: seq<byte>): (r: seq<byte>)
    ensures |r| == |s|
    ensures forall k :: 0 <= k < |s| ==> r[k] == if at <= k < at + |p| then p[k - at] else s[k]
  {
    seq(|s|, k requires 0 <= k < |s| => if at <= k < at + |p| then p[k - at] else s[k])
  }

  // ---------------------------------------------------------------- shifting a field by bytes

  lemma {:induction false} LittleMod(n: nat, v: nat)
    ensures Little(n, v % Pow256(n)) == Little(n, v)
  {
    if n != 0 {
      var p := Pow256(n - 1);
      DivModSplit(v, p);
      var m := v % Pow256(n);
      assert m == v % 256 + 256 * ((v / 256) % p);
      assert m % 256 == v % 256 && m / 256 == (v / 256) % p;
      LittleMod(n - 1, v / 256);
    }
  }

  lemma {:induction false} LittleTake(n: nat, m: nat, v: nat)
    requires m <= n
    ensures Little(n, v)[..m] == Little(m, v)
  {
    if m != 0 {
      LittleTake(n - 1, m - 1, v / 256);
      assert Little(n, v)[..m] == [v % 256] + Little(n - 1, v / 256)[..m - 1];
    }
  }

  lemma {:induction false} LittleTimes256(n: nat, v: nat, w: nat)
    requires n > 0 && w == 256 * v
    ensures Little(n, w) == [0] + Little(n - 1, v)
  {
  }

  lemma {:induction false} DivDiv(v: nat, p: nat)
    requires p > 0
    ensures v / 256 / p == v / (256 * p)
  {
    var q, r := v / 256 / p, (v / 256) % p;
    assert v / 256 == p * q + r;
    assert v == (256 * p) * q + (256 * r + v % 256) by {
      assert 256 * (p * q) == (256 * p) * q;
    }
    QuotientUnique(v, 256 * p, q, 256 * r + v % 256);
  }

  /** Byte `k` of a field. */
  lemma {:induction false} LittleByte(n: nat, v: nat, k: nat)
    requires k < n
    ensures Little(n, v)[k] == (v / Pow256(k)) % 256
  {
    if k > 0 {
      assert Little(n, v)[k] == Little(n - 1, v / 256)[k - 1];
      LittleByte(n - 1, v / 256, k - 1);
      DivDiv(v, Pow256(k - 1));
      assert Pow256(k) == 256 * Pow256(k - 1);
    }
  }

  lemma {:induction false} LittleTimes24(d: nat, v: nat, w: nat, x: nat)
    requires v == 256 * d && w == 256 * v && x == 256 * w
    ensures Little(8, x) == [0, 0, 0] + Little(5, d)
  {
    LittleTimes256(8, w, x);
    LittleTimes256(7, v, w);
    LittleTimes256(6, d, v);
    Three0(Little(5, d));
  }

  lemma {:induction false} Three0(s: seq<byte>)
    ensures [0] + ([0] + ([0] + s)) == [0, 0, 0] + s
  {
  }

  /** A field three bytes too far along reads as its value times 2^24. */
  lemma {:induction false} LittleShifted(d: nat)
    ensures Little(8, (d * 0x100_0000) % TWO64) == [0, 0, 0] + Little(8, d)[..5]
    ensures Little(8, d)[5] == (d / 0x100_0000_0000) % 0x100
  {
    PowerFacts();
    LittleMod(8, d * 0x100_0000);
    LittleTimes24(d, 256 * d, 0x1_0000 * d, 0x100_0000 * d);
    LittleTake(8, 5, d);
    LittleByte(8, d, 5);
  }

  lemma {:induction false} LittleZero(n: nat)
    ensures forall k :: 0 <= k < n ==> Little(n, 0)[k] == 0
  {
    if n > 0 {
      LittleZero(n - 1);
    }
  }
}
