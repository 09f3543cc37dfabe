/** Go's fixed-width integers and the bit operations the codec uses, on mathematical integers. */
module Machine {

  type Byte = x: int | 0 <= x < 256
  type Bytes = seq<Byte>

  const TWO_32: int := 0x1_0000_0000
  const TWO_63: int := 0x8000_0000_0000_0000
  const TWO_64: int := 0x1_0000_0000_0000_0000

  /** The largest Go `int`; no slice or string is longer than this. */
  const MAX_INT: int := TWO_63 - 1

  type UInt64 = x: int | 0 <= x < TWO_64

  /** The 64-bit two's-complement value of `x`: conversion to `int`, and wrap-around of `int` addition. */
  function Wrap64(x: int): (r: int)
    ensures -TWO_63 <= r < TWO_63
    ensures -TWO_63 <= x < TWO_63 ==> r == x
  {
    var low := x % TWO_64;
    if low < TWO_63 then low else low - TWO_64
  }

  /** The conversion `int32(x)`: the low 32 bits, read as a signed number. */
  function ToInt32(x: nat): (r: int)
    ensures 0 <= x < TWO_32 / 2 ==> r == x
  {
    var low := x % TWO_32;
    if low < TWO_32 / 2 then low else low - TWO_32
  }

  function Pow2(n: nat): (r: nat)
    ensures r >= 1
  {
    if n == 0 then 1 else 2 * Pow2(n - 1)
  }

  /** Bitwise or. */
  function BitOr(a: nat, b: nat): nat {
    if a == 0 && b == 0 then 0
    else 2 * BitOr(a / 2, b / 2) + (if a % 2 == 1 || b % 2 == 1 then 1 else 0)
  }

  /** Bitwise and. */
  function BitAnd(a: nat, b: nat): (r: nat)
    ensures r <= a && r <= b
  {
    if a == 0 || b == 0 then 0
    else 2 * BitAnd(a / 2, b / 2) + (if a % 2 == 1 && b % 2 == 1 then 1 else 0)
  }

  /** `x << n` on a `uint64`: bits shifted past bit 63 are lost. */
  function Shl64(x: UInt64, n: nat): (r: UInt64) {
    (x * Pow2(n)) % TWO_64
  }

  lemma {:induction false} BitOrZero(a: nat)
    ensures BitOr(a, 0) == a && BitOr(0, a) == a
  {
    if a != 0 { BitOrZero(a / 2); }
  }

  /** Or-ing bits above position `n` into a number that only uses the bits below is addition. */
  lemma {:induction false} BitOrDisjoint(a: nat, x: nat, n: nat)
    requires a < Pow2(n)
    ensures BitOr(a, x * Pow2(n)) == a + x * Pow2(n)
  {
    if n == 0 {
      BitOrZero(x);
    } else {
      var b := x * Pow2(n);
      assert b == 2 * (x * Pow2(n - 1));
      BitOrDisjoint(a / 2, x, n - 1);
    }
  }

  lemma BitAndOdd(x: nat, m: nat)
    ensures BitAnd(x, 2 * m + 1) == 2 * BitAnd(x / 2, m) + x % 2
  {
    assert (2 * m + 1) / 2 == m && (2 * m + 1) % 2 == 1;
  }

  lemma ModDouble(x: nat, p: nat)
    requires p >= 1
    ensures x / (2 * p) == x / 2 / p && x % (2 * p) == 2 * ((x / 2) % p) + x % 2
  {
    var q, r := (x / 2) / p, (x / 2) % p;
    assert x / 2 == q * p + r;
    assert q * (2 * p) == 2 * (q * p);
    QuotientRemainder(x, 2 * p, q, 2 * r + x % 2);
  }

  /** Masking with `n` one bits is the remainder modulo `2^n`. */
  lemma {:induction false} BitAndMask(x: nat, n: nat)
    ensures BitAnd(x, Pow2(n) - 1) == x % Pow2(n)
  {
    if n > 0 {
      var p := Pow2(n - 1);
      BitAndMask(x / 2, n - 1);
      BitAndOdd(x, p - 1);
      ModDouble(x, p);
    }
  }

  lemma QuotientRemainder(x: int, d: int, q: int, r: int)
    requires 0 <= r < d && x == q * d + r
    ensures x / d == q && x % d == r
  {
    var q', r' := x / d, x % d;
    assert x == q' * d + r';
    var k := q - q';
    assert k * d == q * d - q' * d;
    if k > 0 { MulGrows(k, d); }
  }

  lemma MulGrows(a: int, d: int)
    requires a >= 1 && d >= 1
    ensures a * d >= d
  {
    assert (a - 1) * d >= 0;
  }

  lemma {:induction false} Pow2Add(m: nat, n: nat)
    ensures Pow2(m + n) == Pow2(m) * Pow2(n)
  {
    if n > 0 {
      Pow2Add(m, n - 1);
    }
  }

  /** The powers of two that bound a varint. */
  lemma Pow2Values()
    ensures Pow2(0) == 1 && Pow2(7) == 128
    ensures Pow2(56) == 0x100_0000_0000_0000
    ensures Pow2(63) == TWO_63
    ensures Pow2(70) == 128 * TWO_63
  {
    assert Pow2(7) == 128;
    Pow2Add(7, 7);
    Pow2Add(14, 14);
    Pow2Add(28, 28);
    Pow2Add(56, 7);
    Pow2Add(63, 7);
  }

  lemma Pow2Monotone(m: nat, n: nat)
    requires m <= n
    ensures Pow2(m) <= Pow2(n)
  {
    Pow2Add(m, n - m);
    MulGrows(Pow2(n - m), Pow2(m));
  }

  /** Splitting a known suffix. */
  lemma SuffixParts(s: Bytes, i: nat, a: Bytes, b: Bytes)
    requires i <= |s| && s[i..] == a + b
    ensures i + |a| + |b| == |s| && s[i + |a|..] == b && s[i..i + |a|] == a
  {
    assert s[i..][|a|..] == b;
    assert s[i..][..|a|] == a;
  }
}
