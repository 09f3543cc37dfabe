/** Base 32 and base 64 as bit groups (sections 4 to 6 of RFC 4648), and their injectivity. */
module Encoding {
  import opened Machine

  type Bits = seq<bool>

  /** The `n` low bits of `x`, most significant first. */
  function BitsOf(x: nat, n: nat): (r: Bits)
    ensures |r| == n
  {
    if n == 0 then [] else BitsOf(x / 2, n - 1) + [x % 2 == 1]
  }

  function NumberOf(bits: Bits): nat {
    if bits == [] then 0
    else 2 * NumberOf(bits[..|bits| - 1]) + (if bits[|bits| - 1] then 1 else 0)
  }

  lemma {:induction false} BitsOfNumber(bits: Bits)
    ensures BitsOf(NumberOf(bits), |bits|) == bits
  {
    if bits != [] { BitsOfNumber(bits[..|bits| - 1]); }
  }

  lemma {:induction false} NumberOfBits(x: nat, n: nat)
    requires x < Pow2(n)
    ensures NumberOf(BitsOf(x, n)) == x
  {
    if n > 0 {
      NumberOfBits(x / 2, n - 1);
      assert BitsOf(x, n)[..n - 1] == BitsOf(x / 2, n - 1);
    }
  }

  lemma {:induction false} NumberBound(bits: Bits)
    ensures NumberOf(bits) < Pow2(|bits|)
  {
    if bits != [] { NumberBound(bits[..|bits| - 1]); }
  }

  function AllBits(bytes: Bytes): (r: Bits)
    ensures |r| == 8 * |bytes|
  {
    if bytes == [] then [] else BitsOf(bytes[0], 8) + AllBits(bytes[1..])
  }

  lemma {:induction false} AllBitsInjective(a: Bytes, b: Bytes)
    requires AllBits(a) == AllBits(b)
    ensures a == b
  {
    if a != [] {
      assert |a| == |b|;
      assert AllBits(a)[..8] == BitsOf(a[0], 8) && AllBits(b)[..8] == BitsOf(b[0], 8);
      assert AllBits(a)[8..] == AllBits(a[1..]) && AllBits(b)[8..] == AllBits(b[1..]);
      assert Pow2(8) == 256;
      NumberOfBits(a[0], 8);
      NumberOfBits(b[0], 8);
      AllBitsInjective(a[1..], b[1..]);
      assert a == [a[0]] + a[1..] && b == [b[0]] + b[1..];
    }
  }

  function Zeros(n: nat): Bits { seq(n, _ => false) }

  /** The bits in groups of `k`, the last one filled up with zero bits on the right. */
  function Groups(bits: Bits, k: nat): (r: seq<nat>)
    requires k > 0
    ensures forall i :: 0 <= i < |r| ==> r[i] < Pow2(k)
  {
    if bits == [] then []
    else if |bits| < k then
      var last := bits + Zeros(k - |bits|);
      NumberBound(last);
      [NumberOf(last)]
    else
      NumberBound(bits[..k]);
      [NumberOf(bits[..k])] + Groups(bits[k..], k)
  }

  lemma NumberInjective(a: Bits, b: Bits)
    requires |a| == |b| && NumberOf(a) == NumberOf(b)
    ensures a == b
  {
    BitsOfNumber(a);
    BitsOfNumber(b);
  }

  lemma {:induction false} GroupsInjective(a: Bits, b: Bits, k: nat)
    requires k > 0 && |a| == |b| && Groups(a, k) == Groups(b, k)
    ensures a == b
  {
    if a == [] {
    } else if |a| < k {
      var z := Zeros(k - |a|);
      NumberInjective(a + z, b + z);
      assert (a + z)[..|a|] == a && (b + z)[..|a|] == b;
    } else {
      assert Groups(a, k)[1..] == Groups(a[k..], k) && Groups(b, k)[1..] == Groups(b[k..], k);
      NumberInjective(a[..k], b[..k]);
      GroupsInjective(a[k..], b[k..], k);
      assert a == a[..k] + a[k..] && b == b[..k] + b[k..];
    }
  }

  lemma {:induction false} GroupsLength(bits: Bits, k: nat)
    requires k > 0
    ensures k * |Groups(bits, k)| >= |bits| && (bits != [] ==> k * (|Groups(bits, k)| - 1) < |bits|)
  {
    if |bits| >= k {
      var rest := |Groups(bits[k..], k)|;
      GroupsLength(bits[k..], k);
      assert k * (1 + rest) == k + k * rest;
      assert k * (rest - 1) == k * rest - k;
    } else if bits != [] {
      assert |Groups(bits, k)| == 1;
    }
  }

  // ---------------------------------------------------------------- what the groups mean

  /** The number with these digits of `k` bits each, most significant first. */
  function BigEndian(digits: seq<nat>, k: nat): nat {
    if digits == [] then 0
    else BigEndian(digits[..|digits| - 1], k) * Pow2(k) + digits[|digits| - 1]
  }

  lemma Distribute(a: nat, b: nat, p: nat, q: nat)
    ensures (a * p + b) * q == a * (p * q) + b * q
  {
  }

  lemma {:induction false} BigEndianCons(x: nat, s: seq<nat>, k: nat)
    ensures BigEndian([x] + s, k) == x * Pow2(k * |s|) + BigEndian(s, k)
  {
    var all := [x] + s;
    if s == [] {
      assert all[..0] == [];
    } else {
      var init, y := s[..|s| - 1], s[|s| - 1];
      assert all[..|all| - 1] == [x] + init;
      BigEndianCons(x, init, k);
      Distribute(x, BigEndian(init, k), Pow2(k * |init|), Pow2(k));
      Pow2Add(k * |init|, k);
      assert k * |init| + k == k * |s|;
    }
  }

  lemma {:induction false} NumberOfConcat(a: Bits, b: Bits)
    ensures NumberOf(a + b) == NumberOf(a) * Pow2(|b|) + NumberOf(b)
  {
    if b == [] {
      assert a + b == a;
    } else {
      var init := b[..|b| - 1];
      assert (a + b)[..|a + b| - 1] == a + init;
      NumberOfConcat(a, init);
      Distribute(NumberOf(a), NumberOf(init), Pow2(|init|), 2);
    }
  }

  lemma {:induction false} NumberOfZeros(n: nat)
    ensures NumberOf(Zeros(n)) == 0
  {
    if n > 0 {
      assert Zeros(n)[..n - 1] == Zeros(n - 1);
      NumberOfZeros(n - 1);
    }
  }

  /** The bits of a byte string are the bits of the number it is. */
  lemma {:induction false} BytesNumber(bytes: Bytes)
    ensures NumberOf(AllBits(bytes)) == BigEndian(bytes, 8)
  {
    if bytes != [] {
      var rest := bytes[1..];
      assert bytes == [bytes[0]] + rest;
      assert Pow2(8) == 256;
      NumberOfBits(bytes[0], 8);
      BytesNumber(rest);
      NumberOfConcat(BitsOf(bytes[0], 8), AllBits(rest));
      BigEndianCons(bytes[0], rest, 8);
    }
  }

  /** The groups are the digits of the same number, shifted to fill up the last one. */
  lemma {:induction false} GroupsNumber(bits: Bits, k: nat)
    requires k > 0
    ensures k * |Groups(bits, k)| >= |bits|
    ensures BigEndian(Groups(bits, k), k) == NumberOf(bits) * Pow2(k * |Groups(bits, k)| - |bits|)
    decreases |bits|
  {
    GroupsLength(bits, k);
    if bits == [] {
    } else if |bits| < k {
      var zeros := Zeros(k - |bits|);
      NumberOfConcat(bits, zeros);
      NumberOfZeros(k - |bits|);
      var g := NumberOf(bits + zeros);
      assert [g][..0] == [];
      assert BigEndian([g], k) == g;
    } else {
      var head, rest := bits[..k], bits[k..];
      var groups := Groups(rest, k);
      GroupsNumber(rest, k);
      BigEndianCons(NumberOf(head), groups, k);
      assert bits == head + rest;
      NumberOfConcat(head, rest);
      var shift := k * |groups| - |rest|;
      Distribute(NumberOf(head), NumberOf(rest), Pow2(|rest|), Pow2(shift));
      Pow2Add(|rest|, shift);
      assert k * (1 + |groups|) - |bits| == shift;
    }
  }

  // ---------------------------------------------------------------- base 32

  /** `A` to `Z`, then `2` to `7`. */
  function Base32Char(v: nat): Byte
    requires v < 32
  {
    if v < 26 then 65 + v else 24 + v
  }

  function Chars32(groups: seq<nat>): (r: Bytes)
    requires forall i :: 0 <= i < |groups| ==> groups[i] < 32
    ensures |r| == |groups|
  {
    seq(|groups|, i requires 0 <= i < |groups| => Base32Char(groups[i]))
  }

  /** Base 32 without padding. */
  function Base32(bytes: Bytes): (r: Bytes) {
    assert Pow2(5) == 32;
    Chars32(Groups(AllBits(bytes), 5))
  }

  /** Only upper-case letters and digits: what a drive ID may contain. */
  predicate IsAlphanumeric(c: Byte) {
    65 <= c <= 90 || 48 <= c <= 57
  }

  /** Eight characters for every five bytes, rounded up; all of them allowed in a drive ID. */
  lemma Base32Shape(bytes: Bytes)
    ensures |Base32(bytes)| == (8 * |bytes| + 4) / 5
    ensures forall i :: 0 <= i < |Base32(bytes)| ==> IsAlphanumeric(Base32(bytes)[i])
  {
    GroupsLength(AllBits(bytes), 5);
  }

  lemma Base32Alphabet(v: nat)
    requires v < 32
    ensures Base32Char(v) == "ABCDEFGHIJKLMNOPQRSTUVWXYZ234567"[v] as int
  {
  }

  /** The encoding spells the bytes' number in base 32, with zero bits at its end. */
  lemma Base32Meaning(bytes: Bytes) returns (digits: seq<nat>)
    ensures |digits| == |Base32(bytes)| == (8 * |bytes| + 4) / 5
    ensures forall i :: 0 <= i < |digits| ==> digits[i] < 32 && Base32(bytes)[i] == Base32Char(digits[i])
    ensures BigEndian(digits, 5) == BigEndian(bytes, 8) * Pow2(5 * |digits| - 8 * |bytes|)
  {
    assert Pow2(5) == 32;
    digits := Groups(AllBits(bytes), 5);
    Base32Shape(bytes);
    BytesNumber(bytes);
    GroupsNumber(AllBits(bytes), 5);
  }

  /** Different names have different encodings. */
  lemma Base32Injective(a: Bytes, b: Bytes)
    requires Base32(a) == Base32(b)
    ensures a == b
  {
    var x, y := Groups(AllBits(a), 5), Groups(AllBits(b), 5);
    Base32Shape(a);
    Base32Shape(b);
    assert |a| == |b|;
    assert Pow2(5) == 32;
    forall i | 0 <= i < |x| ensures x[i] == y[i] {
      assert Base32Char(x[i]) == Base32(a)[i] == Base32(b)[i] == Base32Char(y[i]);
    }
    GroupsInjective(AllBits(a), AllBits(b), 5);
    AllBitsInjective(a, b);
  }

  // ---------------------------------------------------------------- base 64, URL-safe

  const PAD: Byte := 61

  /** `A` to `Z`, `a` to `z`, `0` to `9`, hyphen, underscore. */
  function Base64Char(v: nat): Byte
    requires v < 64
  {
    if v < 26 then 65 + v else if v < 52 then 71 + v else if v < 62 then v - 4
    else if v == 62 then 45 else 95
  }

  function Chars64(groups: seq<nat>): (r: Bytes)
    requires forall i :: 0 <= i < |groups| ==> groups[i] < 64
    ensures |r| == |groups|
  {
    seq(|groups|, i requires 0 <= i < |groups| => Base64Char(groups[i]))
  }

  function Padding(n: nat): Bytes {
    seq((4 - n % 4) % 4, _ => PAD)
  }

  /** Base 64 with padding to a multiple of four characters. */
  function Base64Url(bytes: Bytes): (r: Bytes) {
    assert Pow2(6) == 64;
    var chars := Chars64(Groups(AllBits(bytes), 6));
    chars + Padding(|chars|)
  }

  function Unpadded(s: Bytes): Bytes {
    if s == [] || s[0] == PAD then [] else [s[0]] + Unpadded(s[1..])
  }

  lemma {:induction false} PaddingStripped(a: Bytes, n: nat)
    requires PAD !in a
    ensures Unpadded(a + Padding(n)) == a
  {
    if a == [] {
      assert a + Padding(n) == Padding(n);
    } else {
      assert (a + Padding(n))[1..] == a[1..] + Padding(n);
      PaddingStripped(a[1..], n);
      assert [a[0]] + a[1..] == a;
    }
  }

  lemma Base64Alphabet(v: nat)
    requires v < 64
    ensures v < 26 ==> Base64Char(v) == "ABCDEFGHIJKLMNOPQRSTUVWXYZ"[v] as int
    ensures 26 <= v < 52 ==> Base64Char(v) == "abcdefghijklmnopqrstuvwxyz"[v - 26] as int
    ensures 52 <= v ==> Base64Char(v) == "0123456789-_"[v - 52] as int
  {
  }

  /** The same in base 64, filled up to a multiple of four characters with equals signs. */
  lemma Base64Meaning(bytes: Bytes) returns (digits: seq<nat>)
    ensures |digits| == (8 * |bytes| + 5) / 6 && |Base64Url(bytes)| == (|digits| + 3) / 4 * 4
    ensures forall i :: 0 <= i < |digits| ==> digits[i] < 64 && Base64Url(bytes)[i] == Base64Char(digits[i])
    ensures forall i :: |digits| <= i < |Base64Url(bytes)| ==> Base64Url(bytes)[i] == '=' as int
    ensures BigEndian(digits, 6) == BigEndian(bytes, 8) * Pow2(6 * |digits| - 8 * |bytes|)
  {
    assert Pow2(6) == 64;
    digits := Groups(AllBits(bytes), 6);
    GroupsLength(AllBits(bytes), 6);
    BytesNumber(bytes);
    GroupsNumber(AllBits(bytes), 6);
    hide Groups, AllBits, BigEndian, Pow2, NumberOf;
    SixthsOfBits(|bytes|, |digits|);
    UpToFour(|digits|);
  }

  lemma SixthsOfBits(bytes: nat, n: nat)
    requires 6 * n >= 8 * bytes && (bytes != 0 ==> 6 * (n - 1) < 8 * bytes) && (bytes == 0 ==> n == 0)
    ensures n == (8 * bytes + 5) / 6
  {
  }

  lemma UpToFour(n: nat)
    ensures n + |Padding(n)| == (n + 3) / 4 * 4
  {
  }

  lemma Base64Injective(a: Bytes, b: Bytes)
    requires Base64Url(a) == Base64Url(b)
    ensures a == b
  {
    assert Pow2(6) == 64;
    var x, y := Groups(AllBits(a), 6), Groups(AllBits(b), 6);
    PaddingStripped(Chars64(x), |x|);
    PaddingStripped(Chars64(y), |y|);
    GroupsLength(AllBits(a), 6);
    GroupsLength(AllBits(b), 6);
    assert |a| == |b|;
    forall i | 0 <= i < |x| ensures x[i] == y[i] {
      assert Base64Char(x[i]) == Chars64(x)[i] == Chars64(y)[i] == Base64Char(y[i]);
    }
    GroupsInjective(AllBits(a), AllBits(b), 6);
    AllBitsInjective(a, b);
  }
}
