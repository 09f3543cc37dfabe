/** Base 128 varints as the drivemount codec writes and reads them. */
module Varint {
  import opened Machine

  datatype Error =
    | IntOverflow
    | UnexpectedEOF
    | InvalidLength
    | UnexpectedEndOfGroup
    | IllegalWireType(wireType: nat)
    | EndGroupForNonGroup
    | IllegalTag(fieldNum: int, wire: nat)
    | WrongWireType(wireType: nat, field: nat)

  datatype Result<+T> = Ok(value: T) | Err(error: Error) {
    predicate IsFailure() { Err? }
    function PropagateFailure<U>(): Result<U> requires Err? { Err(error) }
    function Extract(): T requires Ok? { value }
  }

  const MAX_GROUPS := 10

  // ---------------------------------------------------------------- reference definitions

  /** A complete varint: one to ten bytes, all but the last with the continuation bit. */
  ghost predicate IsVarint(b: Bytes) {
    1 <= |b| <= MAX_GROUPS && b[|b| - 1] < 0x80 && forall i :: 0 <= i < |b| - 1 ==> b[i] >= 0x80
  }

  lemma VarintSize(b: Bytes)
    requires IsVarint(b)
    ensures 1 <= |b| <= MAX_GROUPS
  {
  }

  /** The little-endian base 128 number formed by the low seven bits of each byte. */
  function RawValue(b: Bytes): nat {
    if b == [] then 0 else b[0] % 128 + 128 * RawValue(b[1..])
  }

  /** What a `uint64` keeps of that number. */
  function VarintValue(b: Bytes): UInt64 {
    RawValue(b) % TWO_64
  }

  /** Length of the varint at the start of `s`, of which `k` bytes have been passed. */
  function ScanVarint(s: Bytes, k: nat): (r: Result<nat>)
    ensures r.Ok? ==> k < r.value <= |s|
    decreases |s| - k
  {
    if k >= MAX_GROUPS then Err(IntOverflow)
    else if k >= |s| then Err(UnexpectedEOF)
    else if s[k] < 0x80 then Ok(k + 1)
    else ScanVarint(s, k + 1)
  }

  /** The varint at the start of `s`: its value and its length in bytes. */
  function ReadVarint(s: Bytes): (r: Result<(UInt64, nat)>)
    ensures r.Ok? ==> 1 <= r.value.1 <= |s|
  {
    var n :- ScanVarint(s, 0);
    ScanIsVarint(s, 0, n);
    Ok((VarintValue(s[..n]), n))
  }

  /** The shortest encoding of `v`. */
  function EncodeVarint(v: nat): (b: Bytes)
    ensures |b| >= 1
  {
    if v < 0x80 then [v] else [v % 128 + 128] + EncodeVarint(v / 128)
  }

  // ---------------------------------------------------------------- framing

  lemma {:induction false} ScanIsVarint(s: Bytes, k: nat, n: nat)
    requires forall i :: 0 <= i < k && i < |s| ==> s[i] >= 0x80
    requires ScanVarint(s, k) == Ok(n)
    ensures k < n <= |s| && IsVarint(s[..n])
    decreases |s| - k
  {
    if s[k] >= 0x80 { ScanIsVarint(s, k + 1, n); }
  }

  lemma {:induction false} ScanOfVarint(s: Bytes, k: nat, n: nat)
    requires n <= |s| && IsVarint(s[..n]) && k < n
    ensures ScanVarint(s, k) == Ok(n)
    decreases n - k
  {
    assert s[k] == s[..n][k];
    if k < n - 1 { ScanOfVarint(s, k + 1, n); }
  }

  /** Reading succeeds exactly on inputs that start with a complete varint, and returns that varint. */
  lemma ReadVarintIff(s: Bytes, v: UInt64, n: nat)
    ensures ReadVarint(s) == Ok((v, n)) <==> n <= |s| && IsVarint(s[..n]) && v == VarintValue(s[..n])
  {
    if ScanVarint(s, 0).Ok? {
      ScanIsVarint(s, 0, ScanVarint(s, 0).value);
    }
    if n <= |s| && IsVarint(s[..n]) {
      ScanOfVarint(s, 0, n);
    }
  }

  /** A complete varint is read back whatever follows it. */
  /** What is left of a varint that is cut off, and what is too long to be one. */
  ghost predicate IsCut(b: Bytes) {
    |b| < 10 && forall i :: 0 <= i < |b| ==> b[i] >= 0x80
  }

  ghost predicate IsOverlong(b: Bytes) {
    |b| >= 10 && forall i :: 0 <= i < 10 ==> b[i] >= 0x80
  }

  lemma {:induction false} ScanErrors(s: Bytes, k: nat)
    requires k <= |s| && k <= 10 && forall i :: 0 <= i < k ==> s[i] >= 0x80
    ensures ScanVarint(s, k) == Err(UnexpectedEOF) <==> IsCut(s)
    ensures ScanVarint(s, k) == Err(IntOverflow) <==> IsOverlong(s)
    ensures ScanVarint(s, k).Ok? || IsCut(s) || IsOverlong(s)
    decreases |s| - k
  {
    if k < 10 && k < |s| && s[k] >= 0x80 { ScanErrors(s, k + 1); }
  }

  /** Reading fails at the end of the input exactly inside a varint, and with an overflow exactly after ten bytes. */
  lemma ReadVarintErrors(s: Bytes)
    ensures ReadVarint(s) == Err(UnexpectedEOF) <==> IsCut(s)
    ensures ReadVarint(s) == Err(IntOverflow) <==> IsOverlong(s)
    ensures ReadVarint(s).Ok? || IsCut(s) || IsOverlong(s)
  {
    ScanErrors(s, 0);
  }

  lemma CutVarint(b: Bytes, p: Bytes)
    requires IsVarint(b) && p <= b && p != b
    ensures IsCut(p) && ReadVarint(p) == Err(UnexpectedEOF) && ScanVarint(p, 0) == Err(UnexpectedEOF)
  {
    ReadVarintErrors(p);
    ScanErrors(p, 0);
  }

  lemma ReadVarintAppend(b: Bytes, r: Bytes)
    requires IsVarint(b)
    ensures ReadVarint(b + r) == Ok((VarintValue(b), |b|))
  {
    assert (b + r)[..|b|] == b;
    ReadVarintIff(b + r, VarintValue(b), |b|);
  }

  // ---------------------------------------------------------------- values

  lemma {:induction false} RawValueBound(b: Bytes)
    ensures RawValue(b) < Pow2(7 * |b|)
  {
    if b != [] {
      RawValueBound(b[1..]);
      Pow2Add(7 * |b[1..]|, 7);
      assert Pow2(7) == 128;
    }
  }

  lemma MulSwap(a: int, b: int, c: int)
    ensures a * (b * c) == b * (a * c) && a * (b * c) == b * (c * a)
  {
  }

  lemma {:induction false} RawValueSnoc(b: Bytes, x: Byte)
    ensures RawValue(b + [x]) == RawValue(b) + (x % 128) * Pow2(7 * |b|)
  {
    if b == [] {
      assert b + [x] == [x];
      assert RawValue([x]) == x % 128 + 128 * RawValue([]);
      assert Pow2(0) == 1;
    } else {
      var t := b[1..];
      assert (b + [x])[1..] == t + [x];
      RawValueSnoc(t, x);
      Pow2Add(7 * |t|, 7);
      assert Pow2(7) == 128;
      MulSwap(128, x % 128, Pow2(7 * |t|));
    }
  }

  lemma {:induction false} EncodeVarintRaw(v: nat)
    ensures RawValue(EncodeVarint(v)) == v
    ensures var b := EncodeVarint(v); b[|b| - 1] < 0x80 && forall i :: 0 <= i < |b| - 1 ==> b[i] >= 0x80
  {
    if v >= 0x80 {
      var b, t := EncodeVarint(v), EncodeVarint(v / 128);
      EncodeVarintRaw(v / 128);
      assert b[1..] == t;
      forall i | 0 <= i < |b| - 1 ensures b[i] >= 0x80 {
        if i > 0 { assert b[i] == t[i - 1]; }
      }
    } else {
      assert RawValue([v]) == v % 128 + 128 * RawValue([]);
    }
  }

  lemma {:induction false} EncodeVarintLength(v: nat, n: nat)
    requires n >= 1 && v < Pow2(7 * n)
    ensures |EncodeVarint(v)| <= n
  {
    if v >= 0x80 {
      assert Pow2(7) == 128;
      assert n > 1;
      Pow2Add(7 * (n - 1), 7);
      EncodeVarintLength(v / 128, n - 1);
    }
  }

  lemma EncodeVarintAtMostTen(v: UInt64)
    ensures |EncodeVarint(v)| <= MAX_GROUPS
  {
    Pow2Values();
    EncodeVarintLength(v, MAX_GROUPS);
  }

  /** Every `uint64` is encoded in one to ten bytes and read back from them, whatever follows. */
  lemma VarintRoundTrip(v: UInt64, r: Bytes)
    ensures IsVarint(EncodeVarint(v))
    ensures VarintValue(EncodeVarint(v)) == v
    ensures ReadVarint(EncodeVarint(v) + r) == Ok((v, |EncodeVarint(v)|))
  {
    hide EncodeVarint, RawValue, ReadVarint, ScanVarint;
    EncodeVarintRaw(v);
    EncodeVarintAtMostTen(v);
    ReadVarintAppend(EncodeVarint(v), r);
  }

  /** No complete varint with the same value is shorter. */
  lemma {:induction false} EncodeVarintMinimal(b: Bytes)
    requires IsVarint(b)
    ensures |EncodeVarint(VarintValue(b))| <= |b|
  {
    RawValueBound(b);
    EncodeVarintLength(VarintValue(b), |b|);
  }

  // ---------------------------------------------------------------- the size formula

  /** `bits.Len64`: the number of bits needed to write `x`. */
  function Len64(x: nat): nat {
    if x == 0 then 0 else 1 + Len64(x / 2)
  }

  /** The size of a varint by bit length. */
  function Sov(x: UInt64): nat {
    (Len64(BitOr(x, 1)) + 6) / 7
  }

  lemma {:induction false} Len64BitOrOne(x: nat)
    ensures Len64(BitOr(x, 1)) == if x == 0 then 1 else Len64(x)
  {
    BitOrZero(x / 2);
    assert BitOr(x, 1) == 2 * (x / 2) + 1;
    assert BitOr(x, 1) / 2 == x / 2;
  }

  lemma {:induction false} Len64Shift(x: nat, k: nat)
    requires x >= Pow2(k)
    ensures Len64(x) == k + Len64(x / Pow2(k))
  {
    if k > 0 {
      var p := Pow2(k - 1);
      assert x / 2 >= p;
      Len64Shift(x / 2, k - 1);
      ModDouble(x, p);
    }
  }

  lemma {:induction false} Len64Small(x: nat, k: nat)
    requires 1 <= x < Pow2(k)
    ensures 1 <= Len64(x) <= k
  {
    if x > 1 { Len64Small(x / 2, k - 1); }
  }

  lemma {:induction false} EncodeVarintBits(v: nat)
    ensures |EncodeVarint(v)| == ((if v == 0 then 1 else Len64(v)) + 6) / 7
  {
    if v >= 128 {
      EncodeVarintBits(v / 128);
      Pow2Values();
      Len64Shift(v, 7);
    } else if v > 0 {
      Pow2Values();
      Len64Small(v, 7);
    }
  }

  /** The bit-length formula is the exact number of bytes the encoder writes: one to ten. */
  lemma SovIsLength(v: UInt64)
    ensures Sov(v) == |EncodeVarint(v)| && 1 <= Sov(v) <= 10
  {
    Len64BitOrOne(v);
    EncodeVarintBits(v);
    EncodeVarintAtMostTen(v);
  }

  // ---------------------------------------------------------------- the loops

  lemma MulBound(x: int, y: int, p: int)
    requires x <= y && p >= 0
    ensures x * p <= y * p
  {
    assert (y - x) * p >= 0;
  }

  lemma GroupBelowBit63(acc: nat, x: nat, n: nat)
    requires n <= 56 && acc < Pow2(n) && x < 128
    ensures BitOr(acc, Shl64(x, n)) == acc + x * Pow2(n) < TWO_64
  {
    hide Pow2, BitOr;
    Pow2Values();
    Pow2Monotone(n, 56);
    MulBound(x, 127, Pow2(n));
    assert Shl64(x, n) == x * Pow2(n);
    BitOrDisjoint(acc, x, n);
  }

  lemma HalfMod(acc: nat, x: nat, h: nat)
    requires acc < h
    ensures (acc + x * h) % (2 * h) == acc + (x % 2) * h
  {
    var q, b := x / 2, x % 2;
    assert x * h == q * (2 * h) + b * h by {
      assert x == 2 * q + b;
      assert (2 * q + b) * h == q * (2 * h) + b * h;
    }
    MulBound(b, 1, h);
    QuotientRemainder(acc + x * h, 2 * h, q, acc + b * h);
  }

  lemma GroupAtTop(acc: nat, x: nat, n: nat, h: nat)
    requires h == Pow2(n) && TWO_64 == 2 * h
    requires acc < h && x < TWO_64
    ensures BitOr(acc, Shl64(x, n)) == (acc + x * h) % TWO_64
  {
    HalfMod(0, x, h);
    HalfMod(acc, x, h);
    assert Shl64(x, n) == (x % 2) * h;
    BitOrDisjoint(acc, x % 2, n);
  }

  /** One step of the decoder's accumulator: the next group lands on its own bits, bit 63 at most. */
  lemma GroupValue(acc: nat, x: nat, n: nat)
    requires n <= 56 || n == 63
    requires acc < Pow2(n) && x < 128
    ensures BitOr(acc, Shl64(x, n)) == (acc + x * Pow2(n)) % TWO_64
  {
    hide BitOr, Shl64, Pow2;
    if n <= 56 {
      GroupBelowBit63(acc, x, n);
    } else {
      TopBit(n);
      GroupAtTop(acc, x, n, Pow2(n));
    }
  }

  lemma TopBit(n: nat)
    requires n == 63
    ensures TWO_64 == 2 * Pow2(n)
  {
    Pow2Values();
  }

  /** Reading one more byte extends the value read so far. */
  lemma DecodeStep(s: Bytes, k: nat)
    requires k < MAX_GROUPS && k < |s|
    ensures VarintValue(s[..k]) < Pow2(7 * k)
    ensures VarintValue(s[..k + 1]) == (VarintValue(s[..k]) + (s[k] % 128) * Pow2(7 * k)) % TWO_64
  {
    hide RawValue, Pow2;
    RawValueBound(s[..k]);
    RawValueSnoc(s[..k], s[k]);
    assert s[..k] + [s[k]] == s[..k + 1];
    Pow2Monotone(7 * k, 63);
    TopBit(63);
  }

  /** The loop's update, given that `acc` is the value of the first `k` bytes of `s`. */
  method OrGroup(acc: UInt64, b: Byte, shift: nat, ghost s: Bytes, ghost k: nat) returns (r: UInt64)
    requires k < MAX_GROUPS && k < |s| && b == s[k] && shift == 7 * k
    requires acc == VarintValue(s[..k])
    ensures r == VarintValue(s[..k + 1])
  {
    hide RawValue, VarintValue, Pow2;
    assert BitAnd(b, 0x7F) == b % 128 by {
      MaskSeven(b);
    }
    DecodeStep(s, k);
    GroupValue(acc, b % 128, shift);
    hide BitAnd, BitOr, Shl64;
    r := BitOr(acc, Shl64(BitAnd(b, 0x7F), shift));
  }

  lemma MaskSeven(x: nat)
    ensures BitAnd(x, 0x7F) == x % 128
  {
    assert Pow2(7) == 128;
    BitAndMask(x, 7);
  }

  /** The shift-and-or loop that opens every tag and every length. */
  method DecodeVarint(data: Bytes, start: nat) returns (r: Result<(UInt64, nat)>)
    requires start <= |data|
    ensures r == match ReadVarint(data[start..])
                 case Err(e) => Err(e)
                 case Ok((v, n)) => Ok((v, start + n))
  {
    ghost var s := data[start..];
    var i := start;
    var wire: UInt64 := 0;
    var shift := 0;
    ghost var k := 0;
    assert s[..0] == [] && VarintValue([]) == 0;
    hide RawValue, VarintValue, Pow2;
    while true
      invariant 0 <= k <= MAX_GROUPS && shift == 7 * k && i == start + k && k <= |s|
      invariant ScanVarint(s, 0) == ScanVarint(s, k)
      invariant wire == VarintValue(s[..k])
      decreases MAX_GROUPS - k
    {
      if shift >= 64 {
        return Err(IntOverflow);
      }
      if i >= |data| {
        return Err(UnexpectedEOF);
      }
      var b := data[i];
      assert b == s[k];
      i := i + 1;
      wire := OrGroup(wire, b, shift, s, k);
      if b < 0x80 {
        return Ok((wire, i));
      }
      shift := shift + 7;
      k := k + 1;
    }
  }

  /** The continuation byte the encoder writes. */
  method ContinuationByte(rest: UInt64) returns (b: Byte)
    ensures b == rest % 128 + 128
  {
    MaskSeven(rest);
    assert Pow2(7) == 128;
    BitOrDisjoint(rest % 128, 1, 7);
    b := BitOr(BitAnd(rest, 0x7F), 0x80);
  }

  lemma EncodeVarintStep(done: Bytes, v: nat)
    ensures v < 0x80 ==> EncodeVarint(v) == [v]
    ensures v >= 0x80 ==>
              && |EncodeVarint(v)| == 1 + |EncodeVarint(v / 128)|
              && done + EncodeVarint(v) == (done + [v % 128 + 128]) + EncodeVarint(v / 128)
  {
  }

  /** Writes `v` so that it ends just before `offset`, and returns where it starts. */
  method WriteVarint(data: array<Byte>, offset: nat, v: UInt64) returns (base: nat)
    requires |EncodeVarint(v)| <= offset <= data.Length
    modifies data
    ensures base == offset - |EncodeVarint(v)|
    ensures data[..base] == old(data[..base])
    ensures data[base..offset] == EncodeVarint(v)
    ensures data[offset..] == old(data[offset..])
  {
    hide EncodeVarint, Sov;
    SovIsLength(v);
    var at := offset - Sov(v);
    base := at;
    var rest := v;
    while rest >= 0x80
      invariant base <= at && at + |EncodeVarint(rest)| == offset
      invariant data[..base] == old(data[..base])
      invariant data[offset..] == old(data[offset..])
      invariant data[base..at] + EncodeVarint(rest) == EncodeVarint(v)
    {
      var b := ContinuationByte(rest);
      ghost var done := data[base..at];
      EncodeVarintStep(done, rest);
      data[at] := b;
      assert data[base..at + 1] == done + [b];
      rest := rest / 128;
      at := at + 1;
    }
    ghost var done := data[base..at];
    EncodeVarintStep(done, rest);
    data[at] := rest;
    assert data[base..offset] == done + [rest];
  }
}
