/**
 * Bytes, little- and big-endian words, and the bit strings that the shift-and-xor code works on.
 *
 * Integers are unbounded here, so every fixed width is stated: a `byte` is below 256, a `u32` below 2^32.
 */
module Words {
  type byte = x: int | 0 <= x < 0x100
  type u16 = x: int | 0 <= x < 0x1_0000
  type u32 = x: int | 0 <= x < 0x1_0000_0000
  type u64 = x: int | 0 <= x < 0x1_0000_0000_0000_0000
  type Bytes = seq<byte>

  const U32_MAX: u32 := 0xffff_ffff
  const U64_MAX: u64 := 0xffff_ffff_ffff_ffff

  datatype Option<+T> = None | Some(value: T)

  datatype Result<+T, +E> = Ok(value: T) | Err(error: E)

  function Min(a: int, b: int): (m: int)
    ensures m <= a && m <= b && (m == a || m == b)
  {
    if a <= b then a else b
  }

  /** `now.saturating_sub(then)` on unsigned numbers. */
  function SaturatingSub(a: nat, b: nat): nat {
    if a < b then 0 else a - b
  }

  /** `count` copies of one byte. */
  function Fill(count: nat, value: byte): (r: Bytes)
    ensures |r| == count && forall i :: 0 <= i < count ==> r[i] == value
  {
    seq(count, _ => value)
  }

  lemma SliceOfSlice(b: Bytes, from: nat, to: nat, lo: nat, hi: nat)
    requires from <= to <= |b| && lo <= hi <= to - from
    ensures b[from..to][lo..hi] == b[from + lo..from + hi]
  {
    var x, y := b[from..to][lo..hi], b[from + lo..from + hi];
    assert forall i :: 0 <= i < hi - lo ==> x[i] == b[from..to][lo + i] == y[i];
  }

  function Le16(b: Bytes): u16
    requires |b| == 2
  {
    (b[0] as int) + 0x100 * (b[1] as int)
  }

  /** The number that four little-endian bytes spell. */
  function FromLe32(b: Bytes): u32
    requires |b| == 4
  {
    (b[0] as int) + 0x100 * (b[1] as int) + 0x1_0000 * (b[2] as int) + 0x100_0000 * (b[3] as int)
  }

  function ToLe32(n: u32): (b: Bytes)
    ensures |b| == 4
  {
    [n % 0x100, n / 0x100 % 0x100, n / 0x1_0000 % 0x100, n / 0x100_0000]
  }

  function FromBe32(b: Bytes): u32
    requires |b| == 4
  {
    (b[3] as int) + 0x100 * (b[2] as int) + 0x1_0000 * (b[1] as int) + 0x100_0000 * (b[0] as int)
  }

  function ToBe32(n: u32): (b: Bytes)
    ensures |b| == 4
  {
    [n / 0x100_0000, n / 0x1_0000 % 0x100, n / 0x100 % 0x100, n % 0x100]
  }

  lemma Le32RoundTrip(n: u32)
    ensures FromLe32(ToLe32(n)) == n
  {
    var q0 := n / 0x100;
    var q1 := n / 0x1_0000;
    assert q1 == q0 / 0x100;
    assert n / 0x100_0000 == q1 / 0x100;
  }

  lemma Le32Injective(a: Bytes, b: Bytes)
    requires |a| == 4 && |b| == 4 && FromLe32(a) == FromLe32(b)
    ensures a == b
  {
    LowByteAndRest(a[0], (a[1] as int) + 0x100 * (a[2] as int) + 0x1_0000 * (a[3] as int),
                   b[0], (b[1] as int) + 0x100 * (b[2] as int) + 0x1_0000 * (b[3] as int));
    LowByteAndRest(a[1], (a[2] as int) + 0x100 * (a[3] as int), b[1], (b[2] as int) + 0x100 * (b[3] as int));
    LowByteAndRest(a[2], a[3], b[2], b[3]);
  }

  /** A number determines its low byte and what is above it. */
  lemma LowByteAndRest(x: byte, m: int, y: byte, n: int)
    requires x + 0x100 * m == y + 0x100 * n
    ensures x == y && m == n
  {
  }

  lemma Be32RoundTrip(n: u32)
    ensures FromBe32(ToBe32(n)) == n
  {
    var q0 := n / 0x100;
    var q1 := n / 0x1_0000;
    assert q1 == q0 / 0x100;
    assert n / 0x100_0000 == q1 / 0x100;
  }
}

/** Bit strings, least significant bit first, with the word operations of a `u32`. */
module Bits {
  import opened Words

  type Bitstring = seq<bool>
  type Word = w: Bitstring | |w| == 32 witness seq(32, _ => false)

  /** The low `k` bits of `n`. */
  function ToBits(n: nat, k: nat): (b: Bitstring)
    ensures |b| == k
  {
    if k == 0 then [] else [n % 2 == 1] + ToBits(n / 2, k - 1)
  }

  function FromBits(b: Bitstring): nat {
    if b == [] then 0 else (if b[0] then 1 else 0) + 2 * FromBits(b[1..])
  }

  function Pow2(k: nat): (p: nat)
    ensures p > 0
  {
    if k == 0 then 1 else 2 * Pow2(k - 1)
  }

  function Xor(a: Bitstring, b: Bitstring): (r: Bitstring)
    requires |a| == |b|
    ensures |r| == |a| && forall i :: 0 <= i < |r| ==> r[i] == (a[i] != b[i])
  {
    seq(|a|, i requires 0 <= i < |a| && |a| == |b| => a[i] != b[i])
  }

  function Not(a: Bitstring): (r: Bitstring)
    ensures |r| == |a| && forall i :: 0 <= i < |r| ==> r[i] == !a[i]
  {
    seq(|a|, i requires 0 <= i < |a| => !a[i])
  }

  function Zeros(k: nat): (r: Bitstring)
    ensures |r| == k && forall i :: 0 <= i < k ==> !r[i]
  {
    seq(k, _ => false)
  }

  lemma FirstBit(n: nat, k: nat)
    ensures ToBits(n, k + 1) == [n % 2 == 1] + ToBits(n / 2, k)
  {
  }

  lemma {:induction false} FromToBits(n: nat, k: nat)
    requires n < Pow2(k)
    ensures FromBits(ToBits(n, k)) == n
  {
    if k > 0 {
      FromToBits(n / 2, k - 1);
      assert ToBits(n, k)[1..] == ToBits(n / 2, k - 1);
    }
  }

  lemma {:induction false} ToFromBits(b: Bitstring)
    ensures FromBits(b) < Pow2(|b|)
    ensures ToBits(FromBits(b), |b|) == b
  {
    if b != [] {
      ToFromBits(b[1..]);
      assert FromBits(b) / 2 == FromBits(b[1..]);
      assert b == [b[0]] + b[1..];
    }
  }

  lemma {:induction false} ZeroToBits(k: nat)
    ensures ToBits(0, k) == Zeros(k)
  {
    if k > 0 {
      ZeroToBits(k - 1);
      assert Zeros(k) == [false] + Zeros(k - 1);
    }
  }

  /** A number below 2^j has its high bits clear. */
  lemma {:induction false} HighBitsClear(n: nat, j: nat, k: nat)
    requires n < Pow2(j)
    ensures ToBits(n, j + k) == ToBits(n, j) + Zeros(k)
  {
    if j == 0 {
      ZeroToBits(k);
    } else {
      HighBitsClear(n / 2, j - 1, k);
    }
  }

  /** `q` shifted left by `j`. */
  function ShiftUp(q: nat, j: nat): nat {
    if j == 0 then q else 2 * ShiftUp(q, j - 1)
  }

  /** Splitting off the low `j` bits. */
  lemma {:induction false} SplitBits(q: nat, r: nat, j: nat, k: nat)
    requires r < Pow2(j)
    ensures ToBits(ShiftUp(q, j) + r, j + k) == ToBits(r, j) + ToBits(q, k)
  {
    if j > 0 {
      SplitBits(q, r / 2, j - 1, k);
      var n := ShiftUp(q, j) + r;
      assert n % 2 == r % 2 && n / 2 == ShiftUp(q, j - 1) + r / 2;
    }
  }

  lemma DoubleProduct(q: nat, p: nat)
    ensures 2 * (q * p) == q * (2 * p)
  {
  }

  lemma {:induction false} ShiftUpIsTimes(q: nat, j: nat)
    ensures ShiftUp(q, j) == q * Pow2(j)
  {
    if j > 0 {
      ShiftUpIsTimes(q, j - 1);
      DoubleProduct(q, Pow2(j - 1));
    }
  }

  lemma Pow2Of31()
    ensures Pow2(31) == 0x8000_0000
  {
    assert Pow2(4) == 16;
    assert Pow2(8) == 0x100;
    assert Pow2(12) == 0x1000;
    assert Pow2(16) == 0x1_0000;
    assert Pow2(20) == 0x10_0000;
    assert Pow2(24) == 0x100_0000;
    assert Pow2(28) == 0x1000_0000;
    assert Pow2(30) == 0x4000_0000;
  }

  lemma Pow2Of32()
    ensures Pow2(32) == 0x1_0000_0000
  {
    Pow2Of31();
  }
}
