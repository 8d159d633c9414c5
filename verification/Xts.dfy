/**
 * AES-XTS as the macOS key helper computes it (tools/macos-key-helper/Crypto.swift): flash is encrypted in 128-byte
 * units, each reversed byte by byte, with one tweak chain a unit.
 *
 * AES is an arbitrary keyed permutation of 16-byte blocks.
 */
module Xts {
  import opened Words
  import opened Bits

  /** A byte as its bits, the least significant first. */
  datatype Octet = Octet(b0: bool, b1: bool, b2: bool, b3: bool, b4: bool, b5: bool, b6: bool, b7: bool) {
    function Bit(i: nat): bool {
      if i == 0 then b0 else if i == 1 then b1 else if i == 2 then b2 else if i == 3 then b3
      else if i == 4 then b4 else if i == 5 then b5 else if i == 6 then b6 else b7
    }

    function Xor(o: Octet): Octet {
      Octet(b0 != o.b0, b1 != o.b1, b2 != o.b2, b3 != o.b3, b4 != o.b4, b5 != o.b5, b6 != o.b6, b7 != o.b7)
    }

    /** Shifted left by one bit, `carry` coming in. */
    function ShiftIn(carry: bool): Octet {
      Octet(carry, b0, b1, b2, b3, b4, b5, b6)
    }
  }

  type Octets = seq<Octet>
  type Block = b: Octets | |b| == 16 witness Blank(16)

  const ZERO := Octet(false, false, false, false, false, false, false, false)

  /** The byte 0x87: x^7 + x^2 + x + 1. */
  const REDUCTION := Octet(true, true, true, false, false, false, false, true)

  /** `run(key, block, decrypt)`. */
  datatype Cipher = Cipher(run: (Octets, Block, bool) -> Block)

  function Aes(cipher: Cipher, key: Octets, block: Octets, decrypt: bool): (r: Octets)
    requires |block| == 16
    ensures |r| == 16
  {
    cipher.run(key, block, decrypt)
  }

  ghost predicate IsPermutation(cipher: Cipher) {
    && (forall key, b :: cipher.run(key, cipher.run(key, b, false), true) == b)
    && (forall key, b :: cipher.run(key, cipher.run(key, b, true), false) == b)
  }

  function OctetOf(b: byte): Octet {
    var t := ToBits(b, 8);
    Octet(t[0], t[1], t[2], t[3], t[4], t[5], t[6], t[7])
  }

  function Blank(count: nat): (r: Octets)
    ensures |r| == count
  {
    seq(count, _ => ZERO)
  }

  function Reversed(s: Octets): (r: Octets)
    ensures |r| == |s| && forall i :: 0 <= i < |s| ==> r[i] == s[|s| - 1 - i]
  {
    seq(|s|, i requires 0 <= i < |s| => s[|s| - 1 - i])
  }

  function XorBlock(a: Octets, b: Octets): (r: Octets)
    requires |a| == |b| == 16
    ensures |r| == 16 && forall i :: 0 <= i < 16 ==> r[i] == a[i].Xor(b[i])
  {
    seq(16, i requires 0 <= i < 16 => a[i].Xor(b[i]))
  }

  // ---- The standard's definition, block by block ----

  /** The four low bytes of the unit address, least significant first, then zeros. */
  function RawTweak(address: u32): (r: Octets)
    ensures |r| == 16
  {
    var bytes := ToLe32(address);
    [OctetOf(bytes[0]), OctetOf(bytes[1]), OctetOf(bytes[2]), OctetOf(bytes[3])] + Blank(12)
  }

  /** Byte `i` of a block shifted left by one bit, the top bit of the byte before it coming in. */
  function ShiftedByte(t: Octets, i: nat): Octet
    requires i < |t|
  {
    t[i].ShiftIn(i > 0 && t[i - 1].b7)
  }

  /** One step of the tweak chain: shift the whole block, and fold the bit that falls out back in. */
  function Doubled(t: Octets): (r: Octets)
    requires |t| == 16
    ensures |r| == 16
  {
    var shifted := seq(16, i requires 0 <= i < 16 => ShiftedByte(t, i));
    if t[15].b7 then shifted[0 := shifted[0].Xor(REDUCTION)] else shifted
  }

  function Tweak(cipher: Cipher, key: Octets, unit: u32, step: nat): (r: Octets)
    ensures |r| == 16
  {
    if step == 0 then Aes(cipher, key, RawTweak(unit), false) else Doubled(Tweak(cipher, key, unit, step - 1))
  }

  /** What becomes of the 16 bytes at address 16 * n: it depends on nothing but them, n and the key. */
  function XtsBlock(cipher: Cipher, key: Octets, n: nat, block: Octets, decrypt: bool): (r: Octets)
    requires |key| == 32 && n < 0x1000_0000 && |block| == 16
    ensures |r| == 16
  {
    var tweak := Tweak(cipher, key[16..], n / 8 * 128, 7 - n % 8);
    Reversed(XorBlock(Aes(cipher, key[..16], XorBlock(Reversed(block), tweak), decrypt), tweak))
  }

  /** `m` blocks of data, the first at address 16 * n. */
  function XtsOf(cipher: Cipher, key: Octets, n: nat, m: nat, data: Octets, decrypt: bool): (r: Octets)
    requires |key| == 32 && |data| == 16 * m && n + m <= 0x1000_0000
    ensures |r| == |data|
    decreases m
  {
    if m == 0 then []
    else XtsBlock(cipher, key, n, data[..16], decrypt) + XtsOf(cipher, key, n + 1, m - 1, data[16..], decrypt)
  }

  lemma XtsFirst(cipher: Cipher, key: Octets, n: nat, m: nat, first: Octets, rest: Octets, decrypt: bool)
    requires |key| == 32 && |first| == 16 && |rest| == 16 * m && n + 1 + m <= 0x1000_0000
    ensures XtsOf(cipher, key, n, m + 1, first + rest, decrypt) ==
            XtsBlock(cipher, key, n, first, decrypt) + XtsOf(cipher, key, n + 1, m, rest, decrypt)
  {
    hide XtsBlock;
    assert (first + rest)[..16] == first && (first + rest)[16..] == rest;
  }

  // ---- The tweak chain ----

  /** The bits of a block, least significant bit of the first byte first. */
  function Flat(t: Octets): (b: Bitstring)
    requires |t| == 16
    ensures |b| == 128
  {
    seq(128, i requires 0 <= i < 128 => t[i / 8].Bit(i % 8))
  }

  /** Multiplication by x in GF(2^128) modulo x^128 + x^7 + x^2 + x + 1. */
  function TimesX(b: Bitstring): (r: Bitstring)
    requires |b| == 128
    ensures |r| == 128
  {
    seq(128, i requires 0 <= i < 128 => (i > 0 && b[i - 1]) != (b[127] && (i == 0 || i == 1 || i == 2 || i == 7)))
  }

  lemma DoubledBit(t: Octets, q: nat, r: nat)
    requires |t| == 16 && q < 16 && r < 8
    ensures Doubled(t)[q].Bit(r) ==
            ((if r > 0 then t[q].Bit(r - 1) else q > 0 && t[q - 1].b7) !=
             (t[15].b7 && q == 0 && (r == 0 || r == 1 || r == 2 || r == 7)))
  {
  }

  /** A step of the tweak chain is multiplication by x: shifting bytes with a carry shifts the whole block. */
  lemma DoubledIsTimesX(t: Octets)
    requires |t| == 16
    ensures Flat(Doubled(t)) == TimesX(Flat(t))
  {
    hide Doubled;
    forall i | 0 <= i < 128 ensures Flat(Doubled(t))[i] == TimesX(Flat(t))[i] {
      var q, r := i / 8, i % 8;
      DoubledBit(t, q, r);
      assert Flat(t)[127] == t[15].b7;
      if r > 0 {
        assert (i - 1) / 8 == q && (i - 1) % 8 == r - 1;
      } else if q > 0 {
        assert (i - 1) / 8 == q - 1 && (i - 1) % 8 == 7;
      }
    }
  }

  /** `b` times x^j. */
  function TimesPower(b: Bitstring, j: nat): (r: Bitstring)
    requires |b| == 128
    ensures |r| == 128
  {
    if j == 0 then b else TimesX(TimesPower(b, j - 1))
  }

  /** The chain multiplies the first tweak, the encrypted unit address, by the powers of x. */
  lemma {:induction false} TweakIsPower(cipher: Cipher, key: Octets, unit: u32, j: nat)
    ensures Flat(Tweak(cipher, key, unit, j)) == TimesPower(Flat(Tweak(cipher, key, unit, 0)), j)
  {
    hide Doubled, TimesX, Flat, Aes;
    if j > 0 {
      TweakIsPower(cipher, key, unit, j - 1);
      DoubledIsTimesX(Tweak(cipher, key, unit, j - 1));
    }
  }

  lemma OctetBits(b: byte, r: nat)
    requires r < 8
    ensures OctetOf(b).Bit(r) == ToBits(b, 8)[r]
  {
    hide ToBits;
  }

  lemma LowByte(n: nat, k: nat)
    ensures ToBits(n, 8 + k) == ToBits(n % 0x100, 8) + ToBits(n / 0x100, k)
  {
    hide ToBits;
    var q := n / 0x100;
    assert Pow2(4) == 16 && Pow2(8) == 0x100;
    ShiftUpIsTimes(q, 8);
    hide ShiftUp;
    SplitBits(q, n % 0x100, 8, k);
  }

  lemma FourBytes(n: u32)
    ensures var b := ToLe32(n);
            ToBits(n, 32) == ToBits(b[0], 8) + ToBits(b[1], 8) + ToBits(b[2], 8) + ToBits(b[3], 8)
  {
    hide ToBits;
    LowByte(n, 24);
    LowByte(n / 0x100, 16);
    LowByte(n / 0x1_0000, 8);
    assert n / 0x100 / 0x100 == n / 0x1_0000 && n / 0x1_0000 / 0x100 == n / 0x100_0000;
    assert ToBits(n / 0x100_0000, 0) == [] by { NoBits(n / 0x100_0000); }
  }

  lemma NoBits(n: nat)
    ensures ToBits(n, 0) == []
  {
  }

  lemma FlatBit(t: Octets, q: nat, r: nat)
    requires |t| == 16 && q < 16 && r < 8
    ensures Flat(t)[8 * q + r] == t[q].Bit(r)
  {
  }

  lemma AddressBit(address: u32, q: nat, r: nat)
    requires q < 16 && r < 8
    ensures ToBits(address, 128)[8 * q + r] == (q < 4 && ToBits(ToLe32(address)[q], 8)[r])
  {
    hide ToBits, ToLe32;
    var b := ToLe32(address);
    Pow2Of32();
    HighBitsClear(address, 32, 96);
    FourBytes(address);
  }

  lemma RawTweakBit(address: u32, q: nat, r: nat)
    requires q < 16 && r < 8
    ensures RawTweak(address)[q].Bit(r) == (q < 4 && ToBits(ToLe32(address)[q], 8)[r])
  {
    hide ToBits, ToLe32, OctetOf;
    if q < 4 { OctetBits(ToLe32(address)[q], r); }
  }

  /** The first block that is encrypted for the tweak is the unit's address as a 128-bit little-endian number. */
  lemma RawTweakIsAddress(address: u32)
    ensures Flat(RawTweak(address)) == ToBits(address, 128)
  {
    hide ToBits, ToLe32, Flat, RawTweak;
    var x, y := Flat(RawTweak(address)), ToBits(address, 128);
    forall i | 0 <= i < 128 ensures x[i] == y[i] {
      FlatBit(RawTweak(address), i / 8, i % 8);
      RawTweakBit(address, i / 8, i % 8);
      AddressBit(address, i / 8, i % 8);
    }
  }

  // ---- What the definition promises ----

  lemma XorTwice(a: Octets, b: Octets)
    requires |a| == |b| == 16
    ensures XorBlock(XorBlock(a, b), b) == a
  {
    forall i | 0 <= i < 16 ensures XorBlock(XorBlock(a, b), b)[i] == a[i] {
      assert a[i].Xor(b[i]).Xor(b[i]) == a[i];
    }
  }

  lemma ReversedTwice(s: Octets)
    ensures Reversed(Reversed(s)) == s
  {
  }

  lemma AesUndone(cipher: Cipher, key: Octets, block: Octets, decrypt: bool)
    requires IsPermutation(cipher) && |block| == 16
    ensures Aes(cipher, key, Aes(cipher, key, block, decrypt), !decrypt) == block
  {
    var b: Block := block;
    assert cipher.run(key, cipher.run(key, b, decrypt), !decrypt) == b;
  }

  /** One pass undoes the other on every block. */
  lemma BlockRoundTrip(cipher: Cipher, key: Octets, n: nat, block: Octets, decrypt: bool)
    requires IsPermutation(cipher) && |key| == 32 && n < 0x1000_0000 && |block| == 16
    ensures XtsBlock(cipher, key, n, XtsBlock(cipher, key, n, block, decrypt), !decrypt) == block
  {
    hide Tweak, Aes, IsPermutation, XorBlock, Reversed;
    var tweak := Tweak(cipher, key[16..], n / 8 * 128, 7 - n % 8);
    var masked := XorBlock(Reversed(block), tweak);
    var inner := Aes(cipher, key[..16], masked, decrypt);
    ReversedTwice(XorBlock(inner, tweak));
    XorTwice(inner, tweak);
    AesUndone(cipher, key[..16], masked, decrypt);
    XorTwice(Reversed(block), tweak);
    ReversedTwice(block);
  }

  /** Decrypting an encryption, or encrypting a decryption, gives the data back. */
  lemma {:induction false} RoundTrip(cipher: Cipher, key: Octets, n: nat, m: nat, data: Octets, decrypt: bool)
    requires IsPermutation(cipher) && |key| == 32 && |data| == 16 * m && n + m <= 0x1000_0000
    ensures XtsOf(cipher, key, n, m, XtsOf(cipher, key, n, m, data, decrypt), !decrypt) == data
    decreases m
  {
    hide XtsOf, XtsBlock, IsPermutation;
    if m == 0 {
      NoBlocks(cipher, key, n, data, decrypt);
      NoBlocks(cipher, key, n, data, !decrypt);
    } else {
      RoundTrip(cipher, key, n + 1, m - 1, data[16..], decrypt);
      RoundTripFirst(cipher, key, n, m - 1, data[..16], data[16..], decrypt);
      assert data == data[..16] + data[16..];
    }
  }

  lemma NoBlocks(cipher: Cipher, key: Octets, n: nat, data: Octets, decrypt: bool)
    requires |key| == 32 && data == [] && n <= 0x1000_0000
    ensures XtsOf(cipher, key, n, 0, data, decrypt) == []
  {
  }

  lemma RoundTripFirst(cipher: Cipher, key: Octets, n: nat, m: nat, first: Octets, rest: Octets, decrypt: bool)
    requires IsPermutation(cipher) && |key| == 32 && |first| == 16 && |rest| == 16 * m && n + 1 + m <= 0x1000_0000
    requires XtsOf(cipher, key, n + 1, m, XtsOf(cipher, key, n + 1, m, rest, decrypt), !decrypt) == rest
    ensures XtsOf(cipher, key, n, m + 1, XtsOf(cipher, key, n, m + 1, first + rest, decrypt), !decrypt) == first + rest
  {
    hide XtsOf, XtsBlock, IsPermutation;
    BlockRoundTrip(cipher, key, n, first, decrypt);
    XtsFirst(cipher, key, n, m, first, rest, decrypt);
    XtsFirst(cipher, key, n, m, XtsBlock(cipher, key, n, first, decrypt),
             XtsOf(cipher, key, n + 1, m, rest, decrypt), !decrypt);
  }

  /** Locality: a run of data is treated piece by piece, each at its own address, wherever it is cut. */
  lemma {:induction false} Locality(
    cipher: Cipher, key: Octets, n: nat, k: nat, a: Octets, m: nat, b: Octets, decrypt: bool)
    requires |key| == 32 && |a| == 16 * k && |b| == 16 * m && n + k + m <= 0x1000_0000
    ensures XtsOf(cipher, key, n, k + m, a + b, decrypt) ==
            XtsOf(cipher, key, n, k, a, decrypt) + XtsOf(cipher, key, n + k, m, b, decrypt)
    decreases k
  {
    hide XtsOf, XtsBlock;
    if k == 0 {
      LocalityEmpty(cipher, key, n, a, m, b, decrypt);
    } else {
      Locality(cipher, key, n + 1, k - 1, a[16..], m, b, decrypt);
      LocalityFirst(cipher, key, n, k - 1, a[..16], a[16..], m, b, decrypt);
      assert a == a[..16] + a[16..];
    }
  }

  lemma LocalityEmpty(cipher: Cipher, key: Octets, n: nat, a: Octets, m: nat, b: Octets, decrypt: bool)
    requires |key| == 32 && a == [] && |b| == 16 * m && n + m <= 0x1000_0000
    ensures XtsOf(cipher, key, n, m, a + b, decrypt) ==
            XtsOf(cipher, key, n, 0, a, decrypt) + XtsOf(cipher, key, n, m, b, decrypt)
  {
    assert a + b == b;
  }

  lemma LocalityFirst(
    cipher: Cipher, key: Octets, n: nat, k: nat, first: Octets, rest: Octets, m: nat, b: Octets, decrypt: bool)
    requires |key| == 32 && |first| == 16 && |rest| == 16 * k && |b| == 16 * m && n + 1 + k + m <= 0x1000_0000
    requires XtsOf(cipher, key, n + 1, k + m, rest + b, decrypt) ==
             XtsOf(cipher, key, n + 1, k, rest, decrypt) + XtsOf(cipher, key, n + 1 + k, m, b, decrypt)
    ensures XtsOf(cipher, key, n, k + 1 + m, first + rest + b, decrypt) ==
            XtsOf(cipher, key, n, k + 1, first + rest, decrypt) + XtsOf(cipher, key, n + 1 + k, m, b, decrypt)
  {
    hide XtsOf, XtsBlock;
    assert first + rest + b == first + (rest + b);
    XtsFirst(cipher, key, n, k, first, rest, decrypt);
    XtsFirst(cipher, key, n, k + m, first, rest + b, decrypt);
  }

  /** Each block of the result depends on the block in its place alone. */
  lemma XtsAt(cipher: Cipher, key: Octets, n: nat, m: nat, data: Octets, k: nat, decrypt: bool)
    requires |key| == 32 && |data| == 16 * m && n + m <= 0x1000_0000 && k < m
    ensures XtsOf(cipher, key, n, m, data, decrypt)[16 * k..16 * k + 16] ==
            XtsBlock(cipher, key, n + k, data[16 * k..16 * k + 16], decrypt)
  {
    hide XtsOf, XtsBlock;
    var a, b, c := data[..16 * k], data[16 * k..16 * k + 16], data[16 * k + 16..];
    Locality(cipher, key, n, k, a, m - k, b + c, decrypt);
    XtsFirst(cipher, key, n + k, m - k - 1, b, c, decrypt);
    assert data == a + (b + c);
  }

  /** What IEEE Std 1619 does with one block of a data unit, given its tweak. */
  function StandardBlock(cipher: Cipher, key: Octets, tweak: Octets, block: Octets, decrypt: bool): (r: Octets)
    requires |block| == |tweak| == 16
    ensures |r| == 16
  {
    XorBlock(Aes(cipher, key, XorBlock(block, tweak), decrypt), tweak)
  }

  /**
   * Reversed, a 128-byte unit is a data unit of the standard: its block j is masked with the encryption, under the
   * second half of the key, of the unit's address, times x^j, around one AES call under the first half.
   */
  lemma UnitIsStandard(cipher: Cipher, key: Octets, u: nat, unit: Octets, j: nat, decrypt: bool)
    returns (raw: Octets, tweak: Octets)
    requires |key| == 32 && |unit| == 128 && u < 0x200_0000 && j < 8
    ensures |raw| == 16 && Flat(raw) == ToBits(128 * u, 128)
    ensures |tweak| == 16 && Flat(tweak) == TimesPower(Flat(Aes(cipher, key[16..], raw, false)), j)
    ensures Reversed(XtsOf(cipher, key, 8 * u, 8, unit, decrypt))[16 * j..16 * j + 16] ==
            StandardBlock(cipher, key[..16], tweak, Reversed(unit)[16 * j..16 * j + 16], decrypt)
  {
    hide XtsOf, XtsBlock, Flat, ToBits, TimesPower, RawTweak, Aes, Reversed, XorBlock;
    raw, tweak := RawTweak(128 * u), Tweak(cipher, key[16..], 128 * u, j);
    RawTweakIsAddress(128 * u);
    TweakIsPower(cipher, key[16..], 128 * u, j);
    var block := StandardBlock(cipher, key[..16], tweak, Reversed(unit)[16 * j..16 * j + 16], decrypt);
    UnitBlock(cipher, key, u, unit, j, decrypt);
    XtsAt(cipher, key, 8 * u, 8, unit, 7 - j, decrypt);
    BlockOfReversed(XtsOf(cipher, key, 8 * u, 8, unit, decrypt), j, block);
  }

  lemma BlockOfReversed(unit: Octets, j: nat, block: Octets)
    requires |unit| == 128 && j < 8 && |block| == 16
    requires unit[16 * (7 - j)..16 * (7 - j) + 16] == Reversed(block)
    ensures Reversed(unit)[16 * j..16 * j + 16] == block
  {
    hide Reversed;
    ReversedSlice(unit, 112 - 16 * j, 128 - 16 * j);
    ReversedTwice(block);
  }

  // ---- The program ----

  datatype Failure = InvalidInput | AesFailed

  /** The AES calls from `first` on, `count` of them, succeed. */
  ghost predicate AllWork(works: nat -> bool, first: nat, count: nat) {
    forall k: nat :: first <= k < first + count ==> works(k)
  }

  lemma OneMoreCall(works: nat -> bool, first: nat, count: nat, total: nat)
    requires count < total
    ensures AllWork(works, first, 0)
    ensures works(first + count) ==> AllWork(works, first, count + 1) == AllWork(works, first, count)
    ensures !works(first + count) ==> !AllWork(works, first, total)
  {
  }

  /** Moves the tweak on in place: shift every byte, carry its top bit, fold the last carry back. */
  method StepTweak(tweak: array<Octet>)
    requires tweak.Length == 16
    modifies tweak
    ensures tweak[..] == Doubled(old(tweak[..]))
  {
    ghost var before := tweak[..];
    var carry := false;
    for i := 0 to 16
      invariant carry == (i > 0 && before[i - 1].b7)
      invariant forall k :: 0 <= k < i ==> tweak[k] == ShiftedByte(before, k)
      invariant forall k :: i <= k < 16 ==> tweak[k] == before[k]
    {
      var next := tweak[i].b7;
      tweak[i] := tweak[i].ShiftIn(carry);
      carry := next;
    }
    if carry {
      tweak[0] := tweak[0].Xor(REDUCTION);
    }
  }

  /**
   * One 128-byte unit: from its last block to its first, since the unit is processed reversed. The nine AES calls are
   * those from `call` on; the first that fails ends it.
   */
  method CryptUnit(
    cipher: Cipher, works: nat -> bool, call: nat, key: Octets, u: nat, address: u32, unit: Octets, decrypt: bool)
    returns (output: Option<Octets>)
    requires |key| == 32 && |unit| == 128 && address == 128 * u
    ensures output.Some? <==> AllWork(works, call, 9)
    ensures output.Some? ==> output.value == XtsOf(cipher, key, 8 * u, 8, unit, decrypt)
  {
    hide *;
    OneMoreCall(works, call, 0, 9);
    if !works(call) {
      return None;
    }
    var first := Aes(cipher, key[16..], RawTweak(address), false);
    var tweak := new Octet[16](i requires 0 <= i < 16 => first[i]);
    assert tweak[..] == first;
    var block := Reversed(unit);
    var result: Octets := [];
    HalfwayStart(cipher, key, u, address, unit, decrypt);
    for k := 0 to 8
      invariant AllWork(works, call, 1 + k)
      invariant Halfway(cipher, key, u, unit, decrypt, k, tweak[..], result)
    {
      OneMoreCall(works, call, 1 + k, 9);
      if !works(call + 1 + k) {
        return None;
      }
      var y := CryptBlock(cipher, key[..16], block[16 * k..16 * k + 16], tweak[..], decrypt);
      HalfwayNext(cipher, key, u, unit, decrypt, k, tweak[..], result, y);
      result := result + y;
      StepTweak(tweak);
    }
    HalfwayEnd(cipher, key, u, unit, decrypt, tweak[..], result);
    output := Some(Reversed(result));
  }

  /** After `k` blocks of the reversed unit: the tweak is the k-th, and what there is, reversed, is the unit's tail. */
  predicate Halfway(
    cipher: Cipher, key: Octets, u: nat, unit: Octets, decrypt: bool, k: nat, tweak: Octets, result: Octets)
    requires |key| == 32 && |unit| == 128 && u < 0x200_0000 && k <= 8
  {
    && tweak == Tweak(cipher, key[16..], 128 * u, k)
    && Reversed(result) == XtsOf(cipher, key, 8 * u + 8 - k, k, unit[128 - 16 * k..], decrypt)
  }

  lemma HalfwayStart(cipher: Cipher, key: Octets, u: nat, address: u32, unit: Octets, decrypt: bool)
    requires |key| == 32 && |unit| == 128 && address == 128 * u
    ensures Halfway(cipher, key, u, unit, decrypt, 0, Aes(cipher, key[16..], RawTweak(address), false), [])
  {
    hide Aes, RawTweak;
    UnitEmpty(cipher, key, u, unit, decrypt);
  }

  lemma HalfwayNext(
    cipher: Cipher, key: Octets, u: nat, unit: Octets, decrypt: bool, k: nat, tweak: Octets, result: Octets, y: Octets)
    requires |key| == 32 && |unit| == 128 && u < 0x200_0000 && k < 8 && |tweak| == 16
    requires Halfway(cipher, key, u, unit, decrypt, k, tweak, result)
    requires y == XorBlock(Aes(cipher, key[..16], XorBlock(Reversed(unit)[16 * k..16 * k + 16], tweak), decrypt), tweak)
    ensures Halfway(cipher, key, u, unit, decrypt, k + 1, Doubled(tweak), result + y)
  {
    hide XtsOf, XtsBlock, Doubled, Reversed, XorBlock, Aes;
    UnitBlock(cipher, key, u, unit, k, decrypt);
    UnitStep(cipher, key, u, unit, k, result, y, decrypt);
  }

  lemma HalfwayEnd(
    cipher: Cipher, key: Octets, u: nat, unit: Octets, decrypt: bool, tweak: Octets, result: Octets)
    requires |key| == 32 && |unit| == 128 && u < 0x200_0000
    requires Halfway(cipher, key, u, unit, decrypt, 8, tweak, result)
    ensures Reversed(result) == XtsOf(cipher, key, 8 * u, 8, unit, decrypt)
  {
    hide XtsOf, Reversed, Tweak;
    assert unit[0..] == unit;
  }

  method CryptBlock(cipher: Cipher, key: Octets, block: Octets, tweak: Octets, decrypt: bool) returns (y: Octets)
    requires |block| == |tweak| == 16
    ensures |y| == 16 && y == XorBlock(Aes(cipher, key, XorBlock(block, tweak), decrypt), tweak)
  {
    var x := XorBlock(block, tweak);
    y := XorBlock(Aes(cipher, key, x, decrypt), tweak);
  }

  lemma ReversedSlice(s: Octets, a: nat, b: nat)
    requires a <= b <= |s|
    ensures Reversed(s[a..b]) == Reversed(s)[|s| - b..|s| - a]
  {
    var x, y := Reversed(s[a..b]), Reversed(s)[|s| - b..|s| - a];
    assert forall i :: 0 <= i < b - a ==> x[i] == s[a..b][b - a - 1 - i] == y[i];
    assert x == y;
  }

  lemma UnitEmpty(cipher: Cipher, key: Octets, u: nat, unit: Octets, decrypt: bool)
    requires |key| == 32 && |unit| == 128 && u < 0x200_0000
    ensures Reversed([]) == XtsOf(cipher, key, 8 * u + 8, 0, unit[128..], decrypt)
  {
  }

  /** Block k of the reversed unit is block 7 - k of the unit, reversed, and its tweak is the k-th. */
  lemma UnitBlock(cipher: Cipher, key: Octets, u: nat, unit: Octets, k: nat, decrypt: bool)
    requires |key| == 32 && |unit| == 128 && u < 0x200_0000 && k < 8
    ensures var tweak := Tweak(cipher, key[16..], 128 * u, k);
            var x := XorBlock(Reversed(unit)[16 * k..16 * k + 16], tweak);
            Reversed(XorBlock(Aes(cipher, key[..16], x, decrypt), tweak)) ==
            XtsBlock(cipher, key, 8 * u + 7 - k, unit[112 - 16 * k..128 - 16 * k], decrypt)
  {
    hide Tweak, XorBlock, Aes;
    hide Reversed;
    var n := 8 * u + 7 - k;
    assert n / 8 == u && n % 8 == 7 - k;
    ReversedSlice(unit, 112 - 16 * k, 128 - 16 * k);
  }

  /** What has been produced, reversed, is the unit's tail; one more block comes in front of it. */
  lemma UnitStep(cipher: Cipher, key: Octets, u: nat, unit: Octets, k: nat, done: Octets, y: Octets, decrypt: bool)
    requires |key| == 32 && |unit| == 128 && u < 0x200_0000 && k < 8 && |y| == 16
    requires Reversed(done) == XtsOf(cipher, key, 8 * u + 8 - k, k, unit[128 - 16 * k..], decrypt)
    requires Reversed(y) == XtsBlock(cipher, key, 8 * u + 7 - k, unit[112 - 16 * k..128 - 16 * k], decrypt)
    ensures Reversed(done + y) == XtsOf(cipher, key, 8 * u + 7 - k, k + 1, unit[112 - 16 * k..], decrypt)
  {
    hide XtsOf, XtsBlock;
    var first, rest := unit[112 - 16 * k..128 - 16 * k], unit[128 - 16 * k..];
    assert unit[112 - 16 * k..] == first + rest;
    XtsFirst(cipher, key, 8 * u + 7 - k, k, first, rest, decrypt);
    assert Reversed(done + y) == Reversed(y) + Reversed(done);
  }

  predicate ValidInput(data: Octets, key: Octets, address: u32) {
    |key| == 32 && data != [] && |data| % 16 == 0 && address % 16 == 0 && address + |data| <= 0x1_0000_0000
  }

  /** How many 128-byte units the widened range has. */
  function Units(address: u32, length: nat): nat {
    var left := address % 128;
    (left + length + (128 - (left + length) % 128) % 128) / 128
  }

  /**
   * The whole helper. The range is widened to whole units with zeros in front and behind, every unit is processed,
   * and the widening is cut off again; the result is the standard's, and no unit address exceeds 32 bits. It fails
   * exactly on invalid input or at a failing AES call.
   */
  method Xts(cipher: Cipher, works: nat -> bool, data: Octets, key: Octets, address: u32, decrypt: bool)
    returns (r: Result<Octets, Failure>)
    ensures r == Err(InvalidInput) <==> !ValidInput(data, key, address)
    ensures r != Err(InvalidInput) <==>
            |key| == 32 && |data| > 0 && |data| % 16 == 0 && address % 16 == 0 && address + |data| <= 0x1_0000_0000
    ensures r == Err(AesFailed) <==>
            ValidInput(data, key, address) && !AllWork(works, 0, 9 * Units(address, |data|))
    ensures r.Ok? ==> ValidInput(data, key, address) &&
                      r.value == XtsOf(cipher, key, address / 16, |data| / 16, data, decrypt)
  {
    hide XtsOf, AllWork, Units;
    if !ValidInput(data, key, address) {
      return Err(InvalidInput);
    }
    var left := address % 128;
    var behind := (128 - (left + |data|) % 128) % 128;
    var input := Blank(left) + data + Blank(behind);
    WholeUnits(address, |data|);
    var output := CryptAll(cipher, works, key, address / 128, |input| / 128, input, decrypt);
    if output.None? {
      return Err(AesFailed);
    }
    Widened(cipher, key, address / 16, |data| / 16, data, address / 128, left / 16, behind / 16, decrypt);
    return Ok(output.value[left..left + |data|]);
  }

  lemma WholeUnits(address: u32, length: nat)
    requires address % 16 == 0 && length % 16 == 0 && address + length <= 0x1_0000_0000
    ensures var left := address % 128;
            var behind := (128 - (left + length) % 128) % 128;
            var units := (left + length + behind) / 128;
            && left == 16 * (left / 16) && behind == 16 * (behind / 16) && length == 16 * (length / 16)
            && left + length + behind == 128 * units && 8 * units == left / 16 + length / 16 + behind / 16
            && address / 16 == 8 * (address / 128) + left / 16
            && address / 128 + units <= 0x200_0000 && units == Units(address, length)
  {
    var a, l := address / 16, length / 16;
    var u, k := a / 8, a % 8;
    By128(address, u, 16 * k);
    var q, r := (k + l) / 8, (k + l) % 8;
    By128(16 * k + length, q, 16 * r);
    var back := if r == 0 then 0 else 8 - r;
    By128(128 - 16 * r, if r == 0 then 1 else 0, 16 * back);
    By128(16 * k + length + 16 * back, if r == 0 then q else q + 1, 0);
  }

  lemma By128(x: nat, q: nat, r: nat)
    requires x == 128 * q + r && r < 128
    ensures x / 128 == q && x % 128 == r
  {
  }

  /** Zeros around the data do not change what becomes of it. */
  lemma Widened(cipher: Cipher, key: Octets, n: nat, m: nat, data: Octets, u: nat, k: nat, l: nat, decrypt: bool)
    requires |key| == 32 && |data| == 16 * m && n == 8 * u + k && n + m + l <= 0x1000_0000
    ensures var wide := Blank(16 * k) + data + Blank(16 * l);
            XtsOf(cipher, key, 8 * u, k + m + l, wide, decrypt)[16 * k..16 * k + |data|] ==
            XtsOf(cipher, key, n, m, data, decrypt)
  {
    hide XtsOf;
    var front, back := Blank(16 * k), Blank(16 * l);
    Locality(cipher, key, 8 * u, k, front, m + l, data + back, decrypt);
    Locality(cipher, key, n, m, data, l, back, decrypt);
    assert front + data + back == front + (data + back);
  }

  method CryptAll(
    cipher: Cipher, works: nat -> bool, key: Octets, first: nat, units: nat, input: Octets, decrypt: bool)
    returns (output: Option<Octets>)
    requires |key| == 32 && |input| == 128 * units && first + units <= 0x200_0000
    ensures output.Some? <==> AllWork(works, 0, 9 * units)
    ensures output.Some? ==> output.value == XtsOf(cipher, key, 8 * first, 8 * units, input, decrypt)
  {
    hide XtsOf;
    var done: Octets := [];
    assert XtsOf(cipher, key, 8 * first, 0, input[..0], decrypt) == [];
    for u := 0 to units
      invariant AllWork(works, 0, 9 * u)
      invariant done == XtsOf(cipher, key, 8 * first, 8 * u, input[..128 * u], decrypt)
    {
      var pos := 128 * u;
      var unitAddress: u32 := 128 * first + pos;
      var unit := CryptUnit(cipher, works, 9 * u, key, first + u, unitAddress, input[pos..pos + 128], decrypt);
      if unit.None? {
        return None;
      }
      Locality(cipher, key, 8 * first, 8 * u, input[..pos], 8, input[pos..pos + 128], decrypt);
      assert input[..pos] + input[pos..pos + 128] == input[..pos + 128];
      done := done + unit.value;
    }
    assert input[..|input|] == input;
    output := Some(done);
  }
}
