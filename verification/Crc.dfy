/**
 * The reflected CRC-32 of signature blocks and of OTA records, and its algebra.
 *
 * A 32-bit register is a `Word`: bit 0 is the least significant bit, so a right shift drops the head.
 */
module Crc {
  import opened Words
  import opened Bits

  /** The bits of the reflected polynomial. The top one is set, which is what makes a round reversible. */
  function Poly(): (p: Word)
    ensures p[31]
  {
    Pow2Of31();
    seq(32, i requires 0 <= i => 0xedb8_8320 / Pow2(i) % 2 == 1)
  }

  const ZERO: Word := Zeros(32)

  /** Rounds per message byte. */
  function Rounds(): nat { 8 }

  /** One round of the inner loop: shift right and fold the polynomial in when a one fell out. */
  function Step(c: Word): (r: Word) {
    var shifted := c[1..] + [false];
    if c[0] then Xor(shifted, Poly()) else shifted
  }

  function Steps(c: Word, k: nat): Word
    decreases k
  {
    if k == 0 then c else Steps(Step(c), k - 1)
  }

  function Widen(b: byte): Word {
    ToBits(b, 32)
  }

  /** The register after a byte string. */
  function Absorb(c: Word, data: Bytes): Word
    decreases |data|
  {
    if data == [] then c else Absorb(Steps(Xor(c, Widen(data[0])), Rounds()), data[1..])
  }

  function ToNumber(w: Word): (n: u32)
    ensures ToBits(n, 32) == w
  {
    ToFromBits(w);
    Pow2Of32();
    FromBits(w)
  }

  function EspCrc32(seed: u32, data: Bytes): u32 {
    ToNumber(Not(Absorb(Not(ToBits(seed, 32)), data)))
  }

  function OtaCrc(sequence: u32): u32 {
    ToNumber(Not(Absorb(ZERO, ToLe32(sequence))))
  }

  // The loops.

  /** The inner loop both checksums share. */
  method ShiftByte(c: Word) returns (crc: Word)
    ensures crc == Steps(c, Rounds())
  {
    crc := c;
    for j := 0 to 8
      invariant Steps(crc, Rounds() - j) == Steps(c, Rounds())
    {
      crc := Step(crc);
    }
  }

  method AbsorbBytes(c: Word, data: Bytes) returns (crc: Word)
    ensures crc == Absorb(c, data)
  {
    crc := c;
    for i := 0 to |data|
      invariant Absorb(crc, data[i..]) == Absorb(c, data)
    {
      assert data[i..][1..] == data[i + 1..];
      crc := ShiftByte(Xor(crc, Widen(data[i])));
    }
  }

  method EspCrc32Le(seed: u32, data: Bytes) returns (r: u32)
    ensures r == EspCrc32(seed, data)
  {
    var crc := AbsorbBytes(Not(ToBits(seed, 32)), data);
    r := ToNumber(Not(crc));
  }

  method ComputeOtaCrc(sequence: u32) returns (r: u32)
    ensures r == OtaCrc(sequence)
  {
    var crc := AbsorbBytes(ZERO, ToLe32(sequence));
    r := ToNumber(Not(crc));
  }

  // The register as a linear feedback shift register over single bits.

  /** `bit` in the lowest place, zeros above. */
  function Low(bit: bool): Word {
    [bit] + Zeros(31)
  }

  function AbsorbBits(c: Word, bits: Bitstring): Word
    decreases |bits|
  {
    if bits == [] then c else AbsorbBits(Step(Xor(c, Low(bits[0]))), bits[1..])
  }

  /** A message as the bit string that enters the register. */
  function MessageBits(data: Bytes): Bitstring {
    if data == [] then [] else ToBits(data[0], 8) + MessageBits(data[1..])
  }

  /** A step can be undone: the polynomial's top coefficient tells what fell out. */
  function Unstep(r: Word): Word {
    seq(32, i requires 0 <= i < 32 && |r| == 32 => if i == 0 then r[31] else r[i - 1] != (r[31] && Poly()[i - 1]))
  }

  lemma StepAt(c: Word, i: nat)
    requires i < 32
    ensures Step(c)[i] == ((i < 31 && c[i + 1]) != (c[0] && Poly()[i]))
  {
  }

  lemma UnstepStep(c: Word)
    ensures Unstep(Step(c)) == c
  {
    StepAt(c, 31);
    var r := Step(c);
    forall i | 0 <= i < 32 ensures Unstep(r)[i] == c[i] {
      if i > 0 { StepAt(c, i - 1); }
    }
  }

  lemma {:induction false} StepsInjective(a: Word, b: Word, k: nat)
    requires Steps(a, k) == Steps(b, k)
    ensures a == b
    decreases k
  {
    if k > 0 {
      StepsInjective(Step(a), Step(b), k - 1);
      UnstepStep(a);
      UnstepStep(b);
    }
  }

  // A word is 32 message bits shifted in.

  /** Message bits as the low bits of a register. */
  function Pad(bits: Bitstring): Word
    requires |bits| <= 32
  {
    bits + Zeros(32 - |bits|)
  }

  lemma StepXor(a: Word, b: Word)
    ensures Step(Xor(a, b)) == Xor(Step(a), Step(b))
  {
    forall i | 0 <= i < 32 ensures Step(Xor(a, b))[i] == Xor(Step(a), Step(b))[i] {
      StepAt(Xor(a, b), i);
      StepAt(a, i);
      StepAt(b, i);
    }
  }

  /** The bits above the lowest move down untouched. */
  lemma StepOfPad(c: Word, bits: Bitstring)
    requires 0 < |bits| <= 32
    ensures Step(Xor(c, Pad(bits))) == Xor(Step(Xor(c, Low(bits[0]))), Pad(bits[1..]))
  {
    var first := Xor(c, Low(bits[0]));
    var rest: Word := [false] + Pad(bits[1..])[..31];
    assert Xor(c, Pad(bits)) == Xor(first, rest);
    StepXor(first, rest);
    assert Step(rest) == Pad(bits[1..]);
  }

  /** Shifting `bits` in one at a time is adding them all at once and then shifting. */
  lemma {:induction false} AbsorbBitsIsSteps(c: Word, bits: Bitstring)
    requires |bits| <= 32
    ensures AbsorbBits(c, bits) == Steps(Xor(c, Pad(bits)), |bits|)
    decreases |bits|
  {
    hide Step, Xor;
    if bits == [] {
      XorZero(c);
    } else {
      StepOfPad(c, bits);
      AbsorbBitsIsSteps(Step(Xor(c, Low(bits[0]))), bits[1..]);
    }
  }

  lemma XorZero(c: Word)
    ensures Xor(c, Pad([])) == c
  {
  }

  /** With the same register, different strings of at most 32 bits lead to different registers. */
  lemma ShortWindow(c: Word, a: Bitstring, b: Bitstring)
    requires |a| == |b| <= 32
    requires AbsorbBits(c, a) == AbsorbBits(c, b)
    ensures a == b
  {
    AbsorbBitsIsSteps(c, a);
    AbsorbBitsIsSteps(c, b);
    StepsInjective(Xor(c, Pad(a)), Xor(c, Pad(b)), |a|);
    forall i | 0 <= i < |a| ensures a[i] == b[i] {
      assert Xor(c, Pad(a))[i] == Xor(c, Pad(b))[i];
    }
  }

  lemma {:induction false} AbsorbBitsConcat(c: Word, a: Bitstring, b: Bitstring)
    ensures AbsorbBits(c, a + b) == AbsorbBits(AbsorbBits(c, a), b)
    decreases |a|
  {
    if a == [] {
      assert a + b == b;
    } else {
      assert (a + b)[1..] == a[1..] + b;
      AbsorbBitsConcat(Step(Xor(c, Low(a[0]))), a[1..], b);
    }
  }

  /** A common suffix never merges two different registers. */
  lemma {:induction false} AbsorbBitsInjective(c: Word, d: Word, bits: Bitstring)
    requires AbsorbBits(c, bits) == AbsorbBits(d, bits)
    ensures c == d
    decreases |bits|
  {
    if bits != [] {
      var x := Xor(c, Low(bits[0]));
      var y := Xor(d, Low(bits[0]));
      AbsorbBitsInjective(Step(x), Step(y), bits[1..]);
      UnstepStep(x);
      UnstepStep(y);
      assert x == y;
      forall i | 0 <= i < 32 ensures c[i] == d[i] {
        assert x[i] == y[i];
      }
    }
  }

  lemma WidenIsPad(b: byte)
    ensures Widen(b) == Pad(ToBits(b, 8))
  {
    assert Pow2(4) == 16;
    HighBitsClear(b, 8, 24);
  }

  /** The byte loop is the bit-serial register on the message's bits. */
  lemma {:induction false} AbsorbIsBitSerial(c: Word, data: Bytes)
    ensures Absorb(c, data) == AbsorbBits(c, MessageBits(data))
    decreases |data|
  {
    if data != [] {
      var bits := ToBits(data[0], 8);
      WidenIsPad(data[0]);
      AbsorbBitsIsSteps(c, bits);
      AbsorbBitsConcat(c, bits, MessageBits(data[1..]));
      AbsorbIsBitSerial(Steps(Xor(c, Widen(data[0])), Rounds()), data[1..]);
    }
  }

  lemma {:induction false} MessageBitsConcat(a: Bytes, b: Bytes)
    ensures MessageBits(a + b) == MessageBits(a) + MessageBits(b)
    decreases |a|
  {
    if a == [] {
      assert a + b == b;
    } else {
      assert (a + b)[1..] == a[1..] + b;
      MessageBitsConcat(a[1..], b);
    }
  }

  lemma {:induction false} MessageBitsInjective(a: Bytes, b: Bytes)
    requires |a| == |b| && MessageBits(a) == MessageBits(b)
    ensures a == b
    decreases |a|
  {
    if a != [] {
      var x, y := ToBits(a[0], 8), ToBits(b[0], 8);
      assert x == MessageBits(a)[..8] && y == MessageBits(b)[..8];
      ByteRoundTrip(a[0]);
      ByteRoundTrip(b[0]);
      assert MessageBits(a)[8..] == MessageBits(a[1..]) && MessageBits(b)[8..] == MessageBits(b[1..]);
      MessageBitsInjective(a[1..], b[1..]);
    }
  }

  lemma ByteRoundTrip(b: byte)
    ensures FromBits(ToBits(b, 8)) == b
  {
    assert Pow2(4) == 16;
    FromToBits(b, 8);
  }

  // The register as polynomial division.

  /** The exponents below 32 of the CRC-32 generator, which is monic of degree 32. */
  predicate Exponent(k: int) {
    k == 26 || k == 23 || k == 22 || k == 16 || k == 12 || k == 11 || k == 10 || k == 8 || k == 7 || k == 5 || k == 4
    || k == 2 || k == 1 || k == 0
  }

  /** Its coefficients below x^32, the highest first. */
  function Generator(): (g: Word)
    ensures forall i :: 0 <= i < 32 ==> g[i] == Exponent(31 - i)
  {
    seq(32, i => Exponent(31 - i))
  }

  /** What long division by the generator leaves of a polynomial, the highest coefficient first. */
  function Remainder(p: Bitstring): Word
    requires |p| >= 32
    decreases |p|
  {
    if |p| == 32 then p
    else if p[0] then Remainder(Xor(p[1..33], Generator()) + p[33..])
    else Remainder(p[1..])
  }

  lemma Pow2Values()
    ensures Pow2(0) == 0x1 && Pow2(1) == 0x2 && Pow2(2) == 0x4 && Pow2(3) == 0x8
    ensures Pow2(4) == 0x10 && Pow2(5) == 0x20 && Pow2(6) == 0x40 && Pow2(7) == 0x80
    ensures Pow2(8) == 0x100 && Pow2(9) == 0x200 && Pow2(10) == 0x400 && Pow2(11) == 0x800
    ensures Pow2(12) == 0x1000 && Pow2(13) == 0x2000 && Pow2(14) == 0x4000 && Pow2(15) == 0x8000
    ensures Pow2(16) == 0x10000 && Pow2(17) == 0x20000 && Pow2(18) == 0x40000 && Pow2(19) == 0x80000
    ensures Pow2(20) == 0x100000 && Pow2(21) == 0x200000 && Pow2(22) == 0x400000 && Pow2(23) == 0x800000
    ensures Pow2(24) == 0x1000000 && Pow2(25) == 0x2000000 && Pow2(26) == 0x4000000 && Pow2(27) == 0x8000000
    ensures Pow2(28) == 0x10000000 && Pow2(29) == 0x20000000 && Pow2(30) == 0x40000000 && Pow2(31) == 0x80000000
  {
  }

  lemma PolyAt(i: nat, power: nat)
    requires i < 32 && power == Pow2(i)
    ensures Poly()[i] == (0xedb8_8320 / power % 2 == 1)
  {
  }

  lemma PolyLowBits()
    ensures forall i :: 0 <= i < 16 ==> Poly()[i] == Exponent(31 - i)
  {
    hide Poly, Pow2;
    Pow2Values();
    PolyAt(0, 0x1); PolyAt(1, 0x2); PolyAt(2, 0x4); PolyAt(3, 0x8);
    PolyAt(4, 0x10); PolyAt(5, 0x20); PolyAt(6, 0x40); PolyAt(7, 0x80);
    PolyAt(8, 0x100); PolyAt(9, 0x200); PolyAt(10, 0x400); PolyAt(11, 0x800);
    PolyAt(12, 0x1000); PolyAt(13, 0x2000); PolyAt(14, 0x4000); PolyAt(15, 0x8000);
  }

  lemma PolyHighBits()
    ensures forall i :: 16 <= i < 32 ==> Poly()[i] == Exponent(31 - i)
  {
    hide Poly, Pow2;
    Pow2Values();
    PolyAt(16, 0x10000); PolyAt(17, 0x20000); PolyAt(18, 0x40000); PolyAt(19, 0x80000);
    PolyAt(20, 0x100000); PolyAt(21, 0x200000); PolyAt(22, 0x400000); PolyAt(23, 0x800000);
    PolyAt(24, 0x1000000); PolyAt(25, 0x2000000); PolyAt(26, 0x4000000); PolyAt(27, 0x8000000);
    PolyAt(28, 0x10000000); PolyAt(29, 0x20000000); PolyAt(30, 0x40000000); PolyAt(31, 0x80000000);
  }

  /** The constant in the loop is the generator, its highest coefficient in the lowest bit. */
  lemma PolyIsGenerator()
    ensures Poly() == Generator()
  {
    hide Exponent, Poly;
    PolyLowBits();
    PolyHighBits();
  }

  /** The message, with room for the register behind it, and the register added at its top. */
  function Dividend(c: Word, bits: Bitstring): (p: Bitstring)
    ensures |p| == 32 + |bits|
  {
    Xor(bits + Zeros(32), c + Zeros(|bits|))
  }

  /** Shifting bits through the register is dividing by the generator. */
  lemma {:induction false} AbsorbIsRemainder(c: Word, bits: Bitstring)
    ensures AbsorbBits(c, bits) == Remainder(Dividend(c, bits))
    decreases |bits|
  {
    hide Generator, Poly;
    PolyIsGenerator();
    if bits == [] {
      assert Dividend(c, bits) == c;
    } else {
      var p, next := Dividend(c, bits), Step(Xor(c, Low(bits[0])));
      AbsorbIsRemainder(next, bits[1..]);
      DivideOnce(c, bits);
    }
  }

  lemma DivideOnce(c: Word, bits: Bitstring)
    requires bits != []
    ensures var p := Dividend(c, bits);
            Dividend(Step(Xor(c, Low(bits[0]))), bits[1..]) ==
            if p[0] then Xor(p[1..33], Poly()) + p[33..] else p[1..]
  {
    hide Poly;
  }

  // Theorems.

  /** Absorbing a message in two parts, passing the first checksum on as the seed. */
  lemma SeedContinues(seed: u32, a: Bytes, b: Bytes)
    ensures EspCrc32(EspCrc32(seed, a), b) == EspCrc32(seed, a + b)
  {
    var c: Word := Not(ToBits(seed, 32));
    var mid: Word := Absorb(c, a);
    assert Not(Not(mid)) == mid;
    AbsorbIsBitSerial(c, a);
    AbsorbIsBitSerial(mid, b);
    AbsorbIsBitSerial(c, a + b);
    MessageBitsConcat(a, b);
    AbsorbBitsConcat(c, MessageBits(a), MessageBits(b));
  }

  /** The checksum of a message is, up to the customary complements, its remainder by the CRC-32 generator. */
  lemma EspCrcIsRemainder(seed: u32, data: Bytes)
    ensures ToBits(EspCrc32(seed, data), 32) == Not(Remainder(Dividend(Not(ToBits(seed, 32)), MessageBits(data))))
  {
    hide Remainder, Dividend;
    var c: Word := Not(ToBits(seed, 32));
    AbsorbIsBitSerial(c, data);
    AbsorbIsRemainder(c, MessageBits(data));
  }

  /** The OTA record checksum is the image checksum of the sequence's bytes under an all-ones seed. */
  lemma OtaCrcIsEspCrc(sequence: u32)
    ensures OtaCrc(sequence) == EspCrc32(U32_MAX, ToLe32(sequence))
  {
    AllOnes();
    assert Not(ToBits(U32_MAX, 32)) == ZERO;
  }

  lemma AllOnes()
    ensures ToBits(U32_MAX, 32) == Not(ZERO)
  {
    ToFromBits(Not(ZERO));
    OnesNumber(32);
    Pow2Of32();
  }

  lemma {:induction false} OnesNumber(k: nat)
    ensures FromBits(Not(Zeros(k))) == Pow2(k) - 1
  {
    if k > 0 {
      OnesNumber(k - 1);
      assert Not(Zeros(k))[1..] == Not(Zeros(k - 1));
    }
  }

  lemma EspCrcInjective(seed: u32, a: Bytes, b: Bytes)
    requires EspCrc32(seed, a) == EspCrc32(seed, b)
    ensures Absorb(Not(ToBits(seed, 32)), a) == Absorb(Not(ToBits(seed, 32)), b)
  {
    var x: Word := Absorb(Not(ToBits(seed, 32)), a);
    var y: Word := Absorb(Not(ToBits(seed, 32)), b);
    assert ToBits(EspCrc32(seed, a), 32) == Not(x);
    assert ToBits(EspCrc32(seed, b), 32) == Not(y);
    assert Not(Not(x)) == x && Not(Not(y)) == y;
  }

  /**
   * Burst detection, at any bit position: two messages that differ only inside 32 consecutive
   * bits have different checksums.
   */
  lemma BurstDetected(seed: u32, a: Bytes, b: Bytes, before: Bitstring, x: Bitstring, y: Bitstring, after: Bitstring)
    requires |x| == |y| <= 32 && x != y
    requires MessageBits(a) == before + x + after
    requires MessageBits(b) == before + y + after
    ensures EspCrc32(seed, a) != EspCrc32(seed, b)
  {
    if EspCrc32(seed, a) == EspCrc32(seed, b) {
      EspCrcInjective(seed, a, b);
      var c: Word := Not(ToBits(seed, 32));
      var mid := AbsorbBits(c, before);
      AbsorbIsBitSerial(c, a);
      AbsorbIsBitSerial(c, b);
      AbsorbBitsConcat(c, before + x, after);
      AbsorbBitsConcat(c, before, x);
      AbsorbBitsConcat(c, before + y, after);
      AbsorbBitsConcat(c, before, y);
      AbsorbBitsInjective(AbsorbBits(mid, x), AbsorbBits(mid, y), after);
      ShortWindow(mid, x, y);
    }
  }

  /** The byte-aligned case: a changed window of at most four consecutive bytes always shows. */
  lemma ByteBurstDetected(seed: u32, before: Bytes, x: Bytes, y: Bytes, after: Bytes)
    requires |x| == |y| <= 4 && x != y
    ensures EspCrc32(seed, before + x + after) != EspCrc32(seed, before + y + after)
  {
    MessageBitsConcat(before + x, after);
    MessageBitsConcat(before, x);
    MessageBitsConcat(before + y, after);
    MessageBitsConcat(before, y);
    MessageLength(x);
    MessageLength(y);
    if MessageBits(x) == MessageBits(y) { MessageBitsInjective(x, y); }
    BurstDetected(seed, before + x + after, before + y + after,
                  MessageBits(before), MessageBits(x), MessageBits(y), MessageBits(after));
  }

  lemma {:induction false} MessageLength(a: Bytes)
    ensures |MessageBits(a)| == 8 * |a|
  {
    if a != [] { MessageLength(a[1..]); }
  }

  /** Up to four bytes are determined by their checksum. */
  lemma ShortMessageDetermined(seed: u32, x: Bytes, y: Bytes)
    requires |x| == |y| <= 4 && EspCrc32(seed, x) == EspCrc32(seed, y)
    ensures x == y
  {
    var c: Word := Not(ToBits(seed, 32));
    EspCrcInjective(seed, x, y);
    AbsorbIsBitSerial(c, x);
    AbsorbIsBitSerial(c, y);
    MessageLength(x);
    MessageLength(y);
    ShortWindow(c, MessageBits(x), MessageBits(y));
    MessageBitsInjective(x, y);
  }

  /** Distinct sequences have distinct checksums. */
  lemma OtaCrcInjective(a: u32, b: u32)
    requires OtaCrc(a) == OtaCrc(b)
    ensures a == b
  {
    OtaCrcIsEspCrc(a);
    OtaCrcIsEspCrc(b);
    ShortMessageDetermined(U32_MAX, ToLe32(a), ToLe32(b));
    Le32RoundTrip(a);
    Le32RoundTrip(b);
  }

  /** Only sequence zero has the erased word as its checksum. */
  lemma OtaCrcErased(sequence: u32)
    ensures OtaCrc(sequence) == U32_MAX <==> sequence == 0
  {
    AllOnes();
    StepsOfZero(Rounds());
    ZeroToBits(32);
    assert Xor(ZERO, ZERO) == ZERO;
    assert ToLe32(0) == [0, 0, 0, 0];
    AbsorbZeros(4);
    assert OtaCrc(0) == U32_MAX by {
      assert Absorb(ZERO, ToLe32(0)) == ZERO;
      ToFromBits(Not(ZERO));
      OnesNumber(32);
      Pow2Of32();
    }
    if OtaCrc(sequence) == U32_MAX { OtaCrcInjective(sequence, 0); }
  }

  lemma {:induction false} StepsOfZero(k: nat)
    ensures Steps(ZERO, k) == ZERO
  {
    if k > 0 {
      assert Step(ZERO) == ZERO;
      StepsOfZero(k - 1);
    }
  }

  lemma {:induction false} AbsorbZeros(k: nat)
    ensures Absorb(ZERO, Fill(k, 0)) == ZERO
  {
    if k > 0 {
      ZeroToBits(32);
      assert Xor(ZERO, ZERO) == ZERO;
      StepsOfZero(Rounds());
      AbsorbZeros(k - 1);
      assert Fill(k, 0)[1..] == Fill(k - 1, 0);
    }
  }

  // The inverse.

  function Unsteps(r: Word, k: nat): Word
    decreases k
  {
    if k == 0 then r else Unstep(Unsteps(r, k - 1))
  }

  lemma StepUnstep(r: Word)
    ensures Step(Unstep(r)) == r
  {
    var c := Unstep(r);
    forall i | 0 <= i < 32 ensures Step(c)[i] == r[i] { StepAt(c, i); }
  }

  lemma {:induction false} StepsUnsteps(r: Word, k: nat)
    ensures Steps(Unsteps(r, k), k) == r
    decreases k
  {
    hide Step, Unstep;
    if k > 0 {
      StepUnstep(Unsteps(r, k - 1));
      StepsUnsteps(r, k - 1);
    }
  }

  function ByteOf(bits: Bitstring): (b: byte)
    requires |bits| == 8
    ensures ToBits(b, 8) == bits
  {
    ToFromBits(bits);
    assert Pow2(4) == 16;
    FromBits(bits)
  }

  function BytesOf(w: Word): (b: Bytes)
    ensures |b| == 4
  {
    [ByteOf(w[..8]), ByteOf(w[8..16]), ByteOf(w[16..24]), ByteOf(w[24..])]
  }

  lemma BytesOfWord(w: Word)
    ensures MessageBits(BytesOf(w)) == w
  {
    hide ByteOf, MessageBits;
    var b := BytesOf(w);
    var low, high := [b[0]] + [b[1]], [b[2]] + [b[3]];
    OneByte(b[0]);
    OneByte(b[1]);
    OneByte(b[2]);
    OneByte(b[3]);
    MessageBitsConcat([b[0]], [b[1]]);
    MessageBitsConcat([b[2]], [b[3]]);
    MessageBitsConcat(low, high);
    assert b == low + high;
    assert w == (w[..8] + w[8..16]) + (w[16..24] + w[24..]);
  }

  lemma OneByte(b: byte)
    ensures MessageBits([b]) == ToBits(b, 8)
  {
    assert [b][1..] == [];
    assert ToBits(b, 8) + [] == ToBits(b, 8);
  }

  /** Registers per word: one round for each of its bits. */
  function Width(): nat { 32 }

  /** The sequence whose record checksum is `crc`. */
  function SequenceOf(crc: u32): u32 {
    FromLe32(BytesOf(Unsteps(Not(ToBits(crc, 32)), Width())))
  }

  lemma Le32OfBytes(b: Bytes)
    requires |b| == 4
    ensures ToLe32(FromLe32(b)) == b
  {
    Le32RoundTrip(FromLe32(b));
    Le32Injective(ToLe32(FromLe32(b)), b);
  }

  /** What the register holds after a word's four bytes: one round for each bit of the word. */
  lemma AbsorbWord(w: Word)
    ensures Absorb(ZERO, BytesOf(w)) == Steps(w, Width())
  {
    hide Absorb, AbsorbBits, Steps, BytesOf;
    AbsorbIsBitSerial(ZERO, BytesOf(w));
    BytesOfWord(w);
    AbsorbBitsIsSteps(ZERO, w);
    assert Xor(ZERO, Pad(w)) == w;
  }

  /** The record checksum is a bijection on 32-bit words: `SequenceOf` inverts it on either side. */
  lemma OtaCrcBijective(n: u32)
    ensures OtaCrc(SequenceOf(n)) == n && SequenceOf(OtaCrc(n)) == n
  {
    OtaCrcOfSequence(n);
    OtaCrcOfSequence(OtaCrc(n));
    OtaCrcInjective(SequenceOf(OtaCrc(n)), n);
  }

  lemma OtaCrcOfSequence(n: u32)
    ensures OtaCrc(SequenceOf(n)) == n
  {
    hide Absorb, Steps, Unsteps, BytesOf, ToBits, FromBits;
    var r: Word := Not(ToBits(n, 32));
    var w := Unsteps(r, Width());
    Le32OfBytes(BytesOf(w));
    AbsorbWord(w);
    StepsUnsteps(r, Width());
    assert Not(r) == ToBits(n, 32);
    Pow2Of32();
    FromToBits(n, 32);
  }
}
