/**
 The checksum register kept in one 32-bit word, as table-free CRC code keeps it. The word
 machine refines the bit-serial register of Crc32, so a checksum can be evaluated on words.
 */
module CrcWords {
  import opened BitSequences
  import opened Crc32
  import opened Folds
  import opened WireBytes

  function Low(x: bv32): bool { x & 1 == 1 }

  function Half(x: bv32): bv32 { x >> 1 }

  function Mix(x: bv32, y: bv32): bv32 { x ^ y }

  const FEEDBACK: bv32 := 0xEDB8_8320

  function WordStep(x: bv32, bit: bool): bv32 {
    if Low(x) != bit then Mix(Half(x), FEEDBACK) else Half(x)
  }

  /** Bit i of x, counted from the low end. */
  function BitAt(x: bv32, i: nat): bool {
    if i == 0 then Low(x) else BitAt(Half(x), i - 1)
  }

  /** The word x holds the register c. */
  ghost predicate Holds(x: bv32, c: Register) {
    forall i :: 0 <= i < 32 ==> c[i] == BitAt(x, i)
  }

  lemma MixParts(x: bv32, y: bv32)
    ensures Low(Mix(x, y)) == (Low(x) != Low(y)) && Half(Mix(x, y)) == Mix(Half(x), Half(y))
  {
  }

  lemma {:induction false} BitAtMix(x: bv32, y: bv32, i: nat)
    ensures BitAt(Mix(x, y), i) == (BitAt(x, i) != BitAt(y, i))
    decreases i
  {
    hide Low, Half, Mix;
    MixParts(x, y);
    if i > 0 {
      BitAtMix(Half(x), Half(y), i - 1);
    }
  }

  function Nibble(x: bv32): bv32 { x >> 4 }

  lemma HalfFour(x: bv32)
    ensures Half(Half(Half(Half(x)))) == Nibble(x)
  {
  }

  lemma BitAtFour(x: bv32, i: nat)
    ensures BitAt(x, i + 4) == BitAt(Nibble(x), i)
  {
    hide Low, Half, Nibble;
    HalfFour(x);
    assert BitAt(x, i + 4) == BitAt(Half(Half(x)), i + 2);
  }

  lemma NibblesGone(x: bv32)
    ensures !Low(Nibble(Nibble(Nibble(Nibble(Nibble(Nibble(Nibble(Nibble(x)))))))))
  {
  }

  /** A word has 32 bits. */
  lemma NothingAbove(x: bv32)
    ensures !BitAt(x, 32)
  {
    NibblesGone(x);
    hide Low, Nibble, Half;
    var y := Nibble(Nibble(x));
    var z := Nibble(Nibble(y));
    var w := Nibble(Nibble(z));
    BitAtFour(x, 28);
    BitAtFour(Nibble(x), 24);
    BitAtFour(y, 20);
    BitAtFour(Nibble(y), 16);
    BitAtFour(z, 12);
    BitAtFour(Nibble(z), 8);
    BitAtFour(w, 4);
    BitAtFour(Nibble(w), 0);
  }

  // ---------------------------------------------------------------- literals

  /** The word x and the number n have the same k lowest bits. */
  ghost predicate Twin(x: bv32, n: nat, k: nat) {
    forall i :: 0 <= i < k ==> BitAt(x, i) == Bits(n, k)[i]
  }

  lemma TwinBit(x: bv32, n: nat, k: nat)
    requires Low(x) == (n % 2 == 1) && Twin(Half(x), n / 2, k)
    ensures Twin(x, n, k + 1)
  {
    hide Low, Half;
    forall i | 0 <= i < k + 1
      ensures BitAt(x, i) == Bits(n, k + 1)[i]
    {
      assert i > 0 ==> BitAt(x, i) == BitAt(Half(x), i - 1) && Bits(n, k + 1)[i] == Bits(n / 2, k)[i - 1];
    }
  }

  lemma TwinNibble(x: bv32, n: nat, k: nat)
    requires Twin(x >> 4, n / 16, k)
    requires Low(x) == (n % 2 == 1) && Low(Half(x)) == (n / 2 % 2 == 1)
    requires Low(Half(Half(x))) == (n / 4 % 2 == 1) && Low(Half(Half(Half(x)))) == (n / 8 % 2 == 1)
    ensures Twin(x, n, k + 4)
  {
    HalfFour(x);
    assert n / 2 / 2 == n / 4 && n / 4 / 2 == n / 8 && n / 8 / 2 == n / 16;
    FourBits(x, n, k);
  }

  lemma FourBits(x: bv32, n: nat, k: nat)
    requires Twin(Half(Half(Half(Half(x)))), n / 2 / 2 / 2 / 2, k)
    requires Low(x) == (n % 2 == 1) && Low(Half(x)) == (n / 2 % 2 == 1)
    requires Low(Half(Half(x))) == (n / 2 / 2 % 2 == 1) && Low(Half(Half(Half(x)))) == (n / 2 / 2 / 2 % 2 == 1)
    ensures Twin(x, n, k + 4)
  {
    hide Low, Half, Twin;
    TwinBit(Half(Half(Half(x))), n / 2 / 2 / 2, k);
    TwinBit(Half(Half(x)), n / 2 / 2, k + 1);
    TwinBit(Half(x), n / 2, k + 2);
    TwinBit(x, n, k + 3);
  }

  lemma NoBits()
    ensures Twin(0, 0, 0)
  {
  }

  lemma FeedbackTwin()
    ensures Twin(FEEDBACK, 0xEDB8_8320, 32)
  {
    NoBits();
    hide Twin, BitAt, Bits;
    TwinNibble(0xE, 0xE, 0);
    TwinNibble(0xED, 0xED, 4);
    TwinNibble(0xEDB, 0xEDB, 8);
    TwinNibble(0xEDB8, 0xEDB8, 12);
    TwinNibble(0xEDB88, 0xEDB88, 16);
    TwinNibble(0xEDB883, 0xEDB883, 20);
    TwinNibble(0xEDB8832, 0xEDB8832, 24);
    TwinNibble(0xEDB88320, 0xEDB88320, 28);
  }

  lemma PresetTwin()
    ensures Twin(0xFFFF_FFFF, 0xFFFF_FFFF, 32)
  {
    NoBits();
    hide Twin, BitAt, Bits;
    TwinNibble(0xF, 0xF, 0);
    TwinNibble(0xFF, 0xFF, 4);
    TwinNibble(0xFFF, 0xFFF, 8);
    TwinNibble(0xFFFF, 0xFFFF, 12);
    TwinNibble(0xFFFFF, 0xFFFFF, 16);
    TwinNibble(0xFFFFFF, 0xFFFFFF, 20);
    TwinNibble(0xFFFFFFF, 0xFFFFFFF, 24);
    TwinNibble(0xFFFFFFFF, 0xFFFFFFFF, 28);
  }

  // ---------------------------------------------------------------- refinement

  /** One step of the word machine is one step of the register. */
  lemma StepHolds(x: bv32, c: Register, bit: bool)
    requires Holds(x, c)
    ensures Holds(WordStep(x, bit), BitStep(c, bit))
  {
    FeedbackTwin();
    NothingAbove(x);
    hide Low, Half, Mix, Bits;
    assert c[0] == BitAt(x, 0) == Low(x);
    forall i | 0 <= i < 32
      ensures BitStep(c, bit)[i] == BitAt(WordStep(x, bit), i)
    {
      assert BitAt(Half(x), i) == BitAt(x, i + 1);
      assert POLYNOMIAL[i] == BitAt(FEEDBACK, i);
      BitAtMix(Half(x), FEEDBACK, i);
    }
  }

  /** The word after the k lowest bits of n. */
  function WordBits(x: bv32, n: nat, k: nat): bv32
    decreases k
  {
    if k == 0 then x else WordBits(WordStep(x, n % 2 == 1), n / 2, k - 1)
  }

  lemma {:induction false} BitsHold(x: bv32, c: Register, n: nat, k: nat)
    requires Holds(x, c)
    ensures Holds(WordBits(x, n, k), Fold(BitStep, c, Bits(n, k)))
    decreases k
  {
    hide Holds, WordStep, BitStep;
    if k > 0 {
      StepHolds(x, c, n % 2 == 1);
      BitsHold(WordStep(x, n % 2 == 1), BitStep(c, n % 2 == 1), n / 2, k - 1);
      assert Bits(n, k)[1..] == Bits(n / 2, k - 1);
    }
  }

  function EightSteps(x: bv32, a: bool, b: bool, c: bool, d: bool, e: bool, f: bool, g: bool, h: bool): bv32 {
    WordStep(WordStep(WordStep(WordStep(WordStep(WordStep(WordStep(WordStep(x, a), b), c), d), e), f), g), h)
  }

  function Num(b: bool): nat { if b then 1 else 0 }

  /** The number with these eight bits, lowest first. */
  function Eight(a: bool, b: bool, c: bool, d: bool, e: bool, f: bool, g: bool, h: bool): nat {
    Num(a) + 2 * (Num(b) + 2 * (Num(c) + 2 * (Num(d) + 2 * (Num(e) + 2 * (Num(f) + 2 * (Num(g) + 2 * (Num(h) + 2 * 0)))))))
  }

  lemma WordBitsCons(x: bv32, b: bool, m: nat, k: nat)
    ensures WordBits(x, Num(b) + 2 * m, k + 1) == WordBits(WordStep(x, b), m, k)
  {
    hide WordStep;
  }

  lemma FourStepsOfBits(x: bv32, a: bool, b: bool, c: bool, d: bool, m: nat, k: nat)
    ensures WordBits(x, Num(a) + 2 * (Num(b) + 2 * (Num(c) + 2 * (Num(d) + 2 * m))), k + 4)
         == WordBits(WordStep(WordStep(WordStep(WordStep(x, a), b), c), d), m, k)
  {
    hide WordStep, WordBits, Num;
    var m3 := Num(d) + 2 * m;
    var m2 := Num(c) + 2 * m3;
    WordBitsCons(x, a, Num(b) + 2 * m2, k + 3);
    WordBitsCons(WordStep(x, a), b, m2, k + 2);
    WordBitsCons(WordStep(WordStep(x, a), b), c, m3, k + 1);
    WordBitsCons(WordStep(WordStep(WordStep(x, a), b), c), d, m, k);
  }

  lemma EightStepsOfBits(x: bv32, a: bool, b: bool, c: bool, d: bool, e: bool, f: bool, g: bool, h: bool)
    ensures WordBits(x, Eight(a, b, c, d, e, f, g, h), 8) == EightSteps(x, a, b, c, d, e, f, g, h)
  {
    hide WordStep, WordBits, Num;
    var m := Num(e) + 2 * (Num(f) + 2 * (Num(g) + 2 * (Num(h) + 2 * 0)));
    FourStepsOfBits(x, a, b, c, d, m, 4);
    FourStepsOfBits(WordStep(WordStep(WordStep(WordStep(x, a), b), c), d), e, f, g, h, 0, 0);
    WordBitsNil(EightSteps(x, a, b, c, d, e, f, g, h), 0);
  }

  lemma WordBitsNil(x: bv32, n: nat)
    ensures WordBits(x, n, 0) == x
  {
  }

  /** The word machine follows the register over one byte, its bits taken lowest first. */
  lemma ByteHolds(x: bv32, y: bv32, r: Register, n: Byte, a: bool, b: bool, c: bool, d: bool, e: bool, f: bool, g: bool, h: bool)
    requires Holds(x, r) && n == Eight(a, b, c, d, e, f, g, h) && EightSteps(x, a, b, c, d, e, f, g, h) == y
    ensures Holds(y, Update(r, [n]))
  {
    hide Holds, EightSteps, Eight;
    EightStepsOfBits(x, a, b, c, d, e, f, g, h);
    BitsHold(x, r, n, 8);
    assert BitsOf([n]) == Bits(n, 8) + BitsOf([]) == Bits(n, 8);
  }

  lemma FourUpdates(r: Register, a: Byte, b: Byte, c: Byte, d: Byte)
    ensures Update(Update(Update(Update(r, [a]), [b]), [c]), [d]) == Update(r, [a, b, c, d])
  {
    hide Update;
    UpdateConcat(r, [a], [b]);
    UpdateConcat(r, [a] + [b], [c]);
    UpdateConcat(r, [a] + [b] + [c], [d]);
    assert [a] + [b] + [c] + [d] == [a, b, c, d];
  }

  lemma {:induction false} ComplementBits(m: nat, k: nat)
    requires m < Pow2(k)
    ensures forall i :: 0 <= i < k ==> Bits(Pow2(k) - 1 - m, k)[i] == !Bits(m, k)[i]
    decreases k
  {
    if k > 0 {
      var p := Pow2(k) - 1 - m;
      ComplementBits(m / 2, k - 1);
      assert p / 2 == Pow2(k - 1) - 1 - m / 2 && (p % 2 == 1) == (m % 2 == 0);
    }
  }

  lemma FinishHolds(x: bv32, c: Register, m: U32)
    requires Holds(x, c) && Twin(x, m, 32)
    ensures Finish(c) == TWO32 - 1 - m
  {
    hide BitAt, Bits;
    Sizes();
    ComplementBits(m, 32);
    assert Complement(c) == Bits(TWO32 - 1 - m, 32);
    PackBits(TWO32 - 1 - m, 32);
  }

  lemma PresetHolds()
    ensures Holds(0xFFFF_FFFF, PRESET)
  {
    PresetTwin();
    hide BitAt, Bits;
  }

  // ---------------------------------------------------------------- whole messages

  /** The word after all bytes of data. */
  function WordUpdate(x: bv32, data: Bytes): bv32
    decreases |data|
  {
    if data == [] then x else WordUpdate(WordBits(x, data[0], 8), data[1..])
  }

  function WordChecksum(data: Bytes): bv32 {
    Mix(WordUpdate(0xFFFF_FFFF, data), 0xFFFF_FFFF)
  }

  /** The word machine follows the register over every message. */
  lemma {:induction false} MessageHolds(x: bv32, c: Register, data: Bytes)
    requires Holds(x, c)
    ensures Holds(WordUpdate(x, data), Update(c, data))
    decreases |data|
  {
    hide Holds, WordBits, Bits;
    if data == [] {
      assert Update(c, []) == c;
    } else {
      var first := Bits(data[0], 8);
      BitsHold(x, c, data[0], 8);
      MessageHolds(WordBits(x, data[0], 8), Fold(BitStep, c, first), data[1..]);
      FoldConcat(BitStep, c, first, BitsOf(data[1..]));
    }
  }

  lemma {:induction false} AllOnes(n: nat, k: nat)
    requires n == Pow2(k) - 1
    ensures forall i :: 0 <= i < k ==> Bits(n, k)[i]
    decreases k
  {
    if k > 0 {
      AllOnes(n / 2, k - 1);
    }
  }

  /** For every message the word machine computes the checksum, bit for bit. */
  lemma ChecksumOnWords(data: Bytes)
    ensures Twin(WordChecksum(data), Checksum(data), 32)
  {
    var x, c := WordUpdate(0xFFFF_FFFF, data), Update(PRESET, data);
    PresetHolds();
    MessageHolds(0xFFFF_FFFF, PRESET, data);
    PresetTwin();
    Sizes();
    AllOnes(0xFFFF_FFFF, 32);
    BitsPack(Complement(c));
    hide BitAt, Bits, Mix, WordUpdate, Update;
    forall i | 0 <= i < 32
      ensures BitAt(WordChecksum(data), i) == Bits(Checksum(data), 32)[i]
    {
      BitAtMix(x, 0xFFFF_FFFF, i);
    }
  }
}
