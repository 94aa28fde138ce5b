/**
 CRC-32 as both endpoints use it (section 8 of RFC 1952): reflected polynomial 0xEDB88320,
 register preset to all ones, final complement, each byte taken least significant bit first.
 The register is kept as its 32 bits, lowest first, so that the bit-step machine and
 exclusive or are plain Boolean functions; a finished register is packed into a word.

 The main result is burst detection: two inputs of the same length whose bits differ only
 inside a window of at most 32 consecutive bits never have the same checksum.
 */
module Crc32 {
  import opened BitSequences
  import opened WireBytes
  import opened Folds

  type Register = r: seq<bool> | |r| == 32 witness Bits(0, 32)

  /** The bits of the polynomial, lowest first. */
  const POLYNOMIAL: Register := Bits(0xEDB8_8320, 32)

  const PRESET: Register := Bits(0xFFFF_FFFF, 32)

  /** One input bit meets the low end, the register shifts down and the polynomial is fed back. */
  function BitStep(c: Register, bit: bool): Register {
    Shifted(c, c[0] != bit)
  }

  function Shifted(c: Register, feedback: bool): Register {
    seq(32, i requires 0 <= i < 32 => (i < 31 && c[i + 1]) != (feedback && POLYNOMIAL[i]))
  }

  /** All bits of data in the order in which the register sees them. */
  function BitsOf(data: Bytes): (s: seq<bool>)
    ensures |s| == 8 * |data|
  {
    if data == [] then [] else Bits(data[0], 8) + BitsOf(data[1..])
  }

  /** The register after all of data. */
  function Update(c: Register, data: Bytes): Register {
    Fold(BitStep, c, BitsOf(data))
  }

  function Complement(c: Register): Register {
    seq(32, i requires 0 <= i < 32 => !c[i])
  }

  /** Complements the register and packs it into a word. */
  function Finish(c: Register): U32 {
    BitsPack(Complement(c));
    Sizes();
    Pack(Complement(c))
  }

  function Checksum(data: Bytes): U32 {
    Finish(Update(PRESET, data))
  }

  // ---------------------------------------------------------------- incremental updates

  lemma {:induction false} BitsConcat(s: Bytes, t: Bytes)
    ensures BitsOf(s + t) == BitsOf(s) + BitsOf(t)
  {
    if s == [] {
      assert s + t == t;
    } else {
      assert (s + t)[0] == s[0] && (s + t)[1..] == s[1..] + t;
      BitsConcat(s[1..], t);
    }
  }

  /** Feeding a concatenation is feeding its parts one after the other. */
  lemma UpdateConcat(c: Register, s: Bytes, t: Bytes)
    ensures Update(c, s + t) == Update(Update(c, s), t)
  {
    BitsConcat(s, t);
    FoldConcat(BitStep, c, BitsOf(s), BitsOf(t));
  }

  // ---------------------------------------------------------------- the register loses nothing

  lemma {:induction false} HighBit(x: nat, n: nat)
    requires Pow2(n) <= x < 2 * Pow2(n)
    ensures Bits(x, n + 1)[n]
    decreases n
  {
    if n > 0 {
      HighBit(x / 2, n - 1);
    }
  }

  lemma TopTap()
    ensures POLYNOMIAL[31]
  {
    Sizes();
    HighBit(0xEDB8_8320, 31);
  }

  /** The top bit after a step is the bit that was fed back. */
  lemma StepReveals(c: Register, d: Register, a: bool, b: bool)
    requires BitStep(c, a)[31] == BitStep(d, b)[31]
    ensures (c[0] != d[0]) == (a != b)
    ensures forall i :: 1 <= i < 32 ==> (c[i] != d[i]) == (BitStep(c, a)[i - 1] != BitStep(d, b)[i - 1])
  {
    TopTap();
    hide Bits;
    forall i | 1 <= i < 32
      ensures (c[i] != d[i]) == (BitStep(c, a)[i - 1] != BitStep(d, b)[i - 1])
    {
      assert BitStep(c, a)[i - 1] == (c[i] != ((c[0] != a) && POLYNOMIAL[i - 1]));
      assert BitStep(d, b)[i - 1] == (d[i] != ((d[0] != b) && POLYNOMIAL[i - 1]));
    }
  }

  lemma BitStepInjective()
    ensures Injective(BitStep)
  {
    forall c: Register, d: Register, bit | BitStep(c, bit) == BitStep(d, bit)
      ensures c == d
    {
      StepReveals(c, d, bit, bit);
    }
  }

  // ---------------------------------------------------------------- burst detection

  /** Registers that meet after n <= 32 bits differed, at the start, exactly as the bits do. */
  lemma {:induction false} MeetingReveals(c: Register, d: Register, u: seq<bool>, v: seq<bool>)
    requires |u| == |v| <= 32 && Fold(BitStep, c, u) == Fold(BitStep, d, v)
    ensures forall i :: 0 <= i < |u| ==> (c[i] != d[i]) == (u[i] != v[i])
    ensures forall i :: |u| <= i < 32 ==> c[i] == d[i]
    decreases |u|
  {
    if u != [] {
      var x, y := BitStep(c, u[0]), BitStep(d, v[0]);
      MeetingReveals(x, y, u[1..], v[1..]);
      StepReveals(c, d, u[0], v[0]);
      forall i | 1 <= i < 32
        ensures (c[i] != d[i]) == (i < |u| && u[i] != v[i])
      {
        assert (c[i] != d[i]) == (x[i - 1] != y[i - 1]);
        assert i < |u| ==> u[i] == u[1..][i - 1] && v[i] == v[1..][i - 1];
      }
    }
  }

  /** Bit sequences that agree outside a window of 32 bits and leave the same register are equal. */
  lemma BitBurst(c: Register, u: seq<bool>, v: seq<bool>, k: nat, n: nat)
    requires |u| == |v| && n <= 32 && k + n <= |u|
    requires u[..k] == v[..k] && u[k + n..] == v[k + n..]
    requires Fold(BitStep, c, u) == Fold(BitStep, c, v)
    ensures u == v
  {
    hide BitStep, Fold;
    var pre, post := u[..k], u[k + n..];
    var mu, mv := u[k..k + n], v[k..k + n];
    assert u == pre + (mu + post) && v == pre + (mv + post);
    BitStepInjective();
    FoldCommonEnds(BitStep, c, pre, mu, mv, post);
    MeetingReveals(Fold(BitStep, c, pre), Fold(BitStep, c, pre), mu, mv);
    assert mu == mv;
  }

  lemma FinishInjective(c: Register, d: Register)
    requires Finish(c) == Finish(d)
    ensures c == d
  {
    BitsPack(Complement(c));
    BitsPack(Complement(d));
    assert forall i :: 0 <= i < 32 ==> c[i] == !Complement(c)[i] && d[i] == !Complement(d)[i];
  }

  lemma {:induction false} BitsInjective(s: Bytes, t: Bytes)
    requires |s| == |t| && BitsOf(s) == BitsOf(t)
    ensures s == t
  {
    if s != [] {
      assert Bits(s[0], 8) == BitsOf(s)[..8] == BitsOf(t)[..8] == Bits(t[0], 8);
      assert BitsOf(s[1..]) == BitsOf(s)[8..] == BitsOf(t)[8..] == BitsOf(t[1..]);
      ByteBitsInjective(s[0], t[0]);
      BitsInjective(s[1..], t[1..]);
      assert s == [s[0]] + s[1..] && t == [t[0]] + t[1..];
    }
  }

  /** A change confined to 32 consecutive bits always changes the checksum. */
  lemma BurstDetected(s: Bytes, t: Bytes, k: nat, n: nat)
    requires |s| == |t| && n <= 32 && k + n <= 8 * |s|
    requires BitsOf(s)[..k] == BitsOf(t)[..k] && BitsOf(s)[k + n..] == BitsOf(t)[k + n..]
    ensures Checksum(s) == Checksum(t) <==> s == t
  {
    if Checksum(s) == Checksum(t) {
      FinishInjective(Update(PRESET, s), Update(PRESET, t));
      BitBurst(PRESET, BitsOf(s), BitsOf(t), k, n);
      BitsInjective(s, t);
    }
  }

  lemma BitsSplit(s: Bytes, k: nat)
    requires k <= |s|
    ensures BitsOf(s)[..8 * k] == BitsOf(s[..k]) && BitsOf(s)[8 * k..] == BitsOf(s[k..])
  {
    assert s == s[..k] + s[k..];
    BitsConcat(s[..k], s[k..]);
  }

  /** In particular a change confined to four consecutive bytes. */
  lemma ByteBurstDetected(s: Bytes, t: Bytes, k: nat, n: nat)
    requires |s| == |t| && n <= 4 && k + n <= |s|
    requires s[..k] == t[..k] && s[k + n..] == t[k + n..]
    ensures Checksum(s) == Checksum(t) <==> s == t
  {
    var lo, hi := 8 * k, 8 * (k + n);
    assert BitsOf(s)[..lo] == BitsOf(t)[..lo] by {
      BitsSplit(s, k);
      BitsSplit(t, k);
    }
    assert BitsOf(s)[hi..] == BitsOf(t)[hi..] by {
      BitsSplit(s, k + n);
      BitsSplit(t, k + n);
    }
    BurstDetected(s, t, lo, hi - lo);
  }
}
