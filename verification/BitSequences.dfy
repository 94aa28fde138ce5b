/** Naturals as bit sequences, lowest bit first, and bitwise operations on bytes. */
module BitSequences {
  import opened WireBytes

  /** The n lowest bits of x. */
  function Bits(x: nat, n: nat): (s: seq<bool>)
    ensures |s| == n
    decreases n
  {
    if n == 0 then [] else [x % 2 == 1] + Bits(x / 2, n - 1)
  }

  /** The number with the given low bits. */
  function Pack(s: seq<bool>): nat {
    if s == [] then 0 else (if s[0] then 1 else 0) + 2 * Pack(s[1..])
  }

  function Pow2(n: nat): (p: nat)
    ensures p > 0
  {
    if n == 0 then 1 else 2 * Pow2(n - 1)
  }

  lemma Sizes()
    ensures Pow2(8) == 256 && Pow2(31) == 0x8000_0000 && Pow2(32) == TWO32
  {
    assert Pow2(4) == 0x10;
    assert Pow2(8) == 0x100;
    assert Pow2(12) == 0x1000;
    assert Pow2(16) == 0x1_0000;
    assert Pow2(20) == 0x10_0000;
    assert Pow2(24) == 0x100_0000;
    assert Pow2(28) == 0x1000_0000;
  }

  lemma {:induction false} BitsPack(s: seq<bool>)
    ensures Bits(Pack(s), |s|) == s && Pack(s) < Pow2(|s|)
  {
    if s != [] {
      BitsPack(s[1..]);
      assert s == [s[0]] + s[1..];
    }
  }

  lemma {:induction false} PackBits(x: nat, n: nat)
    requires x < Pow2(n)
    ensures Pack(Bits(x, n)) == x
    decreases n
  {
    if n > 0 {
      PackBits(x / 2, n - 1);
      assert Bits(x, n)[1..] == Bits(x / 2, n - 1);
    }
  }

  function Either(u: seq<bool>, v: seq<bool>): (w: seq<bool>)
    requires |u| == |v|
    ensures |w| == |u| && forall i :: 0 <= i < |w| ==> w[i] == (u[i] || v[i])
  {
    if u == [] then [] else [u[0] || v[0]] + Either(u[1..], v[1..])
  }

  /** Bitwise or of two bytes. */
  function OrByte(a: Byte, b: Byte): Byte {
    BitsPack(Either(Bits(a, 8), Bits(b, 8)));
    Sizes();
    Pack(Either(Bits(a, 8), Bits(b, 8)))
  }

  /** Whether two bytes have a common bit. */
  predicate Meet(a: Byte, b: Byte) {
    exists i :: 0 <= i < 8 && Bits(a, 8)[i] && Bits(b, 8)[i]
  }

  lemma ByteBitsInjective(a: Byte, b: Byte)
    requires Bits(a, 8) == Bits(b, 8)
    ensures a == b
  {
    Sizes();
    PackBits(a, 8);
    PackBits(b, 8);
  }

  lemma OrByteBits(a: Byte, b: Byte)
    ensures Bits(OrByte(a, b), 8) == Either(Bits(a, 8), Bits(b, 8))
  {
    BitsPack(Either(Bits(a, 8), Bits(b, 8)));
  }

  /** Every bit of b is a bit of a. */
  predicate Contains(a: Byte, b: Byte) {
    Includes(Bits(a, 8), Bits(b, 8))
  }

  predicate Includes(u: seq<bool>, v: seq<bool>)
    requires |u| == |v|
  {
    forall i :: 0 <= i < |v| && v[i] ==> u[i]
  }

  /** Or leaves a byte as it is exactly when it brings no bit the byte does not have. */
  lemma OrByteKeeps(a: Byte, b: Byte)
    ensures OrByte(a, b) == a <==> Contains(a, b)
  {
    OrByteBits(a, b);
    EitherBits(Bits(a, 8), Bits(b, 8));
    if Contains(a, b) {
      assert Either(Bits(a, 8), Bits(b, 8)) == Bits(a, 8);
      ByteBitsInjective(OrByte(a, b), a);
    }
  }

  /** Zero contains zero only. */
  lemma ZeroContains(a: Byte, b: Byte)
    requires a == 0
    ensures Contains(a, b) <==> b == 0
  {
    ZeroBits(8);
    IncludedInNone(Bits(a, 8), Bits(b, 8));
    if Bits(a, 8) == Bits(b, 8) {
      ByteBitsInjective(a, b);
    }
  }

  lemma IncludedInNone(u: seq<bool>, v: seq<bool>)
    requires |u| == |v| && forall i :: 0 <= i < |u| ==> !u[i]
    ensures Includes(u, v) <==> u == v
  {
    if Includes(u, v) {
      assert forall i :: 0 <= i < |u| ==> u[i] == v[i];
    }
  }

  lemma {:induction false} ZeroBits(n: nat)
    ensures forall i :: 0 <= i < n ==> !Bits(0, n)[i]
  {
    if n > 0 {
      ZeroBits(n - 1);
    }
  }

  lemma {:induction false} EitherBits(u: seq<bool>, v: seq<bool>)
    requires |u| == |v|
    ensures |Either(u, v)| == |u| && forall i :: 0 <= i < |u| ==> Either(u, v)[i] == (u[i] || v[i])
  {
    if u != [] {
      EitherBits(u[1..], v[1..]);
    }
  }

  lemma MeetAt(a: Byte, b: Byte, k: nat)
    requires k < 8 && forall i :: 0 <= i < 8 ==> Bits(b, 8)[i] == (i == k)
    ensures Meet(a, b) <==> Bits(a, 8)[k]
  {
    hide Bits;
    if Bits(a, 8)[k] {
      assert Bits(b, 8)[k];
    }
  }

  lemma BitOfOne(one: Byte)
    requires one == 1
    ensures forall i :: 0 <= i < 8 ==> Bits(one, 8)[i] == (i == 0)
  {
    ZeroBits(7);
    assert Bits(one, 8) == [true] + Bits(one / 2, 7);
  }

  lemma BitOfTwo(two: Byte)
    requires two == 2
    ensures forall i :: 0 <= i < 8 ==> Bits(two, 8)[i] == (i == 1)
  {
    ZeroBits(6);
    assert Bits(two, 8) == [false] + Bits(two / 2, 7);
    assert Bits(two / 2, 7) == [true] + Bits(two / 2 / 2, 6);
  }

  lemma LowBits(flags: Byte)
    ensures Bits(flags, 8)[0] == (flags % 2 == 1) && Bits(flags, 8)[1] == (flags / 2 % 2 == 1)
  {
    assert Bits(flags, 8) == [flags % 2 == 1] + Bits(flags / 2, 7);
    assert Bits(flags / 2, 7) == [flags / 2 % 2 == 1] + Bits(flags / 2 / 2, 6);
  }

  /** The two flags the endpoints look at are the lowest bit of a byte and the one above it. */
  lemma LowFlags(flags: Byte)
    ensures Meet(flags, 0x01) <==> flags % 2 == 1
    ensures Meet(flags, 0x02) <==> flags / 2 % 2 == 1
  {
    hide *;
    BitOfOne(0x01);
    BitOfTwo(0x02);
    MeetAt(flags, 0x01, 0);
    MeetAt(flags, 0x02, 1);
    LowBits(flags);
  }
}
