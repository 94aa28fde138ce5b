/**
 Bytes and 32-bit words on the wire. Both are kept as bounded naturals, with truncation
 written out where the sources truncate; words are encoded big-endian.
 */
module WireBytes {

  const TWO32: nat := 0x1_0000_0000

  type Byte = n: nat | n < 256
  type Bytes = seq<Byte>
  type U32 = n: nat | n < TWO32

  function Be32(x: U32): (s: Bytes)
    ensures |s| == 4
  {
    [x / 0x100_0000, x / 0x1_0000 % 256, x / 0x100 % 256, x % 256]
  }

  function Word(a: Byte, b: Byte, c: Byte, d: Byte): U32 {
    a * 0x100_0000 + b * 0x1_0000 + c * 0x100 + d
  }

  /** Reads the big-endian word stored in s[k..k + 4]. */
  function ReadWord(s: Bytes, k: nat): U32
    requires k + 4 <= |s|
  {
    Word(s[k], s[k + 1], s[k + 2], s[k + 3])
  }

  /** The conversion uint32(n). */
  function ToU32(n: int): U32 { n % TWO32 }

  lemma WordOfBe32(x: U32)
    ensures Word(Be32(x)[0], Be32(x)[1], Be32(x)[2], Be32(x)[3]) == x
  {
    var p := x / 0x100;
    var q := p / 0x100;
    assert x / 0x1_0000 == q && x / 0x100_0000 == q / 0x100;
  }

  lemma Be32OfWord(a: Byte, b: Byte, c: Byte, d: Byte)
    ensures Be32(Word(a, b, c, d)) == [a, b, c, d]
  {
    var x := Word(a, b, c, d);
    assert x / 0x100 == a * 0x1_0000 + b * 0x100 + c;
    assert x / 0x1_0000 == a * 0x100 + b;
    assert x / 0x100_0000 == a;
  }

  /** Encoding what was read reproduces the bytes that were read. */
  lemma ReadThenEncode(s: Bytes, k: nat)
    requires k + 4 <= |s|
    ensures Be32(ReadWord(s, k)) == s[k..k + 4]
  {
    Be32OfWord(s[k], s[k + 1], s[k + 2], s[k + 3]);
  }

  /** Reading what was encoded returns the encoded word, wherever it stands. */
  lemma EncodeThenRead(s: Bytes, k: nat, x: U32)
    requires k + 4 <= |s| && s[k..k + 4] == Be32(x)
    ensures ReadWord(s, k) == x
  {
    var w := s[k..k + 4];
    assert s[k] == w[0] && s[k + 1] == w[1] && s[k + 2] == w[2] && s[k + 3] == w[3];
    WordOfBe32(x);
  }

  /** A word already in the buffer is not changed by bytes that follow it. */
  lemma WordUnderAppend(s: Bytes, x: Bytes, k: nat)
    requires k + 4 <= |s|
    ensures ReadWord(s + x, k) == ReadWord(s, k)
  {
  }

  lemma WordInPrefix(s: Bytes, n: nat, k: nat)
    requires k + 4 <= n <= |s|
    ensures ReadWord(s[..n], k) == ReadWord(s, k)
  {
  }

  lemma SmallToU32(n: nat)
    requires n < TWO32
    ensures ToU32(n) == n
  {
  }
}
