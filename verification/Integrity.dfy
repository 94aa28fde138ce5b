/** What the frame checksum catches, in either endpoint. */
module Integrity {
  import opened BitSequences
  import opened Crc32
  import opened FrameFormat
  import opened GoProtocol
  import opened WireBytes
  import opened Wrappers
  import Interop
  import Rust = RustProtocol

  predicate HoldsFrame(data: Bytes) {
    |data| >= HEADER_SIZE && |data| >= HEADER_SIZE + ReadWord(data, 8)
  }

  /** The bytes of an encoded frame that its checksum covers. */
  function Covered(data: Bytes): Bytes
    requires HoldsFrame(data)
  {
    data[..12] + data[HEADER_SIZE..HEADER_SIZE + ReadWord(data, 8)]
  }

  /** The length and checksum fields of an encoded frame. */
  function Trailer(data: Bytes): Bytes
    requires |data| >= HEADER_SIZE
  {
    data[8..HEADER_SIZE]
  }

  /** data starts with a whole frame whose magic byte, version and checksum are right. */
  predicate Intact(data: Bytes) {
    HoldsFrame(data) && Validate(FrameAt(data, HEADER_SIZE + ReadWord(data, 8))).None?
  }

  /** Rust accepts exactly the intact frames, Go those whose slice bound does not wrap. */
  lemma AcceptedIff(data: Bytes)
    ensures Rust.Unmarshal(data).Ok? <==> Intact(data)
    ensures UnmarshalFrame(data).Ok? <==> Intact(data) && ReadWord(data, 8) < SLICE_LIMIT
  {
    hide Validate, Rust.HashedChecksum, ReadWord;
    if HoldsFrame(data) {
      UnmarshalCases(data);
      Interop.RustUnmarshalCases(data);
    }
  }

  lemma IntactChecksum(data: Bytes)
    requires Intact(data)
    ensures ReadWord(data, 12) == Checksum(Covered(data))
  {
    hide Checksum, ReadWord, Be32, ToU32;
    var high := HEADER_SIZE + ReadWord(data, 8);
    var f := FrameAt(data, high);
    MarshalFrameAt(data, high);
    assert Marshal(f)[..12] == Header(f) && data[..high][..12] == data[..12];
  }

  lemma SameTrailer(x: Bytes, y: Bytes)
    requires |x| >= HEADER_SIZE && |y| >= HEADER_SIZE && Trailer(x) == Trailer(y)
    ensures ReadWord(x, 8) == ReadWord(y, 8) && ReadWord(x, 12) == ReadWord(y, 12)
  {
    assert forall i :: 8 <= i < 16 ==> x[i] == Trailer(x)[i - 8] && y[i] == Trailer(y)[i - 8];
  }

  lemma SameFields(x: Bytes, y: Bytes, high: nat)
    requires HoldsFrame(x) && HoldsFrame(y) && high == HEADER_SIZE + ReadWord(x, 8) == HEADER_SIZE + ReadWord(y, 8)
    requires ReadWord(x, 12) == ReadWord(y, 12) && Covered(x) == Covered(y)
    ensures FrameAt(x, high) == FrameAt(y, high)
  {
    assert x[..12] == Covered(x)[..12] && y[..12] == Covered(y)[..12];
    assert x[HEADER_SIZE..high] == Covered(x)[12..] && y[HEADER_SIZE..high] == Covered(y)[12..];
    assert forall i :: 0 <= i < 12 ==> x[i] == x[..12][i] && y[i] == y[..12][i];
  }

  /** Damage within 32 consecutive covered bits, with length and checksum untouched, is always seen. */
  lemma BurstSeen(x: Bytes, y: Bytes, k: nat, n: nat)
    requires Intact(x) && HoldsFrame(y) && Trailer(x) == Trailer(y)
    requires |Covered(x)| == |Covered(y)| && n <= 32 && k + n <= 8 * |Covered(x)|
    requires BitsOf(Covered(x))[..k] == BitsOf(Covered(y))[..k]
    requires BitsOf(Covered(x))[k + n..] == BitsOf(Covered(y))[k + n..]
    ensures Intact(y) <==> Covered(x) == Covered(y)
  {
    hide Validate, Checksum, ReadWord;
    SameTrailer(x, y);
    IntactChecksum(x);
    if Intact(y) {
      IntactChecksum(y);
      BurstDetected(Covered(x), Covered(y), k, n);
    }
    if Covered(x) == Covered(y) {
      SameFields(x, y, HEADER_SIZE + ReadWord(x, 8));
    }
  }

  /** So both decoders reject a frame damaged that way, whichever of them accepted the original. */
  lemma BurstRejected(x: Bytes, y: Bytes, k: nat, n: nat)
    requires UnmarshalFrame(x).Ok? || Rust.Unmarshal(x).Ok?
    requires HoldsFrame(x) && HoldsFrame(y) && Trailer(x) == Trailer(y) && Covered(x) != Covered(y)
    requires |Covered(x)| == |Covered(y)| && n <= 32 && k + n <= 8 * |Covered(x)|
    requires BitsOf(Covered(x))[..k] == BitsOf(Covered(y))[..k]
    requires BitsOf(Covered(x))[k + n..] == BitsOf(Covered(y))[k + n..]
    ensures UnmarshalFrame(y).Err? && Rust.Unmarshal(y).Err?
  {
    hide Validate, ReadWord, UnmarshalFrame, Rust.Unmarshal;
    AcceptedIff(x);
    AcceptedIff(y);
    BurstSeen(x, y, k, n);
  }

  lemma UntouchedTrailer(x: Bytes, y: Bytes, k: nat, n: nat)
    requires |x| == |y| && HEADER_SIZE <= |x| && k + n <= |x| && (k + n <= 8 || HEADER_SIZE <= k)
    requires x[..k] == y[..k] && x[k + n..] == y[k + n..]
    ensures Trailer(x) == Trailer(y)
  {
    assert forall i :: 0 <= i < k ==> x[i] == x[..k][i] && y[i] == y[..k][i];
    assert forall i :: k + n <= i < |x| ==> x[i] == x[k + n..][i - k - n] && y[i] == y[k + n..][i - k - n];
  }

  lemma BothIntact(x: Bytes, y: Bytes, j: nat, n: nat)
    requires Intact(x) && Intact(y) && ReadWord(x, 12) == ReadWord(y, 12)
    requires n <= 4 && j + n <= |Covered(x)| == |Covered(y)|
    requires Covered(x)[..j] == Covered(y)[..j] && Covered(x)[j + n..] == Covered(y)[j + n..]
    ensures Covered(x) == Covered(y)
  {
    hide Checksum, Validate, ReadWord;
    IntactChecksum(x);
    IntactChecksum(y);
    ByteBurstDetected(Covered(x), Covered(y), j, n);
  }

  /** Changing at most four consecutive bytes before the length field, or of the payload, is always caught. */
  lemma FourBytesRejected(x: Bytes, y: Bytes, k: nat, n: nat)
    requires UnmarshalFrame(x).Ok? || Rust.Unmarshal(x).Ok?
    requires HoldsFrame(x) && |x| == |y| && x != y && n <= 4
    requires k + n <= 8 || (HEADER_SIZE <= k && k + n <= HEADER_SIZE + ReadWord(x, 8))
    requires k + n <= |x| && x[..k] == y[..k] && x[k + n..] == y[k + n..]
    ensures UnmarshalFrame(y).Err? && Rust.Unmarshal(y).Err?
  {
    hide Validate, ReadWord, UnmarshalFrame, Rust.Unmarshal;
    AcceptedIff(x);
    AcceptedIff(y);
    UntouchedTrailer(x, y, k, n);
    SameTrailer(x, y);
    var j := if k + n <= 8 then k else k - 4;
    CoveredWindow(x, y, k, n, j);
    if Intact(y) {
      BothIntact(x, y, j, n);
      SameElsewhere(x, y, k, n, j);
    }
  }

  lemma CoveredWindow(x: Bytes, y: Bytes, k: nat, n: nat, j: nat)
    requires HoldsFrame(x) && HoldsFrame(y) && |x| == |y| && Trailer(x) == Trailer(y)
    requires ReadWord(x, 8) == ReadWord(y, 8)
    requires (k + n <= 8 && j == k) || (HEADER_SIZE <= k && k + n <= HEADER_SIZE + ReadWord(x, 8) && j == k - 4)
    requires x[..k] == y[..k] && x[k + n..] == y[k + n..]
    ensures j + n <= |Covered(x)| == |Covered(y)|
    ensures Covered(x)[..j] == Covered(y)[..j] && Covered(x)[j + n..] == Covered(y)[j + n..]
  {
    var cx, cy := Covered(x), Covered(y);
    forall i | 0 <= i < |cx| && !(j <= i < j + n)
      ensures cx[i] == cy[i]
    {
      var p := if i < 12 then i else i + 4;
      assert cx[i] == x[p] && cy[i] == y[p];
      assert p < k ==> x[p] == x[..k][p] && y[p] == y[..k][p];
      assert p >= k + n ==> x[p] == x[k + n..][p - k - n] && y[p] == y[k + n..][p - k - n];
    }
  }

  lemma SameElsewhere(x: Bytes, y: Bytes, k: nat, n: nat, j: nat)
    requires HoldsFrame(x) && HoldsFrame(y) && |x| == |y|
    requires ReadWord(x, 8) == ReadWord(y, 8)
    requires (k + n <= 8 && j == k) || (HEADER_SIZE <= k && k + n <= HEADER_SIZE + ReadWord(x, 8) && j == k - 4)
    requires x[..k] == y[..k] && x[k + n..] == y[k + n..] && Covered(x) == Covered(y)
    ensures x == y
  {
    var cx, cy := Covered(x), Covered(y);
    forall i | k <= i < k + n
      ensures x[i] == y[i]
    {
      var q := if k + n <= 8 then i else i - 4;
      assert x[i] == cx[q] && y[i] == cy[q];
    }
    assert x[k..k + n] == y[k..k + n];
    assert x == x[..k] + x[k..k + n] + x[k + n..] && y == y[..k] + y[k..k + n] + y[k + n..];
  }

  // ---------------------------------------------------------------- SetFlag

  lemma FlagsAreCovered(f: Frame, g: Frame)
    requires g == f.(flags := g.flags)
    ensures CalculateChecksum(f) == CalculateChecksum(g) <==> f.flags == g.flags
  {
    hide Checksum;
    var s, t := Header(f) + f.payload, Header(g) + g.payload;
    assert s[3] == f.flags && t[3] == g.flags;
    assert s[..3] == t[..3] && s[4..] == t[4..] by {
      HeaderLayout(f, f.payload);
      HeaderLayout(g, g.payload);
      assert s[..3] == [f.magic, f.version, f.kind] && t[..3] == [f.magic, f.version, f.kind];
      assert s[4..] == s[4..8] + s[8..12] + s[12..] && t[4..] == t[4..8] + t[8..12] + t[12..];
    }
    ByteBurstDetected(s, t, 3, 1);
  }

  /** SetFlag does not refresh the checksum, so a valid frame stays valid only if no bit is new. */
  lemma SetFlagInvalidates(f: Frame, flag: Byte)
    requires Validate(f).None?
    ensures Validate(SetFlag(f, flag)).None? <==> Contains(f.flags, flag)
    ensures Validate(SetFlag(f, flag)).Some? ==> Validate(SetFlag(f, flag)) == Some(ChecksumMismatch)
  {
    hide CalculateChecksum, OrByte;
    OrByteKeeps(f.flags, flag);
    FlagsAreCovered(f, SetFlag(f, flag));
  }

  /** A flag that is set can be found, and no other that was not there before. */
  lemma SetThenHas(f: Frame, flag: Byte, other: Byte)
    ensures HasFlag(SetFlag(f, flag), other) <==> HasFlag(f, other) || Meet(flag, other)
  {
    OrByteBits(f.flags, flag);
    var w := Either(Bits(f.flags, 8), Bits(flag, 8));
    assert forall i :: 0 <= i < 8 ==> w[i] == (Bits(f.flags, 8)[i] || Bits(flag, 8)[i]) by { EitherBits(Bits(f.flags, 8), Bits(flag, 8)); }
    hide Either, OrByte, Bits;
  }

  lemma NewFrameValid(kind: Byte, streamId: U32, payload: Bytes)
    ensures Validate(NewFrame(kind, streamId, payload)).None?
  {
    var blank := Frame(MAGIC_BYTE, VERSION, kind, 0, streamId, ToU32(|payload|), 0, payload);
    assert Header(NewFrame(kind, streamId, payload)) == Header(blank);
  }

  /** The usual way to build a flagged frame produces one that every receiver rejects. */
  lemma FlaggedNewFrame(kind: Byte, streamId: U32, payload: Bytes, flag: Byte)
    ensures Validate(SetFlag(NewFrame(kind, streamId, payload), flag)).None? <==> flag == 0
  {
    hide Validate, CalculateChecksum, SetFlag;
    NewFrameValid(kind, streamId, payload);
    SetFlagInvalidates(NewFrame(kind, streamId, payload), flag);
    ZeroContains(NewFrame(kind, streamId, payload).flags, flag);
  }
}
