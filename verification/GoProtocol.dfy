/**
 The Go server's frame codec and the step of its frame reader, on values. The objects that
 hold frames and buffers are in GoFrames and GoFrameReader.
 */
module GoProtocol {
  import opened BitSequences
  import opened Crc32
  import opened FrameFormat
  import opened FrameStreams
  import opened WireBytes
  import opened Wrappers

  /** Payload lengths below this limit keep the 32-bit slice bound HeaderSize + Length from wrapping. */
  const SLICE_LIMIT: nat := TWO32 - HEADER_SIZE

  datatype Frame = Frame(magic: Byte, version: Byte, kind: Byte, flags: Byte,
                         streamId: U32, length: U32, checksum: U32, payload: Bytes)

  /** The twelve header bytes that precede the checksum. */
  function Header(f: Frame): (s: Bytes)
    ensures |s| == 12
  {
    [f.magic, f.version, f.kind, f.flags] + Be32(f.streamId) + Be32(f.length)
  }

  function CalculateChecksum(f: Frame): U32 {
    Checksum(Header(f) + f.payload)
  }

  function NewFrame(kind: Byte, streamId: U32, payload: Bytes): Frame {
    var blank := Frame(MAGIC_BYTE, VERSION, kind, 0, streamId, ToU32(|payload|), 0, payload);
    blank.(checksum := CalculateChecksum(blank))
  }

  function SetFlag(f: Frame, flag: Byte): Frame {
    f.(flags := OrByte(f.flags, flag))
  }

  predicate HasFlag(f: Frame, flag: Byte) {
    Meet(f.flags, flag)
  }

  function Validate(f: Frame): Option<Error> {
    if f.magic != MAGIC_BYTE then Some(BadMagic)
    else if f.version != VERSION then Some(BadVersion)
    else if f.length != ToU32(|f.payload|) then Some(LengthMismatch)
    else if f.checksum != CalculateChecksum(f) then Some(ChecksumMismatch)
    else None
  }

  function Marshal(f: Frame): Bytes {
    Header(f) + Be32(f.checksum) + f.payload
  }

  function UnmarshalFrame(data: Bytes): Result<Frame, Error> {
    if |data| < HEADER_SIZE then Err(DataTooShort)
    else
      var length := ReadWord(data, 8);
      if |data| < HEADER_SIZE + length then Err(IncompleteFrame)
      else
        var high := ToU32(HEADER_SIZE + length);
        if high < HEADER_SIZE then Err(BoundsPanic)
        else
          var f := FrameAt(data, high);
          match Validate(f)
          case Some(e) => Err(e)
          case None => Ok(f)
  }

  /** The fields stored at the front of data, with the payload ending at high. */
  function FrameAt(data: Bytes, high: nat): Frame
    requires HEADER_SIZE <= high <= |data|
  {
    Frame(data[0], data[1], data[2], data[3], ReadWord(data, 4), ReadWord(data, 8), ReadWord(data, 12),
          data[HEADER_SIZE..high])
  }

  /** One ReadFrame call on the buffered bytes; max == 0 would mean no limit. */
  function ReadStep(max: U32, buffer: Bytes): Step<Frame, Error> {
    if |buffer| < HEADER_SIZE then NeedMore
    else
      var length := ReadWord(buffer, 8);
      if max > 0 && length > max then Failed(FrameTooLarge)
      else
        var total := HEADER_SIZE + length;
        if |buffer| < total then NeedMore
        else
          match UnmarshalFrame(buffer[..total])
          case Err(e) => Failed(e)
          case Ok(f) => Got(f, buffer[total..])
  }

  /** The limit NewFrameReader stores for the configured maximum. */
  function ReaderLimit(maxFrameSize: int): U32 {
    if ToU32(maxFrameSize) == 0 then 65536 else ToU32(maxFrameSize)
  }

  // ---------------------------------------------------------------- one frame

  lemma HeaderLayout(f: Frame, tail: Bytes)
    ensures var s := Header(f) + tail;
            && s[0] == f.magic && s[1] == f.version && s[2] == f.kind && s[3] == f.flags
            && s[4..8] == Be32(f.streamId) && s[8..12] == Be32(f.length) && s[12..] == tail
  {
  }

  /** Marshal lays the fields out where FrameAt looks for them. */
  lemma FrameAtMarshal(f: Frame, tail: Bytes)
    ensures |Marshal(f)| == HEADER_SIZE + |f.payload|
    ensures FrameAt(Marshal(f) + tail, HEADER_SIZE + |f.payload|) == f
  {
    var s := Marshal(f) + tail;
    var after := Be32(f.checksum) + f.payload + tail;
    assert s == Header(f) + after;
    HeaderLayout(f, after);
    assert s[12..16] == after[..4] == Be32(f.checksum);
    assert s[16..16 + |f.payload|] == f.payload;
    EncodeThenRead(s, 4, f.streamId);
    EncodeThenRead(s, 8, f.length);
    EncodeThenRead(s, 12, f.checksum);
  }

  lemma MarshalFrameAt(data: Bytes, high: nat)
    requires HEADER_SIZE <= high <= |data|
    ensures Marshal(FrameAt(data, high)) == data[..high]
  {
    ReadThenEncode(data, 4);
    ReadThenEncode(data, 8);
    ReadThenEncode(data, 12);
    SliceInSix(data, high);
  }

  lemma SliceInSix(data: Bytes, high: nat)
    requires HEADER_SIZE <= high <= |data|
    ensures data[..high]
         == [data[0], data[1], data[2], data[3]] + data[4..8] + data[8..12] + data[12..16] + data[16..high]
  {
  }

  lemma SliceBound(length: U32)
    ensures ToU32(HEADER_SIZE + length) >= HEADER_SIZE <==> length < SLICE_LIMIT
    ensures length < SLICE_LIMIT ==> ToU32(HEADER_SIZE + length) == HEADER_SIZE + length
  {
  }

  /** The two outcomes for data that holds a whole frame. */
  lemma UnmarshalCases(data: Bytes)
    requires |data| >= HEADER_SIZE && |data| >= HEADER_SIZE + ReadWord(data, 8)
    ensures var length := ReadWord(data, 8);
            if length >= SLICE_LIMIT then UnmarshalFrame(data) == Err(BoundsPanic)
            else
              var f := FrameAt(data, HEADER_SIZE + length);
              UnmarshalFrame(data) == (if Validate(f).Some? then Err(Validate(f).value) else Ok(f))
  {
    hide Validate, FrameAt, ReadWord;
    SliceBound(ReadWord(data, 8));
  }

  /** What an accepted frame looks like in the bytes it came from. */
  lemma MarshalOfUnmarshal(data: Bytes)
    requires UnmarshalFrame(data).Ok?
    ensures var f := UnmarshalFrame(data).value;
            && Validate(f).None? && |f.payload| < SLICE_LIMIT && f.length == |f.payload| == ReadWord(data, 8)
            && HEADER_SIZE + |f.payload| <= |data| && Marshal(f) == data[..HEADER_SIZE + |f.payload|]
  {
    hide Marshal, CalculateChecksum, ReadWord;
    UnmarshalCases(data);
    MarshalFrameAt(data, HEADER_SIZE + ReadWord(data, 8));
  }

  lemma ValidLength(f: Frame)
    requires Validate(f).None? && |f.payload| < SLICE_LIMIT
    ensures f.length == |f.payload|
  {
    hide CalculateChecksum, ToU32;
    SmallToU32(|f.payload|);
  }

  lemma UnmarshalOfMarshal(f: Frame, tail: Bytes)
    requires Validate(f).None? && |f.payload| < SLICE_LIMIT
    ensures UnmarshalFrame(Marshal(f) + tail) == Ok(f)
  {
    hide Validate, Marshal;
    FrameAtMarshal(f, tail);
    ValidLength(f);
    UnmarshalCases(Marshal(f) + tail);
  }

  /** Decoding undoes encoding exactly for the valid frames whose slice bound does not wrap. */
  lemma RoundTripIff(f: Frame)
    ensures UnmarshalFrame(Marshal(f)) == Ok(f) <==> Validate(f).None? && |f.payload| < SLICE_LIMIT
  {
    hide Validate, Marshal, UnmarshalFrame;
    assert Marshal(f) + [] == Marshal(f);
    if Validate(f).None? && |f.payload| < SLICE_LIMIT {
      UnmarshalOfMarshal(f, []);
    } else if UnmarshalFrame(Marshal(f)) == Ok(f) {
      MarshalOfUnmarshal(Marshal(f));
    }
  }

  // ---------------------------------------------------------------- the reader's step

  /** The frames a reader with this limit can deliver. */
  predicate Deliverable(max: U32, f: Frame) {
    Validate(f).None? && |f.payload| < SLICE_LIMIT && (max > 0 ==> |f.payload| <= max)
  }

  lemma StepUnderAppend(max: U32, b: Bytes, x: Bytes)
    ensures ReadStep(max, b).Failed? ==> ReadStep(max, b + x) == ReadStep(max, b)
    ensures ReadStep(max, b).Got? ==> ReadStep(max, b + x) == Got(ReadStep(max, b).frame, ReadStep(max, b).rest + x)
  {
    hide UnmarshalFrame, ReadWord;
    if |b| >= HEADER_SIZE {
      WordUnderAppend(b, x, 8);
      var total := HEADER_SIZE + ReadWord(b, 8);
      if |b| >= total {
        assert (b + x)[..total] == b[..total];
        assert (b + x)[total..] == b[total..] + x;
      }
    }
  }

  // ---------------------------------------------------------------- when the reader waits, and when it fails

  /** Too few bytes for a header, or for the frame that an acceptable header announces. */
  predicate Waiting(max: U32, b: Bytes) {
    |b| < 16 || ((max == 0 || ReadWord(b, 8) <= max) && |b| < 16 + ReadWord(b, 8))
  }

  /** A frame of acceptable length is there in full, and its slice bound does not wrap. */
  predicate Whole(max: U32, b: Bytes) {
    |b| >= 16 && (max == 0 || ReadWord(b, 8) <= max) && |b| >= 16 + ReadWord(b, 8) && ReadWord(b, 8) < 0xFFFF_FFF0
  }

  /** The checksum stored in bytes 12 to 15 is that of the twelve bytes before it and the payload after it. */
  predicate ChecksumHolds(b: Bytes)
    requires |b| >= 16 && |b| >= 16 + ReadWord(b, 8)
  {
    ReadWord(b, 12) == Checksum(b[..12] + b[16..16 + ReadWord(b, 8)])
  }

  /** What is wrong with the bytes, error by error. */
  predicate Faulty(max: U32, b: Bytes, e: Error) {
    match e
    case FrameTooLarge => |b| >= 16 && max > 0 && ReadWord(b, 8) > max
    case BoundsPanic =>
      |b| >= 16 && (max == 0 || ReadWord(b, 8) <= max) && |b| >= 16 + ReadWord(b, 8) && ReadWord(b, 8) >= 0xFFFF_FFF0
    case BadMagic => Whole(max, b) && b[0] != 0xB0
    case BadVersion => Whole(max, b) && b[0] == 0xB0 && b[1] != 0x01
    case ChecksumMismatch => Whole(max, b) && b[0] == 0xB0 && b[1] == 0x01 && !ChecksumHolds(b)
    case _ => false
  }

  /** The validation of a frame found in the bytes, on the bytes. */
  lemma ValidateAt(b: Bytes)
    requires |b| >= 16 && |b| >= 16 + ReadWord(b, 8)
    ensures var f := FrameAt(b, 16 + ReadWord(b, 8));
            Validate(f) ==
            if b[0] != 0xB0 then Some(BadMagic)
            else if b[1] != 0x01 then Some(BadVersion)
            else if !ChecksumHolds(b) then Some(ChecksumMismatch)
            else None
  {
    var length: nat := ReadWord(b, 8);
    var f := FrameAt(b, 16 + length);
    ReadThenEncode(b, 4);
    ReadThenEncode(b, 8);
    hide ReadWord, Checksum, Be32, ToU32;
    assert |f.payload| == length;
    SmallToU32(|f.payload|);
    assert b[..12] == [b[0], b[1], b[2], b[3]] + b[4..8] + b[8..12];
    assert Header(f) + f.payload == b[..12] + b[16..16 + length];
  }

  /** The decoder on its own, as for datagrams, on the bytes. */
  lemma UnmarshalOnBytes(d: Bytes)
    ensures UnmarshalFrame(d) ==
            if |d| < 16 then Err(DataTooShort)
            else if |d| < 16 + ReadWord(d, 8) then Err(IncompleteFrame)
            else if ReadWord(d, 8) >= 0xFFFF_FFF0 then Err(BoundsPanic)
            else if d[0] != 0xB0 then Err(BadMagic)
            else if d[1] != 0x01 then Err(BadVersion)
            else if !ChecksumHolds(d) then Err(ChecksumMismatch)
            else Ok(Frame(0xB0, 0x01, d[2], d[3], ReadWord(d, 4), ReadWord(d, 8), ReadWord(d, 12), d[16..16 + ReadWord(d, 8)]))
  {
    hide ReadWord, Checksum, Validate;
    if |d| >= 16 && |d| >= 16 + ReadWord(d, 8) {
      UnmarshalCases(d);
      ValidateAt(d);
      hide UnmarshalFrame;
    }
  }

  lemma WordsOfPrefix(b: Bytes, total: nat)
    requires |b| >= 16 && 16 <= total <= |b| && total == 16 + ReadWord(b, 8)
    ensures var d := b[..total];
            ReadWord(d, 8) == ReadWord(b, 8) && ReadWord(d, 12) == ReadWord(b, 12)
            && d[..12] == b[..12] && d[16..] == b[16..total] && (ChecksumHolds(d) <==> ChecksumHolds(b))
  {
    WordInPrefix(b, total, 8);
    WordInPrefix(b, total, 12);
    hide ReadWord, Checksum;
    var d := b[..total];
    assert d[..12] == b[..12] && d[16..] == b[16..total] == d[16..total];
  }

  /** One read step as conditions on the bytes: it waits, or delivers the frame at the front, or reports what is wrong with it. */
  lemma StepOnBytes(max: U32, b: Bytes)
    ensures ReadStep(max, b).NeedMore? <==> Waiting(max, b)
    ensures forall e :: ReadStep(max, b) == Failed(e) <==> Faulty(max, b, e)
    ensures ReadStep(max, b).Got? <==> Whole(max, b) && b[0] == 0xB0 && b[1] == 0x01 && ChecksumHolds(b)
  {
    hide ReadWord, Checksum, Validate, UnmarshalFrame, FrameAt;
    if |b| >= 16 && !(max > 0 && ReadWord(b, 8) > max) && |b| >= 16 + ReadWord(b, 8) {
      var total := 16 + ReadWord(b, 8);
      WordsOfPrefix(b, total);
      UnmarshalCases(b[..total]);
      ValidateAt(b[..total]);
    }
  }

  lemma WaitingIff(max: U32, b: Bytes)
    ensures ReadStep(max, b) == NeedMore <==> Waiting(max, b)
  {
    StepOnBytes(max, b);
  }

  lemma FaultyIff(max: U32, b: Bytes, e: Error)
    ensures ReadStep(max, b) == Failed(e) <==> Faulty(max, b, e)
  {
    StepOnBytes(max, b);
  }

  function Stepping(max: U32): Stepper<Frame, Error> {
    (b: Bytes) => ReadStep(max, b)
  }

  lemma SteppingIs(max: U32, b: Bytes)
    ensures Stepping(max)(b) == ReadStep(max, b)
  {
  }

  /** Every frame takes at least a header from the buffer, so draining ends. */
  lemma StepConsumesHeader(max: U32, b: Bytes)
    requires ReadStep(max, b).Got?
    ensures |ReadStep(max, b).rest| + HEADER_SIZE <= |b|
  {
  }

  lemma ReaderIsIncremental(max: U32)
    ensures Incremental(Stepping(max)) && Stepping(max)([]) == NeedMore
  {
    var step := Stepping(max);
    forall b: Bytes, x: Bytes
      ensures step(b).Failed? ==> step(b + x) == step(b)
      ensures step(b).Got? ==> step(b + x) == Got(step(b).frame, step(b).rest + x)
    {
      StepUnderAppend(max, b, x);
    }
  }

  lemma StepGot(max: U32, b: Bytes)
    requires ReadStep(max, b).Got?
    ensures var f := ReadStep(max, b).frame; Deliverable(max, f) && b == Marshal(f) + ReadStep(max, b).rest
  {
    hide Validate, Marshal, ReadWord, UnmarshalFrame;
    var total := HEADER_SIZE + ReadWord(b, 8);
    MarshalOfUnmarshal(b[..total]);
    WordInPrefix(b, total, 8);
    assert b[..total][..total] == b[..total];
    assert b == b[..total] + b[total..];
  }

  lemma StepOnMarshal(max: U32, f: Frame, rest: Bytes)
    requires Deliverable(max, f)
    ensures ReadStep(max, Marshal(f) + rest) == Got(f, rest)
  {
    hide Validate, Marshal, UnmarshalFrame;
    var b := Marshal(f) + rest;
    var total := HEADER_SIZE + |f.payload|;
    FrameAtMarshal(f, rest);
    ValidLength(f);
    assert ReadWord(b, 8) == f.length == |f.payload|;
    assert b[..total] == Marshal(f) == Marshal(f) + [] && b[total..] == rest;
    UnmarshalOfMarshal(f, []);
  }

  /** The step delivers a frame exactly when the buffer starts with its encoding. */
  lemma StepDelivers(max: U32, b: Bytes, f: Frame, rest: Bytes)
    ensures ReadStep(max, b) == Got(f, rest) <==> Deliverable(max, f) && b == Marshal(f) + rest
  {
    if ReadStep(max, b) == Got(f, rest) {
      StepGot(max, b);
    }
    if Deliverable(max, f) && b == Marshal(f) + rest {
      StepOnMarshal(max, f, rest);
    }
  }
}
