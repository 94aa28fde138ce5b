/**
 The Rust client's frame codec and the step of its frame reader, on values. The hasher and
 the reader that are updated in place are in RustFrames.
 */
module RustProtocol {
  import opened Crc32
  import opened FrameFormat
  import opened FrameStreams
  import opened WireBytes
  import opened Wrappers

  datatype FrameType =
    | Data | Ping | Pong | StreamOpen | StreamClose | Settings | Hello | HelloAck | HelloDone
    | MultiPath | PathClose | FlowControl | MaxData | Blocked | Ack2

  function ToU8(t: FrameType): Byte {
    match t
    case Data => FRAME_DATA
    case Ping => FRAME_PING
    case Pong => FRAME_PONG
    case StreamOpen => FRAME_STREAM_OPEN
    case StreamClose => FRAME_STREAM_CLOSE
    case Settings => FRAME_SETTINGS
    case Hello => FRAME_HELLO
    case HelloAck => FRAME_HELLO_ACK
    case HelloDone => FRAME_HELLO_DONE
    case MultiPath => FRAME_MULTI_PATH
    case PathClose => FRAME_PATH_CLOSE
    case FlowControl => FRAME_FLOW_CONTROL
    case MaxData => FRAME_MAX_DATA
    case Blocked => FRAME_BLOCKED
    case Ack2 => FRAME_ACK2
  }

  /** The inverse of ToU8; its contract leaves no other choice. */
  function FromU8(value: Byte): (t: Option<FrameType>)
    ensures t.Some? ==> ToU8(t.value) == value
    ensures t.None? ==> forall u :: ToU8(u) != value
  {
    if value == FRAME_DATA then Some(Data)
    else if value == FRAME_PING then Some(Ping)
    else if value == FRAME_PONG then Some(Pong)
    else if value == FRAME_STREAM_OPEN then Some(StreamOpen)
    else if value == FRAME_STREAM_CLOSE then Some(StreamClose)
    else if value == FRAME_SETTINGS then Some(Settings)
    else if value == FRAME_HELLO then Some(Hello)
    else if value == FRAME_HELLO_ACK then Some(HelloAck)
    else if value == FRAME_HELLO_DONE then Some(HelloDone)
    else if value == FRAME_MULTI_PATH then Some(MultiPath)
    else if value == FRAME_PATH_CLOSE then Some(PathClose)
    else if value == FRAME_FLOW_CONTROL then Some(FlowControl)
    else if value == FRAME_MAX_DATA then Some(MaxData)
    else if value == FRAME_BLOCKED then Some(Blocked)
    else if value == FRAME_ACK2 then Some(Ack2)
    else None
  }

  /** The type bytes and the two flags on the wire. */
  lemma WireConstants()
    ensures ToU8(Data) == 0x01 && ToU8(Ping) == 0x02 && ToU8(Pong) == 0x03
    ensures ToU8(StreamOpen) == 0x04 && ToU8(StreamClose) == 0x05 && ToU8(Settings) == 0x08
    ensures ToU8(Hello) == 0x10 && ToU8(HelloAck) == 0x11 && ToU8(HelloDone) == 0x12
    ensures ToU8(MultiPath) == 0x20 && ToU8(PathClose) == 0x21
    ensures ToU8(FlowControl) == 0x30 && ToU8(MaxData) == 0x31 && ToU8(Blocked) == 0x32 && ToU8(Ack2) == 0x33
    ensures FLAG_COMPRESSED == 0x01 && FLAG_ENCRYPTED == 0x02
    ensures FRAME_DATA == 0x01 && FRAME_PING == 0x02 && FRAME_PONG == 0x03 && FRAME_STREAM_OPEN == 0x04
    ensures FRAME_STREAM_CLOSE == 0x05 && FRAME_HELLO == 0x10 && FRAME_HELLO_ACK == 0x11
  {
  }

  datatype Frame = Frame(kind: Byte, flags: Byte, streamId: U32, payload: Bytes)

  function Lead(kind: Byte, flags: Byte): Bytes { [MAGIC_BYTE, VERSION, kind, flags] }

  /** The checksum fed to the hasher in four updates. */
  function HashedChecksum(kind: Byte, flags: Byte, streamId: U32, length: U32, payload: Bytes): U32 {
    Finish(Update(Update(Update(Update(PRESET, Lead(kind, flags)), Be32(streamId)), Be32(length)), payload))
  }

  function Marshal(f: Frame): Bytes {
    var length := ToU32(|f.payload|);
    Lead(f.kind, f.flags) + Be32(f.streamId) + Be32(length)
    + Be32(HashedChecksum(f.kind, f.flags, f.streamId, length, f.payload)) + f.payload
  }

  function Unmarshal(data: Bytes): Result<Frame, Error> {
    if |data| < HEADER_SIZE then Err(DataTooShort)
    else if data[0] != MAGIC_BYTE then Err(BadMagic)
    else if data[1] != VERSION then Err(BadVersion)
    else
      var kind, flags, streamId, length := data[2], data[3], ReadWord(data, 4), ReadWord(data, 8);
      if |data| < HEADER_SIZE + length then Err(IncompleteFrame)
      else
        var payload := data[HEADER_SIZE..HEADER_SIZE + length];
        if HashedChecksum(kind, flags, streamId, length, payload) != ReadWord(data, 12) then Err(ChecksumMismatch)
        else Ok(Frame(kind, flags, streamId, payload))
  }

  /** One read_frame call on the buffered bytes; max == 0 means no limit. */
  function ReadStep(max: U32, buffer: Bytes): Step<Frame, Error> {
    if |buffer| < HEADER_SIZE then NeedMore
    else if buffer[0] != MAGIC_BYTE then Failed(BadMagic)
    else
      var length := ReadWord(buffer, 8);
      if max > 0 && length > max then Failed(FrameTooLarge)
      else
        var total := HEADER_SIZE + length;
        if |buffer| < total then NeedMore
        else
          match Unmarshal(buffer[..total])
          case Err(e) => Failed(e)
          case Ok(f) => Got(f, buffer[total..])
  }

  function Stepping(max: U32): Stepper<Frame, Error> {
    (b: Bytes) => ReadStep(max, b)
  }

  /** The frames a reader with this limit can deliver. */
  predicate Deliverable(max: U32, f: Frame) {
    |f.payload| < TWO32 && (max > 0 ==> |f.payload| <= max)
  }

  function Delivering(max: U32): Frame -> bool {
    (f: Frame) => Deliverable(max, f)
  }

  lemma StepUnderAppend(max: U32, b: Bytes, x: Bytes)
    ensures ReadStep(max, b).Failed? ==> ReadStep(max, b + x) == ReadStep(max, b)
    ensures ReadStep(max, b).Got? ==> ReadStep(max, b + x) == Got(ReadStep(max, b).frame, ReadStep(max, b).rest + x)
  {
    hide Unmarshal, ReadWord;
    if |b| >= HEADER_SIZE {
      WordUnderAppend(b, x, 8);
      var total := HEADER_SIZE + ReadWord(b, 8);
      if |b| >= total {
        assert (b + x)[..total] == b[..total];
        assert (b + x)[total..] == b[total..] + x;
      }
    }
  }

  lemma ReaderIsIncremental(max: U32)
    ensures Incremental(Stepping(max)) && Stepping(max)([]) == NeedMore
  {
    var step := Stepping(max);
    forall b: Bytes, x: Bytes
      ensures step(b).Failed? ==> step(b + x) == step(b)
      ensures step(b).Got? ==> step(b + x) == Got(step(b).frame, step(b).rest + x)
    {
      StepUnderAppend(max, b, x);
    }
  }

  /** What the client's reader yields for a stream that arrives in these chunks if it is drained after each. */
  ghost function ReadAll(max: U32, chunks: seq<Bytes>): Outcome<Frame, Error> {
    ReaderIsIncremental(max);
    Run(Stepping(max), [], chunks)
  }
}
