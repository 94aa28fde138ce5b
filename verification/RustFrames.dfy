/** The Rust client's hasher, encoder and frame reader, updated in place as the client does. */
module RustFrames {
  import opened Crc32
  import opened FrameFormat
  import opened FrameStreams
  import opened RustProtocol
  import opened WireBytes
  import opened Wrappers

  /** An incremental checksum. */
  class Hasher {
    var register: Register

    constructor ()
      ensures register == PRESET
    {
      register := PRESET;
    }

    method Absorb(data: Bytes)
      modifies this
      ensures register == Update(old(register), data)
    {
      assert data[..0] == [];
      for i := 0 to |data|
        invariant register == Update(old(register), data[..i])
      {
        assert data[..i + 1] == data[..i] + [data[i]];
        UpdateConcat(old(register), data[..i], [data[i]]);
        register := Update(register, [data[i]]);
      }
      assert data[..|data|] == data;
    }

    method Finalize() returns (crc: U32)
      ensures crc == Finish(register)
    {
      crc := Finish(register);
    }
  }

  /** Builds the encoding field by field; the checksum is computed here, from whatever flags are set by now. */
  method MarshalFrame(f: Frame) returns (buf: Bytes)
    ensures buf == Marshal(f)
  {
    hide Update, Finish, Be32, ToU32;
    var length := ToU32(|f.payload|);
    buf := [];
    buf := buf + [MAGIC_BYTE];
    buf := buf + [VERSION];
    buf := buf + [f.kind];
    buf := buf + [f.flags];
    assert buf == Lead(f.kind, f.flags);
    buf := buf + Be32(f.streamId);
    buf := buf + Be32(length);
    var hasher := new Hasher();
    hasher.Absorb(Lead(f.kind, f.flags));
    hasher.Absorb(Be32(f.streamId));
    hasher.Absorb(Be32(length));
    hasher.Absorb(f.payload);
    var checksum := hasher.Finalize();
    buf := buf + Be32(checksum);
    buf := buf + f.payload;
  }

  class FrameReader {
    var buffer: Bytes
    const maxLength: U32

    constructor (maxLength: U32)
      ensures buffer == [] && this.maxLength == maxLength
    {
      buffer := [];
      this.maxLength := maxLength;
    }

    method Feed(data: Bytes)
      modifies this
      ensures buffer == old(buffer) + data
    {
      buffer := buffer + data;
    }

    /** Reads one frame. A frame that is complete leaves the buffer even when it is rejected. */
    method ReadFrame() returns (step: Step<Frame, Error>)
      modifies this
      ensures step == ReadStep(maxLength, old(buffer))
      ensures var b, total := old(buffer), if |old(buffer)| < 16 then 0 else 16 + ReadWord(old(buffer), 8);
              buffer ==
              if |b| >= 16 && b[0] == 0xB0 && (maxLength == 0 || total <= 16 + maxLength) && |b| >= total then b[total..] else b
      ensures step.Got? ==> buffer == step.rest
      ensures step.NeedMore? ==> buffer == old(buffer)
    {
      hide ReadWord, Unmarshal;
      if |buffer| < HEADER_SIZE {
        return NeedMore;
      }
      if buffer[0] != MAGIC_BYTE {
        return Failed(BadMagic);
      }
      var length := ReadWord(buffer, 8);
      if maxLength > 0 && length > maxLength {
        return Failed(FrameTooLarge);
      }
      var total := HEADER_SIZE + length;
      if |buffer| < total {
        return NeedMore;
      }
      var data := buffer[..total];
      buffer := buffer[total..];
      var decoded := Unmarshal(data);
      step := if decoded.Err? then Failed(decoded.error) else Got(decoded.value, buffer);
    }
  }

  /** The reader drained after every chunk. The client itself asks for one frame a read; see RustClient. */
  method ReadConnection(r: FrameReader, chunks: seq<Bytes>) returns (frames: seq<Frame>, error: Option<Error>)
    requires r.buffer == []
    modifies r
    ensures frames == ReadAll(r.maxLength, chunks).frames && error == ReadAll(r.maxLength, chunks).error
    ensures error.None? ==> r.buffer == ReadAll(r.maxLength, chunks).rest
  {
    ReaderIsIncremental(r.maxLength);
    hide ReadStep, Drain, Stepping, Run, After, Incremental, Consumes;
    ghost var step := Stepping(r.maxLength);
    frames, error := [], None;
    AfterNothing(Run(step, [], chunks));
    assert chunks[0..] == chunks;
    for k := 0 to |chunks|
      invariant error.None? && Run(step, [], chunks) == After(frames, Run(step, r.buffer, chunks[k..]))
    {
      assert chunks[k..][0] == chunks[k] && chunks[k..][1..] == chunks[k + 1..];
      RunCons(step, frames, r.buffer, chunks[k..]);
      ghost var was := frames;
      r.Feed(chunks[k]);
      ghost var o := Drain(step, r.buffer);
      var fs, e := DrainReader(r);
      frames, error := frames + fs, e;
      if e.Some? {
        AfterIs(was, fs, o.rest, e);
        assert o == Outcome(fs, o.rest, e);
        return;
      }
      assert o == Outcome(fs, r.buffer, None);
    }
    assert chunks[|chunks|..] == [];
    RunNil(step, frames, r.buffer);
  }

  method DrainReader(r: FrameReader) returns (frames: seq<Frame>, error: Option<Error>)
    modifies r
    ensures Consumes(Stepping(r.maxLength))
    ensures frames == Drain(Stepping(r.maxLength), old(r.buffer)).frames
    ensures error == Drain(Stepping(r.maxLength), old(r.buffer)).error
    ensures error.None? ==> r.buffer == Drain(Stepping(r.maxLength), old(r.buffer)).rest
  {
    ReaderIsIncremental(r.maxLength);
    hide ReadStep, Drain, After, Incremental;
    ghost var step := Stepping(r.maxLength);
    frames, error := [], None;
    AfterNothing(Drain(step, r.buffer));
    while true
      invariant Drain(step, old(r.buffer)) == After(frames, Drain(step, r.buffer))
      decreases |r.buffer|
    {
      ghost var before := r.buffer;
      DrainCons(step, frames, before);
      var result := r.ReadFrame();
      assert step(before) == ReadStep(r.maxLength, before);
      match result {
        case NeedMore =>
          return;
        case Failed(e) =>
          error := Some(e);
          return;
        case Got(f, _) =>
          frames := frames + [f];
      }
    }
  }
}
