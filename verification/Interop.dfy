/** The two independently written codecs and readers, compared. */
module Interop {
  import opened Crc32
  import opened FrameFormat
  import opened FrameStreams
  import opened Sequences
  import opened WireBytes
  import opened Wrappers
  import Go = GoProtocol
  import GoStreams
  import Rust = RustProtocol

  /** What the Rust client keeps of a frame. */
  function ToRust(g: Go.Frame): Rust.Frame {
    Rust.Frame(g.kind, g.flags, g.streamId, g.payload)
  }

  /** The Go frame with these fields and a checksum that is consistent with them. */
  function ToGo(r: Rust.Frame): Go.Frame {
    var blank := Go.Frame(MAGIC_BYTE, VERSION, r.kind, r.flags, r.streamId, ToU32(|r.payload|), 0, r.payload);
    blank.(checksum := Go.CalculateChecksum(blank))
  }

  // ---------------------------------------------------------------- encoders

  /** Four incremental updates compute the checksum of the concatenation. */
  lemma FourUpdates(kind: Byte, flags: Byte, streamId: U32, length: U32, payload: Bytes)
    ensures Rust.HashedChecksum(kind, flags, streamId, length, payload)
         == Checksum([MAGIC_BYTE, VERSION, kind, flags] + Be32(streamId) + Be32(length) + payload)
  {
    var a, b, c := [MAGIC_BYTE, VERSION, kind, flags], Be32(streamId), Be32(length);
    UpdateConcat(PRESET, a, b);
    UpdateConcat(PRESET, a + b, c);
    UpdateConcat(PRESET, a + b + c, payload);
  }

  lemma ToGoIsValid(r: Rust.Frame)
    ensures Go.Validate(ToGo(r)).None? && ToRust(ToGo(r)) == r
  {
    var blank := Go.Frame(MAGIC_BYTE, VERSION, r.kind, r.flags, r.streamId, ToU32(|r.payload|), 0, r.payload);
    assert Go.Header(ToGo(r)) == Go.Header(blank);
  }

  /** Exactly the valid Go frames are determined by what Rust keeps of them. */
  lemma ValidIff(g: Go.Frame)
    ensures Go.Validate(g).None? <==> ToGo(ToRust(g)) == g
  {
    ToGoIsValid(ToRust(g));
    if Go.Validate(g).None? {
      var blank := g.(checksum := 0);
      assert Go.Header(blank) == Go.Header(g);
    }
  }

  /** Both encoders produce the same bytes. */
  lemma SameEncoding(r: Rust.Frame)
    ensures Rust.Marshal(r) == Go.Marshal(ToGo(r))
  {
    var g := ToGo(r);
    var blank := g.(checksum := 0);
    assert Go.Header(blank) == Go.Header(g) == Rust.Lead(r.kind, r.flags) + Be32(r.streamId) + Be32(g.length);
    FourUpdates(r.kind, r.flags, r.streamId, g.length, r.payload);
  }

  // ---------------------------------------------------------------- decoders

  /** Go's validation of a frame of the announced length checks what Rust checks. */
  lemma SameChecks(g: Go.Frame)
    requires g.length == |g.payload|
    ensures Go.Validate(g) ==
            if g.magic != MAGIC_BYTE then Some(BadMagic)
            else if g.version != VERSION then Some(BadVersion)
            else if Rust.HashedChecksum(g.kind, g.flags, g.streamId, g.length, g.payload) != g.checksum then Some(ChecksumMismatch)
            else None
  {
    hide Checksum, Rust.HashedChecksum;
    FourUpdates(g.kind, g.flags, g.streamId, g.length, g.payload);
  }

  lemma RustUnmarshalCases(data: Bytes)
    requires |data| >= HEADER_SIZE && |data| >= HEADER_SIZE + ReadWord(data, 8)
    ensures var g := Go.FrameAt(data, HEADER_SIZE + ReadWord(data, 8));
            Rust.Unmarshal(data) == (if Go.Validate(g).Some? then Err(Go.Validate(g).value) else Ok(ToRust(g)))
  {
    hide Go.Validate, Rust.HashedChecksum, ReadWord;
    SameChecks(Go.FrameAt(data, HEADER_SIZE + ReadWord(data, 8)));
  }

  /** The Rust decoder on the bytes; it looks at magic byte and version before the length. */
  lemma RustUnmarshalOnBytes(d: Bytes)
    ensures Rust.Unmarshal(d) ==
            if |d| < 16 then Err(DataTooShort)
            else if d[0] != 0xB0 then Err(BadMagic)
            else if d[1] != 0x01 then Err(BadVersion)
            else if |d| < 16 + ReadWord(d, 8) then Err(IncompleteFrame)
            else if !Go.ChecksumHolds(d) then Err(ChecksumMismatch)
            else Ok(Rust.Frame(d[2], d[3], ReadWord(d, 4), d[16..16 + ReadWord(d, 8)]))
  {
    hide ReadWord, Go.ChecksumHolds, Go.Validate, Rust.HashedChecksum;
    if |d| >= 16 && |d| >= 16 + ReadWord(d, 8) {
      RustUnmarshalCases(d);
      Go.ValidateAt(d);
      hide Rust.Unmarshal;
    }
  }

  /** The decoders accept the same inputs with the same fields, except where Go's slice bound wraps. */
  lemma SameDecoding(data: Bytes, r: Rust.Frame)
    ensures Go.UnmarshalFrame(data) == Ok(ToGo(r)) <==> Rust.Unmarshal(data) == Ok(r) && |r.payload| < Go.SLICE_LIMIT
    ensures Go.UnmarshalFrame(data) == Err(BoundsPanic)
       <==> |data| >= HEADER_SIZE && ReadWord(data, 8) >= Go.SLICE_LIMIT && |data| >= HEADER_SIZE + ReadWord(data, 8)
  {
    hide Go.Validate, Rust.HashedChecksum, Go.CalculateChecksum, ReadWord;
    if |data| >= HEADER_SIZE && |data| >= HEADER_SIZE + ReadWord(data, 8) {
      Go.UnmarshalCases(data);
      RustUnmarshalCases(data);
      var g := Go.FrameAt(data, HEADER_SIZE + ReadWord(data, 8));
      ValidIff(g);
      ToGoIsValid(r);
    }
  }

  /** Go decodes what Rust encodes, flags and all, exactly when its slice bound does not wrap. */
  lemma RustToGoIff(r: Rust.Frame)
    ensures Go.UnmarshalFrame(Rust.Marshal(r)) == Ok(ToGo(r)) <==> |r.payload| < Go.SLICE_LIMIT
  {
    hide Go.UnmarshalFrame, Go.Validate, Rust.Marshal, Go.Marshal;
    SameEncoding(r);
    ToGoIsValid(r);
    Go.RoundTripIff(ToGo(r));
  }

  /** Rust decodes what Go encodes exactly when the frame is valid and its length fits 32 bits. */
  lemma GoToRustIff(g: Go.Frame)
    ensures Rust.Unmarshal(Go.Marshal(g)) == Ok(ToRust(g)) <==> Go.Validate(g).None? && |g.payload| < TWO32
  {
    hide Go.Validate, Go.Marshal, ReadWord, Rust.HashedChecksum;
    var data := Go.Marshal(g);
    assert data + [] == data;
    Go.FrameAtMarshal(g, []);
    assert ReadWord(data, 8) == g.length;
    if |g.payload| == g.length {
      RustUnmarshalCases(data);
    } else if |g.payload| > g.length {
      RustUnmarshalCases(data);
      assert |Go.FrameAt(data, HEADER_SIZE + g.length).payload| == g.length;
    }
    if Go.Validate(g).None? && |g.payload| < TWO32 {
      LengthChecked(g);
    }
  }

  lemma LengthChecked(g: Go.Frame)
    requires Go.Validate(g).None? && |g.payload| < TWO32
    ensures g.length == |g.payload|
  {
    hide Go.CalculateChecksum, ToU32;
    SmallToU32(|g.payload|);
  }

  // ---------------------------------------------------------------- readers

  lemma RustStepGot(max: U32, b: Bytes)
    requires Rust.ReadStep(max, b).Got?
    ensures var r := Rust.ReadStep(max, b).frame;
            Rust.Deliverable(max, r) && b == Rust.Marshal(r) + Rust.ReadStep(max, b).rest
  {
    hide Go.Validate, Go.Marshal, Rust.Marshal, Rust.Unmarshal, ReadWord;
    var total := HEADER_SIZE + ReadWord(b, 8);
    var data := b[..total];
    WordInPrefix(b, total, 8);
    RustUnmarshalCases(data);
    var g := Go.FrameAt(data, total);
    ValidIff(g);
    SameEncoding(ToRust(g));
    Go.MarshalFrameAt(data, total);
    assert data[..total] == data && b == data + b[total..];
  }

  lemma RustStepOnMarshal(max: U32, r: Rust.Frame, rest: Bytes)
    requires Rust.Deliverable(max, r)
    ensures Rust.ReadStep(max, Rust.Marshal(r) + rest) == Got(r, rest)
  {
    hide Go.Validate, Go.Marshal, Rust.Marshal, Rust.Unmarshal;
    var g := ToGo(r);
    var b := Go.Marshal(g) + rest;
    var total := HEADER_SIZE + |r.payload|;
    SameEncoding(r);
    ToGoIsValid(r);
    Go.FrameAtMarshal(g, rest);
    Go.FrameAtMarshal(g, []);
    SmallLength(r);
    assert b[..total] == Go.Marshal(g) == Go.Marshal(g) + [] && b[total..] == rest;
    assert ReadWord(b, 8) == ReadWord(b[..total], 8) == g.length;
    RustUnmarshalCases(b[..total]);
    assert b[0] == g.magic;
  }

  lemma SmallLength(r: Rust.Frame)
    requires |r.payload| < TWO32
    ensures ToGo(r).length == |r.payload|
  {
    hide ToU32, Go.CalculateChecksum;
    SmallToU32(|r.payload|);
  }

  /** The Rust step delivers a frame exactly when the buffer starts with its encoding. */
  lemma RustReaderDecodes(max: U32)
    ensures Decodes(Rust.Stepping(max), Rust.Marshal, Rust.Delivering(max))
  {
    forall b: Bytes, r: Rust.Frame, rest: Bytes
      ensures DecodesAt(Rust.Stepping(max), Rust.Marshal, Rust.Delivering(max), b, r, rest)
    {
      RustReaderDecodesAt(max, b, r, rest);
    }
  }

  lemma RustReaderDecodesAt(max: U32, b: Bytes, r: Rust.Frame, rest: Bytes)
    ensures DecodesAt(Rust.Stepping(max), Rust.Marshal, Rust.Delivering(max), b, r, rest)
  {
    if Rust.ReadStep(max, b) == Got(r, rest) {
      RustStepGot(max, b);
    }
    if Rust.Deliverable(max, r) && b == Rust.Marshal(r) + rest {
      RustStepOnMarshal(max, r, rest);
    }
  }

  /** The Rust reader reports these frames and no error exactly when the stream encodes them. */
  lemma RustStreamIff(max: U32, chunks: seq<Bytes>, frames: seq<Rust.Frame>, rest: Bytes)
    ensures Rust.ReadAll(max, chunks) == Outcome(frames, rest, None)
       <==> && AllGood(Rust.Delivering(max), frames)
            && Flatten(chunks) == EncodeAll(Rust.Marshal, frames) + rest
            && RustWaiting(max, rest)
  {
    RustStepOnBytes(max, rest);
    hide RustWaiting, Rust.ReadStep;
    Rust.ReaderIsIncremental(max);
    RustReaderDecodes(max);
    RunIff(Rust.Stepping(max), Rust.Marshal, Rust.Delivering(max), chunks, frames, rest);
  }

  /** The Rust step checks the magic byte first, then the length, then whether the frame is complete. */
  predicate RustWaiting(max: U32, b: Bytes) {
    |b| < 16 || (b[0] == 0xB0 && (max == 0 || ReadWord(b, 8) <= max) && |b| < 16 + ReadWord(b, 8))
  }

  predicate RustWhole(max: U32, b: Bytes) {
    |b| >= 16 && b[0] == 0xB0 && (max == 0 || ReadWord(b, 8) <= max) && |b| >= 16 + ReadWord(b, 8)
  }

  predicate RustFaulty(max: U32, b: Bytes, e: Error) {
    match e
    case BadMagic => |b| >= 16 && b[0] != 0xB0
    case FrameTooLarge => |b| >= 16 && b[0] == 0xB0 && max > 0 && ReadWord(b, 8) > max
    case BadVersion => RustWhole(max, b) && b[1] != 0x01
    case ChecksumMismatch => RustWhole(max, b) && b[1] == 0x01 && !Go.ChecksumHolds(b)
    case _ => false
  }

  /** One read step of the Rust reader as conditions on the bytes. */
  lemma RustStepOnBytes(max: U32, b: Bytes)
    ensures Rust.ReadStep(max, b).NeedMore? <==> RustWaiting(max, b)
    ensures forall e :: Rust.ReadStep(max, b) == Failed(e) <==> RustFaulty(max, b, e)
    ensures Rust.ReadStep(max, b).Got? <==> RustWhole(max, b) && b[1] == 0x01 && Go.ChecksumHolds(b)
  {
    hide ReadWord, Go.ChecksumHolds, Go.Validate, Rust.Unmarshal, Go.FrameAt;
    if |b| >= 16 && b[0] == 0xB0 && !(max > 0 && ReadWord(b, 8) > max) && |b| >= 16 + ReadWord(b, 8) {
      var total := 16 + ReadWord(b, 8);
      Go.WordsOfPrefix(b, total);
      RustUnmarshalCases(b[..total]);
      Go.ValidateAt(b[..total]);
    }
  }

  lemma RustFaultyIff(max: U32, b: Bytes, e: Error)
    ensures Rust.ReadStep(max, b) == Failed(e) <==> RustFaulty(max, b, e)
  {
    RustStepOnBytes(max, b);
  }

  /** Drained after every chunk, the Rust reader fails exactly when something is wrong with the bytes after the delivered frames. */
  lemma RustStreamFailure(max: U32, chunks: seq<Bytes>, frames: seq<Rust.Frame>, e: Error)
    ensures Rust.ReadAll(max, chunks).frames == frames && Rust.ReadAll(max, chunks).error == Some(e)
       <==> AllGood(Rust.Delivering(max), frames)
            && exists bad: Bytes :: Flatten(chunks) == EncodeAll(Rust.Marshal, frames) + bad && RustFaulty(max, bad, e)
  {
    forall bad: Bytes
      ensures Rust.ReadStep(max, bad) == Failed(e) <==> RustFaulty(max, bad, e)
    {
      RustFaultyIff(max, bad, e);
    }
    Rust.ReaderIsIncremental(max);
    RustReaderDecodes(max);
    hide RustFaulty, Rust.ReadStep;
    RunFailsIff(Rust.Stepping(max), Rust.Marshal, Rust.Delivering(max), chunks, frames, e);
    assert forall bad: Bytes :: Rust.Stepping(max)(bad) == Rust.ReadStep(max, bad);
  }

  /** How the two steps compare on the same buffer under the same nonzero limit. */
  lemma StepsAgree(max: U32, b: Bytes)
    requires 0 < max < Go.SLICE_LIMIT
    ensures var g, r := Go.ReadStep(max, b), Rust.ReadStep(max, b);
            && (g.Got? <==> r.Got?)
            && (g.Got? ==> r.frame == ToRust(g.frame) && r.rest == g.rest)
            && (r.NeedMore? ==> g.NeedMore?)
            && (r.Failed? && r.error != BadMagic ==> g == Failed(r.error))
            && (r == Failed(BadMagic) ==> g.NeedMore? || g == Failed(BadMagic) || g == Failed(FrameTooLarge))
  {
    hide Go.CalculateChecksum, Rust.Unmarshal, Go.UnmarshalFrame, ReadWord;
    if |b| >= HEADER_SIZE {
      var total := HEADER_SIZE + ReadWord(b, 8);
      if ReadWord(b, 8) <= max && |b| >= total {
        var data := b[..total];
        WordInPrefix(b, total, 8);
        Go.UnmarshalCases(data);
        RustUnmarshalCases(data);
        var g := Go.FrameAt(data, total);
        assert g.magic == b[0];
        assert g.magic != MAGIC_BYTE ==> Go.Validate(g) == Some(BadMagic);
        assert Go.Validate(g) == Some(BadMagic) ==> g.magic != MAGIC_BYTE;
      }
    }
  }

  function AllToRust(frames: seq<Go.Frame>): seq<Rust.Frame> {
    if frames == [] then [] else [ToRust(frames[0])] + AllToRust(frames[1..])
  }

  /**
   Same frames. The Rust reader checks the magic byte before the payload has arrived and before
   the length, so where it reports a bad magic byte the Go reader may still wait or call the
   frame too large; every other error, and the bytes left without one, are the same.
   */
  predicate Agree(g: Outcome<Go.Frame, Error>, r: Outcome<Rust.Frame, Error>) {
    && r.frames == AllToRust(g.frames)
    && (r.error.None? ==> g.error.None? && g.rest == r.rest)
    && (r.error.Some? && r.error.value != BadMagic ==> g.error == r.error)
    && (r.error == Some(BadMagic) ==> g.error.None? || g.error == Some(BadMagic) || g.error == Some(FrameTooLarge))
  }

  lemma {:induction false} DrainsAgree(max: U32, s: Bytes)
    requires 0 < max < Go.SLICE_LIMIT && Consumes(Go.Stepping(max)) && Consumes(Rust.Stepping(max))
    ensures Agree(Drain(Go.Stepping(max), s), Drain(Rust.Stepping(max), s))
    decreases |s|
  {
    hide Go.ReadStep, Rust.ReadStep;
    StepsAgree(max, s);
    var g := Go.Stepping(max)(s);
    assert g == Go.ReadStep(max, s) && Rust.Stepping(max)(s) == Rust.ReadStep(max, s);
    if g.Got? {
      DrainsAgree(max, g.rest);
      var more := Drain(Go.Stepping(max), g.rest);
      assert ([g.frame] + more.frames)[1..] == more.frames;
    }
  }

  /** Both readers, each fed the same stream in chunks of its own, deliver the same frames. */
  lemma ReadersAgree(max: U32, goChunks: seq<Bytes>, rustChunks: seq<Bytes>)
    requires 0 < max < Go.SLICE_LIMIT && Flatten(goChunks) == Flatten(rustChunks)
    ensures Agree(GoStreams.ReadAll(max, goChunks), Rust.ReadAll(max, rustChunks))
  {
    hide Go.ReadStep, Rust.ReadStep;
    var s := Flatten(goChunks);
    Go.ReaderIsIncremental(max);
    Rust.ReaderIsIncremental(max);
    ChunkInvariance(Go.Stepping(max), [], goChunks);
    ChunkInvariance(Rust.Stepping(max), [], rustChunks);
    assert [] + s == s;
    DrainsAgree(max, s);
  }

  lemma {:induction false} AllToRustLength(frames: seq<Go.Frame>)
    ensures |AllToRust(frames)| == |frames|
  {
    if frames != [] {
      AllToRustLength(frames[1..]);
    }
  }

  /** Once the Rust reader has seen a bad magic byte, no further bytes make the Go reader deliver a frame. */
  lemma NothingAfterBadMagic(max: U32, goChunks: seq<Bytes>, more: seq<Bytes>, rustChunks: seq<Bytes>)
    requires 0 < max < Go.SLICE_LIMIT && Flatten(goChunks) == Flatten(rustChunks)
    requires Rust.ReadAll(max, rustChunks).error == Some(BadMagic)
    ensures GoStreams.ReadAll(max, goChunks + more).frames == GoStreams.ReadAll(max, goChunks).frames
  {
    hide Go.ReadStep, Rust.ReadStep;
    var s, x := Flatten(goChunks), Flatten(more);
    Go.ReaderIsIncremental(max);
    Rust.ReaderIsIncremental(max);
    var go, rust := Go.Stepping(max), Rust.Stepping(max);
    ChunkInvariance(rust, [], rustChunks);
    ChunkInvariance(go, [], goChunks);
    ChunkInvariance(go, [], goChunks + more);
    FlattenConcat(goChunks, more);
    assert [] + s == s && [] + (s + x) == s + x;
    DrainAppend(rust, s, x);
    DrainAppend(go, s, x);
    DrainsAgree(max, s);
    DrainsAgree(max, s + x);
    AllToRustLength(Drain(go, s).frames);
    AllToRustLength(Drain(go, s + x).frames);
    assert Drain(go, s).frames <= Drain(go, s + x).frames;
  }

  /** A frame this long is delivered by the Rust reader and panics the Go reader. */
  lemma OversizeDiverges(max: U32, r: Rust.Frame)
    requires max >= Go.SLICE_LIMIT && Go.SLICE_LIMIT <= |r.payload| <= max
    ensures Rust.ReadStep(max, Rust.Marshal(r)) == Got(r, [])
    ensures Go.ReadStep(max, Rust.Marshal(r)) == Failed(BoundsPanic)
  {
    hide Go.Marshal, Rust.Marshal, Rust.ReadStep, Go.UnmarshalFrame;
    var g := ToGo(r);
    var b := Go.Marshal(g);
    assert Rust.Marshal(r) + [] == Rust.Marshal(r) && b + [] == b;
    RustStepOnMarshal(max, r, []);
    SameEncoding(r);
    SmallLength(r);
    Go.FrameAtMarshal(g, []);
    assert b[..HEADER_SIZE + |r.payload|] == b;
    Go.UnmarshalCases(b);
  }

  /** The two readers agree on a stream, each with a limit of its own. */
  ghost predicate AgreeOn(goMax: U32, rustMax: U32, s: Bytes) {
    Go.ReaderIsIncremental(goMax);
    Rust.ReaderIsIncremental(rustMax);
    Agree(Drain(Go.Stepping(goMax), s), Drain(Rust.Stepping(rustMax), s))
  }

  /** A stream of one frame that Rust delivers and Go does not tells the readers apart. */
  lemma OneFrameTells(goMax: U32, rustMax: U32, r: Rust.Frame)
    requires Rust.ReadStep(rustMax, Rust.Marshal(r)) == Got(r, []) && Go.ReadStep(goMax, Rust.Marshal(r)).Failed?
    ensures !AgreeOn(goMax, rustMax, Rust.Marshal(r))
  {
    hide Go.ReadStep, Rust.ReadStep, Rust.Marshal;
    Go.ReaderIsIncremental(goMax);
    Rust.ReaderIsIncremental(rustMax);
    var s := Rust.Marshal(r);
    assert Rust.Stepping(rustMax)(s) == Rust.ReadStep(rustMax, s) && Go.Stepping(goMax)(s) == Go.ReadStep(goMax, s);
    assert |Drain(Rust.Stepping(rustMax), s).frames| > 0 && Drain(Go.Stepping(goMax), s).frames == [];
  }

  /** Configured with zero, the Go reader delivers frames of up to 65536 bytes. */
  lemma DefaultLimit(r: Rust.Frame)
    ensures Go.ReadStep(Go.ReaderLimit(0), Rust.Marshal(r)) == Got(ToGo(r), []) <==> |r.payload| <= 65536
  {
    hide Go.ReadStep, Go.Marshal, Rust.Marshal, Go.Validate;
    SameEncoding(r);
    ToGoIsValid(r);
    assert Go.Marshal(ToGo(r)) + [] == Go.Marshal(ToGo(r));
    Go.StepDelivers(Go.ReaderLimit(0), Rust.Marshal(r), ToGo(r), []);
  }

  /** Configured with zero, Go falls back to 65536 and Rust to no limit: the first longer frame divides them. */
  lemma DefaultsDiverge(r: Rust.Frame)
    requires |r.payload| == 65537
    ensures Rust.ReadStep(0, Rust.Marshal(r)) == Got(r, [])
    ensures Go.ReadStep(Go.ReaderLimit(0), Rust.Marshal(r)) == Failed(FrameTooLarge)
  {
    hide Go.Marshal, Rust.Marshal, Rust.ReadStep, Go.UnmarshalFrame;
    var g := ToGo(r);
    var b := Go.Marshal(g);
    assert Rust.Marshal(r) + [] == Rust.Marshal(r) && b + [] == b;
    RustStepOnMarshal(0, r, []);
    SameEncoding(r);
    SmallLength(r);
    Go.FrameAtMarshal(g, []);
    assert ReadWord(b, 8) == 65537;
  }

  /**
   Configured with the same value, which both sides cut to 32 bits, the readers agree on every stream
   exactly when it is not zero there and keeps Go's slice bound from wrapping.
   */
  lemma AgreementIff(configured: int)
    ensures var max := ToU32(configured);
            (forall s: Bytes :: AgreeOn(Go.ReaderLimit(configured), max, s)) <==> 0 < max < Go.SLICE_LIMIT
  {
    var max, limit := ToU32(configured), Go.ReaderLimit(configured);
    assert max == 0 ==> limit == Go.ReaderLimit(0);
    assert max > 0 ==> limit == max;
    hide Go.ReadStep, Rust.ReadStep, Rust.Marshal, ToU32, Go.ReaderLimit;
    if 0 < max < Go.SLICE_LIMIT {
      Go.ReaderIsIncremental(max);
      Rust.ReaderIsIncremental(max);
      forall s: Bytes ensures AgreeOn(limit, max, s) {
        DrainsAgree(max, s);
      }
    } else {
      var r := Rust.Frame(0, 0, 0, seq(if max == 0 then 65537 else Go.SLICE_LIMIT, _ => 0));
      if max == 0 {
        DefaultsDiverge(r);
      } else {
        OversizeDiverges(max, r);
      }
      OneFrameTells(limit, max, r);
      assert !AgreeOn(limit, max, Rust.Marshal(r));
    }
  }
}
