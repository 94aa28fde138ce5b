/** Whole streams of Go frames: encode, cut into any chunks, decode; and back. */
module GoStreams {
  import opened FrameFormat
  import opened FrameStreams
  import opened GoProtocol
  import opened Sequences
  import opened WireBytes
  import opened Wrappers

  function Delivering(max: U32): Frame -> bool {
    (f: Frame) => Deliverable(max, f)
  }

  function MarshalAll(frames: seq<Frame>): Bytes {
    EncodeAll(Marshal, frames)
  }

  predicate AllDeliverable(max: U32, frames: seq<Frame>) {
    AllGood(Delivering(max), frames)
  }

  /** What the server's read loop yields for a stream that arrives in these chunks. */
  ghost function ReadAll(max: U32, chunks: seq<Bytes>): Outcome<Frame, Error> {
    ReaderIsIncremental(max);
    Run(Stepping(max), [], chunks)
  }

  lemma ReaderDecodes(max: U32)
    ensures Decodes(Stepping(max), Marshal, Delivering(max))
  {
    forall b: Bytes, f: Frame, rest: Bytes
      ensures DecodesAt(Stepping(max), Marshal, Delivering(max), b, f, rest)
    {
      ReaderDecodesAt(max, b, f, rest);
    }
  }

  lemma ReaderDecodesAt(max: U32, b: Bytes, f: Frame, rest: Bytes)
    ensures DecodesAt(Stepping(max), Marshal, Delivering(max), b, f, rest)
  {
    StepDelivers(max, b, f, rest);
  }

  /** However a stream is cut into chunks, the reader yields what draining it in one piece yields. */
  lemma ReadAllIsDrain(max: U32, chunks: seq<Bytes>)
    ensures Consumes(Stepping(max))
    ensures SameOutcome(ReadAll(max, chunks), Drain(Stepping(max), Flatten(chunks)))
  {
    ReaderIsIncremental(max);
    ChunkInvariance(Stepping(max), [], chunks);
    assert [] + Flatten(chunks) == Flatten(chunks);
  }

  /** The reader reports these frames and no error exactly when the stream encodes them and stops short of one more. */
  lemma StreamIff(max: U32, chunks: seq<Bytes>, frames: seq<Frame>, rest: Bytes)
    ensures ReadAll(max, chunks) == Outcome(frames, rest, None)
       <==> AllDeliverable(max, frames) && Flatten(chunks) == MarshalAll(frames) + rest && Waiting(max, rest)
  {
    WaitingIff(max, rest);
    hide Waiting, ReadStep;
    ReaderIsIncremental(max);
    ReaderDecodes(max);
    RunIff(Stepping(max), Marshal, Delivering(max), chunks, frames, rest);
  }

  /** Encoded frames come back as they were, however the stream is cut, and nothing is left over. */
  lemma StreamRoundTrip(max: U32, frames: seq<Frame>, chunks: seq<Bytes>)
    requires AllDeliverable(max, frames) && Flatten(chunks) == MarshalAll(frames)
    ensures ReadAll(max, chunks) == Outcome(frames, [], None)
  {
    assert MarshalAll(frames) == MarshalAll(frames) + [];
    assert Waiting(max, []);
    StreamIff(max, chunks, frames, []);
  }

  /** The reader fails exactly when something is wrong with the bytes that follow the encodings of the delivered frames. */
  lemma StreamFailure(max: U32, chunks: seq<Bytes>, frames: seq<Frame>, e: Error)
    ensures ReadAll(max, chunks).frames == frames && ReadAll(max, chunks).error == Some(e)
       <==> AllDeliverable(max, frames)
            && exists bad: Bytes :: Flatten(chunks) == MarshalAll(frames) + bad && Faulty(max, bad, e)
  {
    forall bad: Bytes
      ensures ReadStep(max, bad) == Failed(e) <==> Faulty(max, bad, e)
    {
      FaultyIff(max, bad, e);
    }
    hide Faulty, ReadStep;
    ReaderIsIncremental(max);
    ReaderDecodes(max);
    RunFailsIff(Stepping(max), Marshal, Delivering(max), chunks, frames, e);
    assert forall bad: Bytes :: Stepping(max)(bad) == ReadStep(max, bad);
  }
}
