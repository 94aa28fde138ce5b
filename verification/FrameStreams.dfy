/**
 Reading frames from a byte stream that arrives in arbitrary chunks.

 A frame reader is given by its step function: what one ReadFrame call does with the bytes
 buffered so far. Everything here is about any incremental step, so that it holds of the Go
 reader and of the Rust reader alike.
 */
module FrameStreams {
  import opened Sequences
  import opened WireBytes
  import opened Wrappers

  /** What one ReadFrame call does with the buffer. */
  datatype Step<+F, +E> =
    | NeedMore
    | Failed(error: E)
    | Got(frame: F, rest: Bytes)

  /** What draining a buffer yields: the frames, the bytes left over and the first error. */
  datatype Outcome<+F, +E> = Outcome(frames: seq<F>, rest: Bytes, error: Option<E>)

  type Stepper<!F, !E> = Bytes -> Step<F, E>

  /** A frame consumes at least one byte and leaves the end of the buffer. */
  ghost predicate Consumes<F(!new), E(!new)>(step: Stepper<F, E>) {
    forall b :: step(b).Got? ==> |step(b).rest| < |b|
  }

  /** Bytes that arrive later do not change a frame or an error. */
  ghost predicate Incremental<F(!new), E(!new)>(step: Stepper<F, E>) {
    && Consumes(step)
    && (forall b, x {:trigger step(b + x)} :: step(b).Failed? ==> step(b + x) == step(b))
    && (forall b, x {:trigger step(b + x)} :: step(b).Got? ==> step(b + x) == Got(step(b).frame, step(b).rest + x))
  }

  /** Calls ReadFrame until it asks for more bytes or fails. */
  ghost function Drain<F(!new), E(!new)>(step: Stepper<F, E>, buffer: Bytes): Outcome<F, E>
    requires Consumes(step)
    decreases |buffer|
  {
    match step(buffer)
    case NeedMore => Outcome([], buffer, None)
    case Failed(e) => Outcome([], buffer, Some(e))
    case Got(f, rest) =>
      var more := Drain(step, rest);
      Outcome([f] + more.frames, more.rest, more.error)
  }

  /** Feeds the chunks one by one, draining after each, and stops at the first error. */
  ghost function Run<F(!new), E(!new)>(step: Stepper<F, E>, buffer: Bytes, chunks: seq<Bytes>): Outcome<F, E>
    requires Consumes(step)
    decreases |chunks|
  {
    if chunks == [] then Outcome([], buffer, None)
    else
      var first := Drain(step, buffer + chunks[0]);
      if first.error.Some? then first
      else
        var more := Run(step, first.rest, chunks[1..]);
        Outcome(first.frames + more.frames, more.rest, more.error)
  }

  /** Puts frames that were delivered earlier in front. */
  function After<F, E>(frames: seq<F>, o: Outcome<F, E>): Outcome<F, E> {
    Outcome(frames + o.frames, o.rest, o.error)
  }

  /** One step of a drain, after the frames of the steps before it. */
  lemma DrainCons<F(!new), E(!new)>(step: Stepper<F, E>, frames: seq<F>, buffer: Bytes)
    requires Consumes(step)
    ensures After(frames, Drain(step, buffer)) ==
            if step(buffer).Got? then After(frames + [step(buffer).frame], Drain(step, step(buffer).rest))
            else Outcome(frames, buffer, if step(buffer).Failed? then Some(step(buffer).error) else None)
  {
    if step(buffer).Got? {
      var f, more := step(buffer).frame, Drain(step, step(buffer).rest);
      assert frames + ([f] + more.frames) == (frames + [f]) + more.frames;
    } else {
      assert frames + [] == frames;
    }
  }

  /** One chunk of a run, after the frames of the chunks before it. */
  lemma RunCons<F(!new), E(!new)>(step: Stepper<F, E>, frames: seq<F>, buffer: Bytes, chunks: seq<Bytes>)
    requires Consumes(step) && chunks != []
    ensures var d := Drain(step, buffer + chunks[0]);
            After(frames, Run(step, buffer, chunks)) ==
            if d.error.Some? then After(frames, d) else After(frames + d.frames, Run(step, d.rest, chunks[1..]))
  {
    var d := Drain(step, buffer + chunks[0]);
    if d.error.None? {
      var more := Run(step, d.rest, chunks[1..]);
      assert frames + (d.frames + more.frames) == (frames + d.frames) + more.frames;
    }
  }

  lemma RunNil<F(!new), E(!new)>(step: Stepper<F, E>, frames: seq<F>, buffer: Bytes)
    requires Consumes(step)
    ensures After(frames, Run(step, buffer, [])) == Outcome(frames, buffer, None)
  {
    assert frames + [] == frames;
  }

  lemma AfterIs<F, E>(frames: seq<F>, more: seq<F>, rest: Bytes, error: Option<E>)
    ensures After(frames, Outcome(more, rest, error)) == Outcome(frames + more, rest, error)
  {
  }

  lemma AfterNothing<F, E>(o: Outcome<F, E>)
    ensures After([], o) == o
  {
    assert [] + o.frames == o.frames;
  }

  /** Same frames and same first error; without an error also the same bytes left over. */
  predicate SameOutcome<F(==), E(==)>(a: Outcome<F, E>, b: Outcome<F, E>) {
    a.frames == b.frames && a.error == b.error && (a.error.None? ==> a.rest == b.rest)
  }

  /** After a drain without error the reader waits for more bytes. */
  lemma {:induction false} DrainStops<F(!new), E(!new)>(step: Stepper<F, E>, b: Bytes)
    requires Consumes(step) && Drain(step, b).error.None?
    ensures step(Drain(step, b).rest) == NeedMore
    decreases |b|
  {
    if step(b).Got? {
      DrainStops(step, step(b).rest);
    }
  }

  /** Draining b + x is draining b and then, unless that failed, what is left of b together with x. */
  lemma {:induction false} DrainAppend<F(!new), E(!new)>(step: Stepper<F, E>, b: Bytes, x: Bytes)
    requires Incremental(step)
    ensures var d := Drain(step, b);
            d.error.Some? ==> Drain(step, b + x).frames == d.frames && Drain(step, b + x).error == d.error
    ensures var d := Drain(step, b);
            d.error.None? ==>
              var more := Drain(step, d.rest + x);
              Drain(step, b + x) == Outcome(d.frames + more.frames, more.rest, more.error)
    decreases |b|
  {
    match step(b)
    case NeedMore =>
      var more := Drain(step, b + x);
      assert [] + more.frames == more.frames;
    case Failed(e) =>
    case Got(f, rest) =>
      DrainAppend(step, rest, x);
      assert step(b + x) == Got(f, rest + x);
      var d := Drain(step, rest);
      if d.error.None? {
        var more := Drain(step, d.rest + x);
        assert ([f] + d.frames) + more.frames == [f] + (d.frames + more.frames);
      }
  }

  /** Feeding chunks one by one yields what draining everything at once would have yielded. */
  lemma {:induction false} ChunkInvariance<F(!new), E(!new)>(step: Stepper<F, E>, b: Bytes, chunks: seq<Bytes>)
    requires Incremental(step) && step(b) == NeedMore
    ensures SameOutcome(Run(step, b, chunks), Drain(step, b + Flatten(chunks)))
    decreases |chunks|
  {
    if chunks == [] {
      assert b + Flatten(chunks) == b;
    } else {
      var tail := Flatten(chunks[1..]);
      var d := Drain(step, b + chunks[0]);
      assert b + Flatten(chunks) == (b + chunks[0]) + tail;
      DrainAppend(step, b + chunks[0], tail);
      if d.error.None? {
        DrainStops(step, b + chunks[0]);
        ChunkInvariance(step, d.rest, chunks[1..]);
      }
    }
  }

  /** So two ways of cutting the same stream into chunks cannot be told apart. */
  lemma ChunkingUnobservable<F(!new), E(!new)>(step: Stepper<F, E>, one: seq<Bytes>, two: seq<Bytes>)
    requires Incremental(step) && step([]) == NeedMore && Flatten(one) == Flatten(two)
    ensures SameOutcome(Run(step, [], one), Run(step, [], two))
  {
    ChunkInvariance(step, [], one);
    ChunkInvariance(step, [], two);
  }

  // ---------------------------------------------------------------- streams of encoded frames

  /** The step delivers a frame exactly when the buffer starts with the encoding of a good one. */
  ghost predicate Decodes<F(!new), E(!new)>(step: Stepper<F, E>, encode: F -> Bytes, good: F -> bool) {
    forall b, f, rest :: DecodesAt(step, encode, good, b, f, rest)
  }

  ghost predicate DecodesAt<F(!new), E(!new)>(
    step: Stepper<F, E>, encode: F -> Bytes, good: F -> bool, b: Bytes, f: F, rest: Bytes)
  {
    step(b) == Got(f, rest) <==> good(f) && b == encode(f) + rest
  }

  function EncodeAll<F>(encode: F -> Bytes, frames: seq<F>): Bytes {
    if frames == [] then [] else encode(frames[0]) + EncodeAll(encode, frames[1..])
  }

  predicate AllGood<F>(good: F -> bool, frames: seq<F>) {
    forall i :: 0 <= i < |frames| ==> good(frames[i])
  }

  function StopOf<F, E>(o: Outcome<F, E>): Step<F, E> {
    if o.error.Some? then Failed(o.error.value) else NeedMore
  }

  /** A drained buffer is the encodings of the delivered frames followed by what the reader stopped at. */
  lemma {:induction false} DrainReadsBack<F(!new), E(!new)>(step: Stepper<F, E>, encode: F -> Bytes, good: F -> bool, b: Bytes)
    requires Incremental(step) && Decodes(step, encode, good)
    ensures var o := Drain(step, b);
            AllGood(good, o.frames) && b == EncodeAll(encode, o.frames) + o.rest && step(o.rest) == StopOf(o)
    decreases |b|
  {
    var o := Drain(step, b);
    if step(b).Got? {
      var f, rest := step(b).frame, step(b).rest;
      assert DecodesAt(step, encode, good, b, f, rest);
      DrainReadsBack(step, encode, good, rest);
      var more := Drain(step, rest);
      assert o.frames[1..] == more.frames;
      assert b == encode(f) + (EncodeAll(encode, more.frames) + more.rest);
    } else {
      assert b == [] + b;
    }
  }

  lemma {:induction false} DrainEncoded<F(!new), E(!new)>(
    step: Stepper<F, E>, encode: F -> Bytes, good: F -> bool, frames: seq<F>, rest: Bytes)
    requires Incremental(step) && Decodes(step, encode, good)
    requires AllGood(good, frames) && !step(rest).Got?
    ensures var o := Drain(step, EncodeAll(encode, frames) + rest);
            o.frames == frames && o.rest == rest && StopOf(o) == step(rest)
    decreases |frames|
  {
    if frames == [] {
      assert EncodeAll(encode, frames) + rest == rest;
    } else {
      var tail := EncodeAll(encode, frames[1..]) + rest;
      var b := EncodeAll(encode, frames) + rest;
      assert b == encode(frames[0]) + tail;
      assert good(frames[0]);
      assert DecodesAt(step, encode, good, b, frames[0], tail);
      assert forall i :: 0 <= i < |frames| - 1 ==> frames[1..][i] == frames[i + 1];
      DrainEncoded(step, encode, good, frames[1..], rest);
      assert frames == [frames[0]] + frames[1..];
    }
  }

  /**
   Chunked reading, both ways: the reader reports these frames, this rest and no error exactly
   when the stream is the encodings of good frames followed by the start of one more.
   */
  lemma RunIff<F(!new), E(!new)>(
    step: Stepper<F, E>, encode: F -> Bytes, good: F -> bool, chunks: seq<Bytes>, frames: seq<F>, rest: Bytes)
    requires Incremental(step) && Decodes(step, encode, good) && step([]) == NeedMore
    ensures Run(step, [], chunks) == Outcome(frames, rest, None)
       <==> AllGood(good, frames) && Flatten(chunks) == EncodeAll(encode, frames) + rest && step(rest) == NeedMore
  {
    var stream := Flatten(chunks);
    ChunkInvariance(step, [], chunks);
    assert [] + stream == stream;
    DrainReadsBack(step, encode, good, stream);
    if AllGood(good, frames) && stream == EncodeAll(encode, frames) + rest && step(rest) == NeedMore {
      DrainEncoded(step, encode, good, frames, rest);
    }
  }

  /** The reader reports these frames and this error exactly when the step rejects what follows their encodings. */
  lemma RunFailsIff<F(!new), E(!new)>(
    step: Stepper<F, E>, encode: F -> Bytes, good: F -> bool, chunks: seq<Bytes>, frames: seq<F>, e: E)
    requires Incremental(step) && Decodes(step, encode, good) && step([]) == NeedMore
    ensures Run(step, [], chunks).frames == frames && Run(step, [], chunks).error == Some(e)
       <==> AllGood(good, frames)
            && exists bad: Bytes :: Flatten(chunks) == EncodeAll(encode, frames) + bad && step(bad) == Failed(e)
  {
    var stream, o := Flatten(chunks), Run(step, [], chunks);
    ChunkInvariance(step, [], chunks);
    assert [] + stream == stream;
    DrainReadsBack(step, encode, good, stream);
    if AllGood(good, frames) {
      forall bad: Bytes | stream == EncodeAll(encode, frames) + bad && step(bad) == Failed(e)
        ensures o.frames == frames && o.error == Some(e)
      {
        DrainEncoded(step, encode, good, frames, bad);
      }
    }
    if o.frames == frames && o.error == Some(e) {
      var bad := Drain(step, stream).rest;
      assert stream == EncodeAll(encode, frames) + bad && step(bad) == Failed(e);
    }
  }
}
