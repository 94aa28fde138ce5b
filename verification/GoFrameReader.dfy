/**
 The server's buffering frame reader. Its buffer is a Go slice, that is a window on a backing
 array: append writes behind the window when there is room and otherwise moves to a new array,
 and consuming a frame only moves the window. The payload of a delivered frame is a window on
 the same array, so it aliases the buffer; nothing the reader does later changes it.
 */
module GoFrameReader {
  import opened FrameFormat
  import opened FrameStreams
  import opened GoProtocol
  import opened GoStreams
  import opened Sequences
  import opened WireBytes
  import opened Wrappers
  import GoFrames

  /** A slice of a backing array, with the bytes it held when it was handed out. */
  datatype Window = Window(base: array<Byte>, lo: nat, hi: nat, was: Bytes) {
    ghost predicate InBounds() {
      lo <= hi <= base.Length
    }

    /** The bytes are still those that were handed out. */
    ghost predicate Intact()
      reads base
    {
      InBounds() && base[lo..hi] == was
    }
  }

  ghost function Bases(windows: seq<Window>): set<object> {
    set w | w in windows :: w.base
  }

  /** A larger array that starts with the two parts. */
  method Grown(front: Bytes, back: Bytes, spare: nat) returns (bigger: array<Byte>)
    ensures fresh(bigger) && |front| + |back| <= bigger.Length && bigger[..|front| + |back|] == front + back
  {
    bigger := new Byte[|front| + |back| + spare];
    GoFrames.CopyInto(bigger, 0, front);
    assert bigger[..|front|] == front;
    GoFrames.CopyInto(bigger, |front|, back);
  }

  class FrameReader {
    var base: array<Byte>
    var start: nat
    var stop: nat
    const maxLength: U32
    ghost var issued: seq<Window>

    ghost predicate Valid()
      reads this, base, Bases(issued)
    {
      && start <= stop <= base.Length
      && forall w :: w in issued ==> w.Intact() && (w.base == base ==> w.hi <= start)
    }

    function Contents(): Bytes
      requires start <= stop <= base.Length
      reads this, base
    {
      base[start..stop]
    }

    constructor (maxFrameSize: int)
      ensures Valid() && fresh(base) && Contents() == [] && issued == [] && maxLength == ReaderLimit(maxFrameSize)
    {
      base := new Byte[65536];
      start, stop := 0, 0;
      maxLength := ReaderLimit(maxFrameSize);
      issued := [];
    }

    /**
     Appends data; payloads handed out earlier keep their bytes although they share the array.
     When the array is full append moves to a larger one, whose spare room is the runtime's choice.
     */
    method Feed(data: Bytes, spare: nat)
      requires Valid()
      modifies this`base, this`start, this`stop, base
      ensures Valid() && (base == old(base) || fresh(base))
      ensures Contents() == old(Contents()) + data
    {
      ghost var before, was := Contents(), base[..];
      if stop + |data| <= base.Length {
        GoFrames.CopyInto(base, stop, data);
        assert base[..stop] == was[..stop];
        forall w | w in issued
          ensures w.Intact()
        {
          assert w.base == base ==> base[w.lo..w.hi] == base[..stop][w.lo..w.hi] == was[w.lo..w.hi];
        }
        assert base[start..stop + |data|] == was[start..stop] + data;
        stop := stop + |data|;
      } else {
        base := Grown(base[start..stop], data, spare);
        start, stop := 0, stop - start + |data|;
      }
    }

    /** Reads one frame. No byte of any array is written, and the payload is a window on the buffer. */
    method ReadFrame() returns (step: Step<Frame, Error>, payload: Option<Window>)
      requires Valid()
      modifies this`start, this`issued
      ensures Valid() && step == ReadStep(maxLength, old(Contents()))
      ensures !step.Got? ==> payload == None && Contents() == old(Contents()) && issued == old(issued)
      ensures step.Got? ==>
                && payload.Some? && payload.value.base == base && payload.value.was == step.frame.payload
                && Contents() == step.rest && issued == old(issued) + [payload.value]
                && stop - start < old(stop - start)
    {
      hide ReadWord, UnmarshalFrame;
      ghost var before := Contents();
      if stop - start < HEADER_SIZE {
        return NeedMore, None;
      }
      var length := ReadWord(base[start..stop], 8);
      if maxLength > 0 && length > maxLength {
        return Failed(FrameTooLarge), None;
      }
      var total := HEADER_SIZE + length;
      if stop - start < total {
        return NeedMore, None;
      }
      assert base[start..start + total] == before[..total];
      var decoded := UnmarshalFrame(base[start..start + total]);
      if decoded.Err? {
        return Failed(decoded.error), None;
      }
      var f := decoded.value;
      PayloadPlace(before[..total]);
      WordInPrefix(before, total, 8);
      assert f.payload == base[start + HEADER_SIZE..start + total];
      var window := Window(base, start + HEADER_SIZE, start + total, f.payload);
      step, payload := Got(f, base[start + total..stop]), Some(window);
      issued := issued + [window];
      start := start + total;
    }
  }

  lemma PayloadPlace(data: Bytes)
    requires UnmarshalFrame(data).Ok?
    ensures var f := UnmarshalFrame(data).value;
            HEADER_SIZE + f.length <= |data| && f.length == ReadWord(data, 8)
            && f.payload == data[HEADER_SIZE..HEADER_SIZE + f.length]
  {
    hide ReadWord, Validate;
    UnmarshalCases(data);
  }

  /** The payload windows belong to the frames, in order. */
  predicate PayloadsOf(payloads: seq<Window>, frames: seq<Frame>) {
    |payloads| == |frames| && forall i :: 0 <= i < |frames| ==> payloads[i].was == frames[i].payload
  }

  lemma NoPayloads()
    ensures PayloadsOf([], [])
  {
  }

  lemma OnePayload(p: Window, f: Frame)
    requires p.was == f.payload
    ensures PayloadsOf([p], [f])
  {
  }

  lemma PayloadsConcat(ps: seq<Window>, fs: seq<Frame>, qs: seq<Window>, gs: seq<Frame>)
    requires PayloadsOf(ps, fs) && PayloadsOf(qs, gs)
    ensures PayloadsOf(ps + qs, fs + gs)
  {
  }

  /** The server's inner loop: reads frames until the reader wants more bytes or fails. */
  method DrainReader(r: FrameReader) returns (frames: seq<Frame>, payloads: seq<Window>, error: Option<Error>)
    requires r.Valid()
    modifies r`start, r`issued
    ensures r.Valid() && Consumes(Stepping(r.maxLength))
    ensures Outcome(frames, r.Contents(), error) == Drain(Stepping(r.maxLength), old(r.Contents()))
    ensures r.issued == old(r.issued) + payloads && PayloadsOf(payloads, frames)
  {
    ReaderIsIncremental(r.maxLength);
    NoPayloads();
    hide ReadStep, Stepping, Drain, After, PayloadsOf, Incremental, Consumes;
    ghost var step := Stepping(r.maxLength);
    frames, payloads, error := [], [], None;
    AfterNothing(Drain(step, r.Contents()));
    while true
      invariant r.Valid() && r.issued == old(r.issued) + payloads && PayloadsOf(payloads, frames)
      invariant Drain(step, old(r.Contents())) == After(frames, Drain(step, r.Contents()))
      decreases r.stop - r.start
    {
      ghost var before := r.Contents();
      DrainCons(step, frames, before);
      var result, payload := r.ReadFrame();
      SteppingIs(r.maxLength, before);
      match result {
        case NeedMore =>
          return;
        case Failed(e) =>
          error := Some(e);
          return;
        case Got(f, _) =>
          OnePayload(payload.value, f);
          Regroup(old(r.issued), payloads, [payload.value]);
          PayloadsConcat(payloads, frames, [payload.value], [f]);
          frames, payloads := frames + [f], payloads + [payload.value];
      }
    }
  }

  /** One turn of the server's outer loop: feeds a chunk and drains the reader. */
  method ReadChunk(r: FrameReader, chunk: Bytes, spare: nat)
    returns (frames: seq<Frame>, payloads: seq<Window>, error: Option<Error>)
    requires r.Valid()
    modifies r, r.base
    ensures r.Valid() && Consumes(Stepping(r.maxLength)) && (r.base == old(r.base) || fresh(r.base))
    ensures Outcome(frames, r.Contents(), error) == Drain(Stepping(r.maxLength), old(r.Contents()) + chunk)
    ensures r.issued == old(r.issued) + payloads && PayloadsOf(payloads, frames)
  {
    hide Drain;
    r.Feed(chunk, spare);
    frames, payloads, error := DrainReader(r);
  }

  /**
   The server's outer loop over the chunks a connection delivers. What it reads does not depend
   on the chunks, and when it ends every payload still holds the bytes that were delivered.
   */
  method ReadConnection(r: FrameReader, chunks: seq<Bytes>, spare: nat -> nat)
    returns (frames: seq<Frame>, payloads: seq<Window>, error: Option<Error>)
    requires r.Valid() && r.Contents() == [] && r.issued == []
    modifies r, r.base
    ensures r.Valid() && Outcome(frames, r.Contents(), error) == ReadAll(r.maxLength, chunks)
    ensures PayloadsOf(payloads, frames) && forall i :: 0 <= i < |payloads| ==> payloads[i].Intact()
  {
    ReaderIsIncremental(r.maxLength);
    hide ReadStep, Drain, Stepping, Run, After, PayloadsOf, Incremental, Consumes;
    ghost var step := Stepping(r.maxLength);
    frames, payloads, error := [], [], None;
    NoPayloads();
    AfterNothing(Run(step, [], chunks));
    assert chunks[0..] == chunks;
    for k := 0 to |chunks|
      invariant r.Valid() && error.None? && (r.base == old(r.base) || fresh(r.base))
      invariant r.issued == payloads && PayloadsOf(payloads, frames)
      invariant Run(step, [], chunks) == After(frames, Run(step, r.Contents(), chunks[k..]))
    {
      assert chunks[k..][0] == chunks[k] && chunks[k..][1..] == chunks[k + 1..];
      RunCons(step, frames, r.Contents(), chunks[k..]);
      ghost var was := frames;
      var fs, ps, e := ReadChunk(r, chunks[k], spare(k));
      PayloadsConcat(payloads, frames, ps, fs);
      frames, payloads, error := frames + fs, payloads + ps, e;
      if e.Some? {
        assert After(was, Outcome(fs, r.Contents(), e)) == Outcome(frames, r.Contents(), error) by { AfterIs(was, fs, r.Contents(), e); }
        return;
      }
    }
    assert chunks[|chunks|..] == [];
    RunNil(step, frames, r.Contents());
  }
}
