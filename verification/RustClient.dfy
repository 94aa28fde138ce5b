/**
 The client's receiving side. Every call reads the socket first, feeds what it got to the frame
 reader and asks for one frame; a frame that is already in the buffer waits for the next read.
 */
module RustClient {
  import opened BitSequences
  import opened Counters
  import opened FrameFormat
  import opened FrameStreams
  import opened RustProtocol
  import opened SingleReads
  import opened WireBytes
  import opened Wrappers
  import RustFrames

  /** What a recv call returns. */
  datatype Received =
    | Payload(data: Bytes)
    | Undecodable
    | NoFrame
    | BadFrame(error: Error)
    | Closed

  /** What recv makes of a frame: nothing of a PONG, otherwise its payload, decrypted and decompressed as flagged. */
  function Opened(tr: Transforms, f: Frame): Received {
    if f.kind == FRAME_PONG then Payload([])
    else
      var plain := if Meet(f.flags, FLAG_ENCRYPTED) then tr.decrypt(f.payload) else Some(f.payload);
      if plain.None? then Undecodable
      else if !Meet(f.flags, FLAG_COMPRESSED) then Payload(plain.value)
      else
        var data := tr.decompress(plain.value);
        if data.None? then Undecodable else Payload(data.value)
  }

  function Answer(tr: Transforms, step: Step<Frame, Error>): Received {
    match step
    case NeedMore => NoFrame
    case Failed(e) => BadFrame(e)
    case Got(f, _) => Opened(tr, f)
  }

  function Heard(tr: Transforms, frames: seq<Frame>): seq<Received> {
    seq(|frames|, i requires 0 <= i < |frames| => Opened(tr, frames[i]))
  }

  function PayloadBytes(frames: seq<Frame>): nat {
    if frames == [] then 0 else PayloadBytes(frames[..|frames| - 1]) + |frames[|frames| - 1].payload|
  }

  /** Feeds what a read returned and asks for one frame. */
  method TakeFrame(r: RustFrames.FrameReader, read: Bytes) returns (step: Step<Frame, Error>)
    modifies r
    ensures step == ReadStep(r.maxLength, old(r.buffer) + read)
    ensures step.Got? ==> r.buffer == step.rest
    ensures step.NeedMore? ==> r.buffer == old(r.buffer) + read
  {
    hide ReadStep;
    r.Feed(read);
    step := r.ReadFrame();
  }

  class Client {
    const reader: RustFrames.FrameReader
    var framesRecv: U64
    var bytesRecv: U64

    constructor (maxLength: U32)
      ensures fresh(reader) && reader.buffer == [] && reader.maxLength == maxLength && framesRecv == 0 && bytesRecv == 0
    {
      reader := new RustFrames.FrameReader(maxLength);
      framesRecv, bytesRecv := 0, 0;
    }

    /** One call, given what its read of the socket returned. A frame is counted before it is decrypted. */
    method Recv(read: Bytes, tr: Transforms) returns (result: Received)
      modifies this`framesRecv, this`bytesRecv, reader
      ensures read == [] ==>
                result == Closed && reader.buffer == old(reader.buffer)
                && framesRecv == old(framesRecv) && bytesRecv == old(bytesRecv)
      ensures read != [] ==>
                var step := ReadStep(reader.maxLength, old(reader.buffer) + read);
                && result == Answer(tr, step)
                && (step.Got? ==>
                      reader.buffer == step.rest && framesRecv == Wrap(old(framesRecv) + 1)
                      && bytesRecv == Wrap(old(bytesRecv) + |step.frame.payload|))
                && (!step.Got? ==> framesRecv == old(framesRecv) && bytesRecv == old(bytesRecv))
                && (step.NeedMore? ==> reader.buffer == old(reader.buffer) + read)
    {
      hide ReadStep, Wrap, Meet;
      if |read| == 0 {
        return Closed;
      }
      var step := TakeFrame(reader, read);
      if step.Failed? {
        return BadFrame(step.error);
      }
      if step.NeedMore? {
        return NoFrame;
      }
      var f := step.frame;
      framesRecv := Wrap(framesRecv + 1);
      bytesRecv := Wrap(bytesRecv + |f.payload|);
      if f.kind == FRAME_PONG {
        return Payload([]);
      }
      var payload := f.payload;
      if Meet(f.flags, FLAG_ENCRYPTED) {
        var plain := tr.decrypt(payload);
        if plain.None? {
          return Undecodable;
        }
        payload := plain.value;
      }
      if Meet(f.flags, FLAG_COMPRESSED) {
        var data := tr.decompress(payload);
        if data.None? {
          return Undecodable;
        }
        payload := data.value;
      }
      return Payload(payload);
    }
  }

  datatype Handshake = Acknowledged | Unexpected | Rejected(error: Error) | Disconnected | Waiting

  /** Reads until the first frame, which has to be a HELLO_ACK. What came with it in the same read stays in the buffer. */
  method ExpectHandshakeAck(r: RustFrames.FrameReader, arrivals: seq<Bytes>) returns (h: Handshake, used: nat)
    requires r.buffer == []
    modifies r
    ensures used <= |arrivals|
    ensures var o := Receive(Stepping(r.maxLength), arrivals[..used]);
            && (h.Acknowledged? || h.Unexpected? ==>
                  o.error.None? && o.rest == r.buffer && |o.frames| == 1 && (h.Acknowledged? <==> o.frames[0].kind == FRAME_HELLO_ACK))
            && (h.Rejected? ==> o.frames == [] && o.error == Some(h.error))
            && (h.Disconnected? ==> o.frames == [] && o.error.None? && used < |arrivals| && arrivals[used] == [])
            && (h.Waiting? ==> o.frames == [] && o.error.None? && used == |arrivals|)
  {
    hide ReadStep, Stepping, Receive;
    ghost var step := Stepping(r.maxLength);
    used := 0;
    assert arrivals[..0] == [];
    NothingReceived(step);
    while used < |arrivals|
      invariant used <= |arrivals| && Receive(step, arrivals[..used]) == Outcome([], r.buffer, None)
    {
      var read := arrivals[used];
      if |read| == 0 {
        return Disconnected, used;
      }
      LastRead(step, arrivals[..used], read);
      assert arrivals[..used] + [read] == arrivals[..used + 1];
      SteppingIs(r.maxLength, r.buffer + read);
      var taken := TakeFrame(r, read);
      used := used + 1;
      match taken
      case Failed(e) => return Rejected(e), used;
      case Got(f, _) => return if f.kind == FRAME_HELLO_ACK then Acknowledged else Unexpected, used;
      case NeedMore =>
    }
    return Waiting, used;
  }

  lemma OneMoreHeard(tr: Transforms, frames: seq<Frame>, f: Frame)
    ensures Heard(tr, frames + [f]) == Heard(tr, frames) + [Opened(tr, f)]
    ensures PayloadBytes(frames + [f]) == PayloadBytes(frames) + |f.payload|
  {
    hide Opened;
    assert (frames + [f])[..|frames|] == frames;
  }

  lemma NothingHeard(tr: Transforms)
    ensures Heard(tr, []) == [] && PayloadBytes([]) == 0
  {
  }

  /**
   Calls of recv until the socket is closed or a frame is bad, after the reads in before. What they return
   for frames is what the frames say that are taken one a read, and the counters count these.
   */
  method Listen(c: Client, tr: Transforms, arrivals: seq<Bytes>, ghost before: seq<Bytes>)
    returns (heard: seq<Received>, error: Option<Error>, used: nat, ghost frames: seq<Frame>)
    requires var o := Receive(Stepping(c.reader.maxLength), before); o.error.None? && o.rest == c.reader.buffer
    modifies c`framesRecv, c`bytesRecv, c.reader
    ensures used <= |arrivals| && (used < |arrivals| && error.None? ==> arrivals[used] == [])
    ensures var was, o := Receive(Stepping(c.reader.maxLength), before), Receive(Stepping(c.reader.maxLength), before + arrivals[..used]);
            && o.frames == was.frames + frames && o.error == error && (error.None? ==> o.rest == c.reader.buffer)
    ensures heard == Heard(tr, frames)
    ensures c.framesRecv == Wrap(old(c.framesRecv) + |frames|) && c.bytesRecv == Wrap(old(c.bytesRecv) + PayloadBytes(frames))
  {
    hide ReadStep, Stepping, Receive, Wrap, Heard, PayloadBytes, Opened;
    ghost var step := Stepping(c.reader.maxLength);
    ghost var was := Receive(step, before);
    heard, error, used, frames := [], None, 0, [];
    NothingHeard(tr);
    WrapSmall(c.framesRecv);
    WrapSmall(c.bytesRecv);
    assert before + arrivals[..0] == before && was.frames + [] == was.frames;
    while used < |arrivals|
      invariant used <= |arrivals| && error.None?
      invariant Receive(step, before + arrivals[..used]) == Outcome(was.frames + frames, c.reader.buffer, None)
      invariant heard == Heard(tr, frames)
      invariant c.framesRecv == Wrap(old(c.framesRecv) + |frames|)
      invariant c.bytesRecv == Wrap(old(c.bytesRecv) + PayloadBytes(frames))
    {
      var read := arrivals[used];
      ghost var now := c.reader.buffer + read;
      LastRead(step, before + arrivals[..used], read);
      assert (before + arrivals[..used]) + [read] == before + arrivals[..used + 1];
      SteppingIs(c.reader.maxLength, now);
      ghost var taken := ReadStep(c.reader.maxLength, now);
      OnlyBadFramesFail(tr, taken);
      var result := c.Recv(read, tr);
      if result.Closed? {
        return;
      }
      used := used + 1;
      if result.BadFrame? {
        error := Some(result.error);
        return;
      }
      if !result.NoFrame? {
        heard := heard + [result];
        OneMoreHeard(tr, frames, taken.frame);
        assert (was.frames + frames) + [taken.frame] == was.frames + (frames + [taken.frame]);
        WrapPlus(old(c.framesRecv) + |frames|, 1);
        WrapPlus(old(c.bytesRecv) + PayloadBytes(frames), |taken.frame.payload|);
        frames := frames + [taken.frame];
      }
    }
  }

  lemma OnlyBadFramesFail(tr: Transforms, step: Step<Frame, Error>)
    ensures Answer(tr, step).BadFrame? <==> step.Failed?
    ensures Answer(tr, step).NoFrame? <==> step.NeedMore?
    ensures !Answer(tr, step).Closed?
  {
  }

  lemma NothingReceived(step: Stepper<Frame, Error>)
    ensures Receive(step, []) == Outcome([], [], None)
  {
  }

  lemma SteppingIs(max: U32, b: Bytes)
    ensures Stepping(max)(b) == ReadStep(max, b)
  {
  }
}
