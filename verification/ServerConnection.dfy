/** The server's connection handler: the nested read loops, the dispatcher and its handlers. */
module ServerConnection {
  import opened Counters
  import opened FrameFormat
  import opened FrameStreams
  import opened GoFrames
  import opened GoProtocol
  import opened GoStreams
  import opened RateLimiter
  import opened ServerTrace
  import opened WireBytes
  import opened Wrappers
  import ConnectionLimiter
  import GoFrameReader
  import RateLimiting

  /** The writing side of a connection. */
  class Wire {
    var written: Bytes

    constructor ()
      ensures written == []
    {
      written := [];
    }

    method Write(data: Bytes)
      modifies this
      ensures written == old(written) + data
    {
      written := written + data;
    }
  }

  class Session {
    var framesSent: U64
    var bytesSent: U64
    var framesRecv: U64
    var bytesRecv: U64
    var streamsActive: int
    var streams: set<U32>

    function View(): Stats
      reads this
    {
      Stats(framesSent, bytesSent, framesRecv, bytesRecv, streamsActive, streams)
    }

    constructor ()
      ensures View() == NEW_SESSION
    {
      framesSent, bytesSent, framesRecv, bytesRecv := 0, 0, 0, 0;
      streamsActive, streams := 0, {};
    }

    /** Counts the frame as sent even if there is nothing to write it to. */
    method SendFrame(frame: FrameObject, writer: Wire?)
      modifies this`framesSent, this`bytesSent, writer
      ensures View() == Sent(old(View()), frame.View())
      ensures framesSent == Wrap(old(framesSent) + 1) && bytesSent == Wrap(old(bytesSent) + 16 + |frame.payload|)
      ensures writer != null ==> writer.written == old(writer.written) + GoProtocol.Marshal(frame.View())
    {
      var data := frame.Marshal();
      framesSent := Wrap(framesSent + 1);
      bytesSent := Wrap(bytesSent + data.Length);
      assert |data[..]| == data.Length;
      if writer != null {
        writer.Write(data[..]);
      }
    }

    method HandleHello(writer: Wire?)
      modifies this`framesSent, this`bytesSent, writer
      ensures var reply := NewFrame(FRAME_HELLO_ACK, 0, GREETING);
              View() == Sent(old(View()), reply) && (writer != null ==> writer.written == old(writer.written) + GoProtocol.Marshal(reply))
    {
      var reply := new FrameObject(FRAME_HELLO_ACK, 0, GREETING);
      SendFrame(reply, writer);
    }

    method HandleData(f: Frame, tr: Transforms, writer: Wire?)
      modifies this`framesSent, this`bytesSent, writer
      ensures EchoPayload(tr, f).None? ==> View() == old(View()) && (writer != null ==> writer.written == old(writer.written))
      ensures EchoPayload(tr, f).Some? ==>
                var reply := NewFrame(FRAME_DATA, f.streamId, EchoPayload(tr, f).value);
                View() == Sent(old(View()), reply) && (writer != null ==> writer.written == old(writer.written) + GoProtocol.Marshal(reply))
    {
      hide NewFrame, HasFlag, Sent;
      var payload := f.payload;
      if HasFlag(f, FLAG_ENCRYPTED) {
        var decrypted := tr.decrypt(payload);
        if decrypted.None? {
          return;
        }
        payload := decrypted.value;
      }
      if HasFlag(f, FLAG_COMPRESSED) {
        var decompressed := tr.decompress(payload);
        if decompressed.None? {
          return;
        }
        payload := decompressed.value;
      }
      var reply := new FrameObject(FRAME_DATA, f.streamId, payload);
      SendFrame(reply, writer);
    }

    method HandlePing(f: Frame, writer: Wire?)
      modifies this`framesSent, this`bytesSent, writer
      ensures var reply := NewFrame(FRAME_PONG, f.streamId, f.payload);
              View() == Sent(old(View()), reply) && (writer != null ==> writer.written == old(writer.written) + GoProtocol.Marshal(reply))
    {
      var reply := new FrameObject(FRAME_PONG, f.streamId, f.payload);
      SendFrame(reply, writer);
    }

    /** The dispatcher. A nil writer, as for datagrams, changes what is written but not what is counted. */
    method HandleFrame(f: Frame, tr: Transforms, writer: Wire?)
      modifies this, writer
      ensures View() == Handled(tr, old(View()), f)
      ensures framesRecv == Wrap(old(framesRecv) + 1) && bytesRecv == Wrap(old(bytesRecv) + |f.payload|)
      ensures writer != null ==> writer.written == old(writer.written) + Encoded(Reply(tr, f))
    {
      hide GoProtocol.Marshal, NewFrame, HasFlag;
      framesRecv := Wrap(framesRecv + 1);
      bytesRecv := Wrap(bytesRecv + |f.payload|);
      if f.kind == FRAME_HELLO {
        HandleHello(writer);
      } else if f.kind == FRAME_DATA {
        HandleData(f, tr, writer);
      } else if f.kind == FRAME_PING {
        HandlePing(f, writer);
      } else if f.kind == FRAME_STREAM_OPEN {
        streams := streams + {f.streamId};
        streamsActive := streamsActive + 1;
      } else if f.kind == FRAME_STREAM_CLOSE {
        streams := streams - {f.streamId};
        streamsActive := streamsActive - 1;
      }
    }

    method HandleDatagram(data: Bytes, tr: Transforms)
      modifies this
      ensures var decoded := UnmarshalFrame(data);
              View() == if decoded.Ok? then Handled(tr, old(View()), decoded.value) else old(View())
    {
      hide UnmarshalFrame, Handled;
      var decoded := UnmarshalFrame(data);
      if decoded.Ok? {
        HandleFrame(decoded.value, tr, null);
      }
    }
  }

  ghost function Standing(turn: nat, limiter: Limiter, session: Session, wire: Wire): Progress
    reads limiter, session, wire
  {
    Progress(turn, limiter.perIp, session.View(), wire.written)
  }

  /** One frame: other goroutines use the limiter, then it is asked for this one. */
  method OneTurn(w: World, turn: nat, f: Frame, limiter: Limiter, session: Session, wire: Wire)
    requires limiter.ClientLimits() == w.limits
    modifies limiter`perIp, session, wire
    ensures Standing(turn + 1, limiter, session, wire) == OneFrame(w, old(Standing(turn, limiter, session, wire)), f)
  {
    hide Handled, Reply, RateLimiting.Apply, RateLimiting.Allows, RateLimiting.After, RateLimiting.Decisions;
    var now := w.turns(turn);
    var _ := limiter.Serve(now.others);
    var ok := limiter.AllowIp(w.ip, now.created, now.seen, now.stored);
    if ok {
      session.HandleFrame(f, w.transforms, wire);
    } else {
      assert wire.written == old(wire.written);
    }
  }

  /** One turn of the inner loop: reads a frame and, if there is one, serves it. */
  method ServeNext(w: World, turn: nat, r: GoFrameReader.FrameReader, limiter: Limiter, session: Session, wire: Wire)
    returns (result: Step<Frame, Error>)
    requires r.Valid() && limiter.ClientLimits() == w.limits
    modifies r`start, r`issued, limiter`perIp, session, wire
    ensures r.Valid() && result == ReadStep(r.maxLength, old(r.Contents()))
    ensures r.Contents() == if result.Got? then result.rest else old(r.Contents())
    ensures !result.Got? ==> Standing(turn, limiter, session, wire) == old(Standing(turn, limiter, session, wire))
    ensures result.Got? ==>
              && Standing(turn + 1, limiter, session, wire) == OneFrame(w, old(Standing(turn, limiter, session, wire)), result.frame)
              && r.stop - r.start < old(r.stop - r.start)
  {
    hide ReadStep, OneFrame;
    var payload;
    result, payload := r.ReadFrame();
    if result.Got? {
      OneTurn(w, turn, result.frame, limiter, session, wire);
    }
  }

  /** The inner loop: reads and serves frames until the reader wants more bytes or fails. */
  method ServeBuffered(w: World, start: nat, r: GoFrameReader.FrameReader, limiter: Limiter, session: Session, wire: Wire)
    returns (turn: nat, error: Option<Error>, ghost frames: seq<Frame>)
    requires r.Valid() && limiter.ClientLimits() == w.limits
    modifies r`start, r`issued, limiter`perIp, session, wire
    ensures r.Valid() && Consumes(Stepping(r.maxLength))
    ensures Outcome(frames, r.Contents(), error) == Drain(Stepping(r.maxLength), old(r.Contents()))
    ensures Standing(turn, limiter, session, wire) == AllFrames(w, old(Standing(start, limiter, session, wire)), frames)
  {
    ReaderIsIncremental(r.maxLength);
    ghost var begin := Standing(start, limiter, session, wire);
    NoFrames(w, begin);
    hide ReadStep, Stepping, Drain, FrameStreams.After, Incremental, Consumes, OneFrame, AllFrames, Standing;
    ghost var step := Stepping(r.maxLength);
    turn, frames, error := start, [], None;
    AfterNothing(Drain(step, r.Contents()));
    while true
      invariant r.Valid()
      invariant Drain(step, old(r.Contents())) == FrameStreams.After(frames, Drain(step, r.Contents()))
      invariant Standing(turn, limiter, session, wire) == AllFrames(w, begin, frames)
      decreases r.stop - r.start
    {
      ghost var before := r.Contents();
      DrainCons(step, frames, before);
      SteppingIs(r.maxLength, before);
      var result := ServeNext(w, turn, r, limiter, session, wire);
      match result {
        case NeedMore =>
          return;
        case Failed(e) =>
          error := Some(e);
          return;
        case Got(f, _) =>
          AllFramesSnoc(w, begin, frames, f);
          turn, frames := turn + 1, frames + [f];
      }
    }
  }

  lemma NoFrames(w: World, p: Progress)
    ensures AllFrames(w, p, []) == p
  {
  }

  /**
   The loops of one connection, for the chunks its socket delivers: they do to the session, to the
   limiter and to the wire what serving the frames of the stream one by one would do. spare(k) is the room
   a slice that grows at chunk k gets beyond its need.
   */
  method ServeConnection(w: World, chunks: seq<Bytes>, maxFrameSize: int, spare: nat -> nat, limiter: Limiter)
    returns (session: Session, wire: Wire, turn: nat)
    requires limiter.ClientLimits() == w.limits
    modifies limiter`perIp
    ensures fresh(session) && fresh(wire)
    ensures var frames := ReadAll(ReaderLimit(maxFrameSize), chunks).frames;
            Standing(turn, limiter, session, wire) == AllFrames(w, Progress(0, old(limiter.perIp), NEW_SESSION, []), frames)
  {
    session := new Session();
    wire := new Wire();
    var r := new GoFrameReader.FrameReader(maxFrameSize);
    ReaderIsIncremental(r.maxLength);
    ghost var begin, step := Progress(0, limiter.perIp, NEW_SESSION, []), Stepping(r.maxLength);
    NoFrames(w, begin);
    hide ReadStep, Stepping, Drain, Run, FrameStreams.After, Incremental, Consumes, OneFrame, AllFrames;
    var k := 0;
    turn := 0;
    ghost var frames: seq<Frame> := [];
    AfterNothing(Run(step, [], chunks));
    assert chunks[0..] == chunks;
    while k < |chunks|
      invariant 0 <= k <= |chunks|
      invariant r.Valid() && fresh(r) && fresh(r.base) && step == Stepping(r.maxLength)
      invariant Run(step, [], chunks) == FrameStreams.After(frames, Run(step, r.Contents(), chunks[k..]))
      invariant Standing(turn, limiter, session, wire) == AllFrames(w, begin, frames)
    {
      assert chunks[k..][0] == chunks[k] && chunks[k..][1..] == chunks[k + 1..];
      RunCons(step, frames, r.Contents(), chunks[k..]);
      r.Feed(chunks[k], spare(k));
      var next, e, fs := ServeBuffered(w, turn, r, limiter, session, wire);
      AllFramesConcat(w, begin, frames, fs);
      AfterIs(frames, fs, r.Contents(), e);
      turn, frames, k := next, frames + fs, k + 1;
      if e.Some? {
        return;
      }
    }
    assert chunks[|chunks|..] == [];
    RunNil(step, frames, r.Contents());
  }

  /**
   The handler of one connection. Refused by the connection limiter, it touches nothing; admitted, it
   serves the connection and gives its place back when it ends.
   */
  method HandleTcpConnection(
    w: World, chunks: seq<Bytes>, maxFrameSize: int, spare: nat -> nat,
    connections: ConnectionLimiter.ConnectionRateLimiter, limiter: Limiter)
    returns (served: Option<(Session, Wire, nat)>)
    requires limiter.ClientLimits() == w.limits
    modifies connections`connections, limiter`perIp
    ensures served.Some? <==> ConnectionLimiter.Allows(connections.maxPerIp, old(connections.connections), w.ip)
    ensures served.None? ==> connections.connections == old(connections.connections) && limiter.perIp == old(limiter.perIp)
    ensures served.Some? ==>
              var (session, wire, turn) := served.value;
              var frames := ReadAll(ReaderLimit(maxFrameSize), chunks).frames;
              && fresh(session) && fresh(wire)
              && Standing(turn, limiter, session, wire) == AllFrames(w, Progress(0, old(limiter.perIp), NEW_SESSION, []), frames)
              && connections.connections ==
                 ConnectionLimiter.Released(ConnectionLimiter.Acquired(old(connections.connections), w.ip), w.ip)
  {
    hide AllFrames, ReaderLimit, ConnectionLimiter.Released, ConnectionLimiter.Acquired, ConnectionLimiter.Allows;
    var ok := connections.AllowConnection(w.ip);
    if !ok {
      return None;
    }
    var session, wire, turn := ServeConnection(w, chunks, maxFrameSize, spare, limiter);
    connections.ReleaseConnection(w.ip);
    return Some((session, wire, turn));
  }

  lemma {:induction false} AllFramesConcat(w: World, p: Progress, xs: seq<Frame>, ys: seq<Frame>)
    ensures AllFrames(w, p, xs + ys) == AllFrames(w, AllFrames(w, p, xs), ys)
    decreases |xs|
  {
    hide OneFrame;
    if xs == [] {
      assert xs + ys == ys;
    } else {
      assert (xs + ys)[0] == xs[0] && (xs + ys)[1..] == xs[1..] + ys;
      AllFramesConcat(w, OneFrame(w, p, xs[0]), xs[1..], ys);
    }
  }
}
