/**
 What the server does with the frames of one connection, as a function of the frames, of the
 calls that reach the rate limiter, and of the two payload transforms.
 */
module ServerTrace {
  import opened Counters
  import opened FrameFormat
  import opened GoProtocol
  import opened GoStreams
  import opened RateLimiting
  import opened Sequences
  import opened WireBytes
  import opened Wrappers
  import TokenBucket

  /** "WEBBOU/1 transport=tcp+tls" */
  const GREETING: Bytes :=
    [87, 69, 66, 66, 79, 85, 47, 49, 32, 116, 114, 97, 110, 115, 112, 111, 114, 116, 61, 116, 99, 112, 43, 116, 108, 115]

  /** What the limiter sees for one frame: calls and sweeps of other goroutines, then our call's clock readings. */
  datatype Turn = Turn(others: seq<Op>, created: real, seen: real, stored: real)

  /** Everything the connection does not decide itself. */
  datatype World = World(ip: string, limits: TokenBucket.Limits, turns: nat -> Turn, transforms: Transforms)

  datatype Stats = Stats(framesSent: U64, bytesSent: U64, framesRecv: U64, bytesRecv: U64, streamsActive: int, streams: set<U32>)

  const NEW_SESSION: Stats := Stats(0, 0, 0, 0, 0, {})

  // ---------------------------------------------------------------- one frame

  function EchoPayload(tr: Transforms, f: Frame): Option<Bytes> {
    var plain := if HasFlag(f, FLAG_ENCRYPTED) then tr.decrypt(f.payload) else Some(f.payload);
    if plain.None? then None
    else if HasFlag(f, FLAG_COMPRESSED) then tr.decompress(plain.value)
    else plain
  }

  /** The frame sent back, if any. */
  function Reply(tr: Transforms, f: Frame): Option<Frame> {
    if f.kind == FRAME_HELLO then Some(NewFrame(FRAME_HELLO_ACK, 0, GREETING))
    else if f.kind == FRAME_DATA then
      var p := EchoPayload(tr, f);
      if p.None? then None else Some(NewFrame(FRAME_DATA, f.streamId, p.value))
    else if f.kind == FRAME_PING then Some(NewFrame(FRAME_PONG, f.streamId, f.payload))
    else None
  }

  function Received(st: Stats, f: Frame): Stats {
    st.(framesRecv := Wrap(st.framesRecv + 1), bytesRecv := Wrap(st.bytesRecv + |f.payload|))
  }

  function Sent(st: Stats, f: Frame): Stats {
    st.(framesSent := Wrap(st.framesSent + 1), bytesSent := Wrap(st.bytesSent + |Marshal(f)|))
  }

  function Handled(tr: Transforms, st: Stats, f: Frame): Stats {
    var st' := Received(st, f);
    if f.kind == FRAME_STREAM_OPEN then st'.(streams := st.streams + {f.streamId}, streamsActive := st.streamsActive + 1)
    else if f.kind == FRAME_STREAM_CLOSE then st'.(streams := st.streams - {f.streamId}, streamsActive := st.streamsActive - 1)
    else if Reply(tr, f).Some? then Sent(st', Reply(tr, f).value)
    else st'
  }

  function Encoded(reply: Option<Frame>): Bytes {
    if reply.None? then [] else Marshal(reply.value)
  }

  /** Where a connection stands: the limiter's buckets, the session, and the bytes written so far. */
  datatype Progress = Progress(turn: nat, buckets: Buckets, stats: Stats, written: Bytes)

  function OwnCall(w: World, k: nat): Op {
    Access(w.ip, w.turns(k).created, w.turns(k).seen, w.turns(k).stored)
  }

  /** The buckets that the limiter call for frame k finds. */
  function FoundBuckets(w: World, k: nat, m: Buckets): Buckets {
    After(w.limits, true, m, w.turns(k).others)
  }

  predicate LetsThrough(w: World, k: nat, m: Buckets) {
    Allows(w.limits, FoundBuckets(w, k, m), OwnCall(w, k))
  }

  function NextBuckets(w: World, k: nat, m: Buckets): Buckets {
    Apply(w.limits, true, FoundBuckets(w, k, m), OwnCall(w, k))
  }

  function OneFrame(w: World, p: Progress, f: Frame): Progress {
    var next := p.(turn := p.turn + 1, buckets := NextBuckets(w, p.turn, p.buckets));
    if LetsThrough(w, p.turn, p.buckets) then
      next.(stats := Handled(w.transforms, p.stats, f), written := p.written + Encoded(Reply(w.transforms, f)))
    else next
  }

  function AllFrames(w: World, p: Progress, frames: seq<Frame>): Progress
    decreases |frames|
  {
    if frames == [] then p else AllFrames(w, OneFrame(w, p, frames[0]), frames[1..])
  }

  lemma {:induction false} AllFramesSnoc(w: World, p: Progress, frames: seq<Frame>, f: Frame)
    ensures AllFrames(w, p, frames + [f]) == OneFrame(w, AllFrames(w, p, frames), f)
    decreases |frames|
  {
    hide OneFrame;
    if frames == [] {
      assert (frames + [f])[1..] == [];
    } else {
      assert (frames + [f])[0] == frames[0] && (frames + [f])[1..] == frames[1..] + [f];
      AllFramesSnoc(w, OneFrame(w, p, frames[0]), frames[1..], f);
    }
  }

  // ---------------------------------------------------------------- the trace of a connection

  /** The frames the limiter lets through, in order of arrival. */
  function Admitted(w: World, k: nat, m: Buckets, frames: seq<Frame>): seq<Frame>
    decreases |frames|
  {
    if frames == [] then []
    else (if LetsThrough(w, k, m) then [frames[0]] else []) + Admitted(w, k + 1, NextBuckets(w, k, m), frames[1..])
  }

  function Replies(tr: Transforms, frames: seq<Frame>): seq<Frame> {
    if frames == [] then []
    else
      var r := Reply(tr, frames[0]);
      (if r.Some? then [r.value] else []) + Replies(tr, frames[1..])
  }

  function HandledAll(tr: Transforms, st: Stats, frames: seq<Frame>): Stats
    decreases |frames|
  {
    if frames == [] then st else HandledAll(tr, Handled(tr, st, frames[0]), frames[1..])
  }

  lemma EncodedFirst(tr: Transforms, frames: seq<Frame>)
    requires frames != []
    ensures MarshalAll(Replies(tr, frames)) == Encoded(Reply(tr, frames[0])) + MarshalAll(Replies(tr, frames[1..]))
  {
    hide Reply;
    var r, more := Reply(tr, frames[0]), Replies(tr, frames[1..]);
    if r.Some? {
      assert ([r.value] + more)[1..] == more;
    } else {
      assert [] + more == more;
    }
  }

  /** The written bytes are the encoded replies to the admitted frames, and the session has handled exactly those. */
  lemma {:induction false} TraceOf(w: World, p: Progress, frames: seq<Frame>)
    ensures var admitted := Admitted(w, p.turn, p.buckets, frames);
            var q := AllFrames(w, p, frames);
            && q.written == p.written + MarshalAll(Replies(w.transforms, admitted))
            && q.stats == HandledAll(w.transforms, p.stats, admitted)
            && q.turn == p.turn + |frames|
    decreases |frames|
  {
    hide Reply, Handled, LetsThrough, NextBuckets;
    if frames != [] {
      var q := OneFrame(w, p, frames[0]);
      TraceOf(w, q, frames[1..]);
      var admitted := Admitted(w, p.turn, p.buckets, frames);
      var rest := Admitted(w, q.turn, q.buckets, frames[1..]);
      if LetsThrough(w, p.turn, p.buckets) {
        assert admitted[1..] == rest;
        EncodedFirst(w.transforms, admitted);
        Regroup(p.written, Encoded(Reply(w.transforms, frames[0])), MarshalAll(Replies(w.transforms, rest)));
      } else {
        assert admitted == rest;
      }
      hide MarshalAll, Replies, HandledAll, AllFrames;
    }
  }

  // ---------------------------------------------------------------- session totals

  function PayloadBytes(frames: seq<Frame>): nat {
    if frames == [] then 0 else |frames[0].payload| + PayloadBytes(frames[1..])
  }

  lemma StreamsGetNoReply(tr: Transforms, f: Frame)
    requires f.kind == FRAME_STREAM_OPEN || f.kind == FRAME_STREAM_CLOSE
    ensures Reply(tr, f).None?
  {
    hide NewFrame, EchoPayload;
  }

  lemma OneFrameCounted(tr: Transforms, st: Stats, f: Frame)
    ensures var q := Handled(tr, st, f);
            && Counts(q.framesRecv, st.framesRecv + 1)
            && Counts(q.bytesRecv, st.bytesRecv + |f.payload|)
            && Counts(q.framesSent, st.framesSent + if Reply(tr, f).Some? then 1 else 0)
            && Counts(q.bytesSent, st.bytesSent + |Encoded(Reply(tr, f))|)
  {
    hide Reply, Marshal, Counts, Wrap;
    if f.kind == FRAME_STREAM_OPEN || f.kind == FRAME_STREAM_CLOSE {
      StreamsGetNoReply(tr, f);
    }
    WrapCounts(st.framesRecv + 1);
    WrapCounts(st.bytesRecv + |f.payload|);
    WrapCounts(st.framesSent);
    WrapCounts(st.framesSent + 1);
    WrapCounts(st.bytesSent);
    WrapCounts(st.bytesSent + |Encoded(Reply(tr, f))|);
  }

  lemma SplitTotals(tr: Transforms, st: Stats, frames: seq<Frame>)
    requires frames != []
    ensures var f, rest := frames[0], frames[1..];
            && HandledAll(tr, st, frames) == HandledAll(tr, Handled(tr, st, f), rest)
            && PayloadBytes(frames) == |f.payload| + PayloadBytes(rest)
            && |Replies(tr, frames)| == (if Reply(tr, f).Some? then 1 else 0) + |Replies(tr, rest)|
            && |MarshalAll(Replies(tr, frames))| == |Encoded(Reply(tr, f))| + |MarshalAll(Replies(tr, rest))|
  {
    EncodedFirst(tr, frames);
    hide Reply, Handled, Encoded, MarshalAll;
  }

  lemma NoTotals(tr: Transforms, st: Stats)
    ensures HandledAll(tr, st, []) == st && PayloadBytes([]) == 0 && Replies(tr, []) == [] && MarshalAll([]) == []
  {
  }

  lemma {:induction false} AllFramesCounted(tr: Transforms, st: Stats, frames: seq<Frame>)
    ensures var q, replies := HandledAll(tr, st, frames), Replies(tr, frames);
            && Counts(q.framesRecv, st.framesRecv + |frames|)
            && Counts(q.bytesRecv, st.bytesRecv + PayloadBytes(frames))
            && Counts(q.framesSent, st.framesSent + |replies|)
            && Counts(q.bytesSent, st.bytesSent + |MarshalAll(replies)|)
    decreases |frames|
  {
    hide *;
    if frames == [] {
      NoTotals(tr, st);
      Shifted(st.framesRecv, 0);
      Shifted(st.bytesRecv, 0);
      Shifted(st.framesSent, 0);
      Shifted(st.bytesSent, 0);
    } else {
      var f, rest := frames[0], frames[1..];
      var st', q := Handled(tr, st, f), HandledAll(tr, st, frames);
      OneFrameCounted(tr, st, f);
      SplitTotals(tr, st, frames);
      AllFramesCounted(tr, st', rest);
      Carried(q.framesRecv, st'.framesRecv, st.framesRecv + 1, |rest|);
      Carried(q.bytesRecv, st'.bytesRecv, st.bytesRecv + |f.payload|, PayloadBytes(rest));
      Carried(q.framesSent, st'.framesSent, st.framesSent + (if Reply(tr, f).Some? then 1 else 0), |Replies(tr, rest)|);
      Carried(q.bytesSent, st'.bytesSent, st.bytesSent + |Encoded(Reply(tr, f))|, |MarshalAll(Replies(tr, rest))|);
    }
  }

  /** The counters of a session are the totals of its trace: admitted frames in, encoded replies out. */
  lemma SessionTotals(tr: Transforms, frames: seq<Frame>)
    ensures var q, replies := HandledAll(tr, NEW_SESSION, frames), Replies(tr, frames);
            && q.framesRecv == Wrap(|frames|) && q.bytesRecv == Wrap(PayloadBytes(frames))
            && q.framesSent == Wrap(|replies|) && q.bytesSent == Wrap(|MarshalAll(replies)|)
  {
    AllFramesCounted(tr, NEW_SESSION, frames);
    hide HandledAll, Replies, PayloadBytes, MarshalAll;
  }

  // ---------------------------------------------------------------- open streams

  /** A frame opens a stream that is not open, or closes one that is, or does neither. */
  predicate Regular(streams: set<U32>, f: Frame) {
    && (f.kind == FRAME_STREAM_OPEN ==> f.streamId !in streams)
    && (f.kind == FRAME_STREAM_CLOSE ==> f.streamId in streams)
  }

  predicate AllRegular(tr: Transforms, st: Stats, frames: seq<Frame>)
    decreases |frames|
  {
    frames == [] || (Regular(st.streams, frames[0]) && AllRegular(tr, Handled(tr, st, frames[0]), frames[1..]))
  }

  /** After every frame StreamsActive is the number of open streams. */
  predicate ActiveThroughout(tr: Transforms, st: Stats, frames: seq<Frame>)
    decreases |frames|
  {
    st.streamsActive == |st.streams| && (frames == [] || ActiveThroughout(tr, Handled(tr, st, frames[0]), frames[1..]))
  }

  lemma RegularKeepsActive(tr: Transforms, st: Stats, f: Frame)
    requires st.streamsActive == |st.streams|
    ensures var q := Handled(tr, st, f); q.streamsActive == |q.streams| <==> Regular(st.streams, f)
  {
    hide Reply;
    if f.streamId !in st.streams {
      assert st.streams - {f.streamId} == st.streams;
    } else {
      assert st.streams + {f.streamId} == st.streams;
    }
  }

  /** StreamsActive is right all along exactly when no open stream is opened again and only open ones are closed. */
  lemma {:induction false} StreamsActiveIff(tr: Transforms, st: Stats, frames: seq<Frame>)
    requires st.streamsActive == |st.streams|
    ensures ActiveThroughout(tr, st, frames) <==> AllRegular(tr, st, frames)
    decreases |frames|
  {
    hide Handled, Regular;
    if frames != [] {
      RegularKeepsActive(tr, st, frames[0]);
      if Regular(st.streams, frames[0]) {
        StreamsActiveIff(tr, Handled(tr, st, frames[0]), frames[1..]);
      }
    }
  }

  lemma {:induction false} HandledSnoc(tr: Transforms, st: Stats, frames: seq<Frame>, f: Frame)
    ensures HandledAll(tr, st, frames + [f]) == Handled(tr, HandledAll(tr, st, frames), f)
    decreases |frames|
  {
    hide Handled;
    if frames == [] {
      assert (frames + [f])[1..] == [];
    } else {
      assert (frames + [f])[0] == frames[0] && (frames + [f])[1..] == frames[1..] + [f];
      HandledSnoc(tr, Handled(tr, st, frames[0]), frames[1..], f);
    }
  }

  /** The last frame that opens or closes the stream opens it. */
  predicate OpenedLast(frames: seq<Frame>, id: U32) {
    if frames == [] then false
    else
      var f := frames[|frames| - 1];
      if f.kind == 0x04 && f.streamId == id then true
      else if f.kind == 0x05 && f.streamId == id then false
      else OpenedLast(frames[..|frames| - 1], id)
  }

  function Opens(frames: seq<Frame>): int {
    if frames == [] then 0
    else
      var f := frames[|frames| - 1];
      Opens(frames[..|frames| - 1]) + if f.kind == 0x04 then 1 else if f.kind == 0x05 then -1 else 0
  }

  /** A stream is open exactly if the last frame about it opened it, and StreamsActive is opens less closes. */
  lemma {:induction false} OpenStreamsIff(tr: Transforms, frames: seq<Frame>, id: U32)
    ensures var st := HandledAll(tr, NEW_SESSION, frames);
            (id in st.streams <==> OpenedLast(frames, id)) && st.streamsActive == Opens(frames)
  {
    if frames != [] {
      var n := |frames| - 1;
      OpenStreamsIff(tr, frames[..n], id);
      assert frames == frames[..n] + [frames[n]];
      HandledSnoc(tr, NEW_SESSION, frames[..n], frames[n]);
      hide Reply, HandledAll;
    }
  }

  /** The greeting is this text. */
  lemma GreetingText()
    ensures var text := "WEBBOU/1 transport=tcp+tls";
            |GREETING| == |text| && forall i :: 0 <= i < |text| ==> GREETING[i] == text[i] as int
  {
  }

  /** Opening a stream twice counts it twice, and closing one that is not open counts below zero. */
  lemma StreamsMiscounted(tr: Transforms, id: U32)
    ensures var open := NewFrame(FRAME_STREAM_OPEN, id, []);
            var twice := HandledAll(tr, NEW_SESSION, [open, open]);
            && twice.streams == {id} && twice.streamsActive == 2
            && !ActiveThroughout(tr, NEW_SESSION, [open, open])
    ensures var close := NewFrame(FRAME_STREAM_CLOSE, id, []);
            HandledAll(tr, NEW_SESSION, [close]).streamsActive == -1 && !ActiveThroughout(tr, NEW_SESSION, [close])
  {
    hide CalculateChecksum, Received, Reply;
    var open, close := NewFrame(FRAME_STREAM_OPEN, id, []), NewFrame(FRAME_STREAM_CLOSE, id, []);
    var once := Handled(tr, NEW_SESSION, open);
    assert [open, open][1..] == [open] && [open][1..] == [] && [close][1..] == [];
    assert HandledAll(tr, NEW_SESSION, [open, open]) == HandledAll(tr, once, [open]) == Handled(tr, once, open);
    assert HandledAll(tr, NEW_SESSION, [close]) == Handled(tr, NEW_SESSION, close);
    StreamsActiveIff(tr, NEW_SESSION, [open, open]);
    StreamsActiveIff(tr, NEW_SESSION, [close]);
    assert !Regular(once.streams, open) && !Regular({}, close);
  }
}
