/**
 A connection from end to end: bytes arrive at the server in any chunks, pass the frame reader
 and the rate limiter, are answered, and the answers reach the client's reader in any chunks.
 */
module ConnectionTrace {
  import opened Counters
  import opened FrameFormat
  import opened FrameStreams
  import opened GoProtocol
  import opened GoStreams
  import opened Interop
  import opened Sequences
  import opened ServerTrace
  import opened SingleReads
  import opened WireBytes
  import opened Wrappers
  import BitSequences
  import Rust = RustProtocol
  import RateLimiting
  import TokenBucket

  // ---------------------------------------------------------------- replies reach the client

  /** Every frame is one that NewFrame built. */
  ghost predicate AllNew(frames: seq<Frame>) {
    forall i :: 0 <= i < |frames| ==> ToGo(ToRust(frames[i])) == frames[i]
  }

  lemma ReplyIsNew(tr: Transforms, f: Frame)
    requires Reply(tr, f).Some?
    ensures ToGo(ToRust(Reply(tr, f).value)) == Reply(tr, f).value
  {
    hide CalculateChecksum, HasFlag;
  }

  lemma {:induction false} RepliesAreNew(tr: Transforms, frames: seq<Frame>)
    ensures AllNew(Replies(tr, frames))
  {
    hide Reply;
    if frames != [] {
      RepliesAreNew(tr, frames[1..]);
      if Reply(tr, frames[0]).Some? {
        ReplyIsNew(tr, frames[0]);
      }
    }
  }

  lemma {:induction false} EncodedAlike(frames: seq<Frame>)
    requires AllNew(frames)
    ensures EncodeAll(Rust.Marshal, AllToRust(frames)) == MarshalAll(frames)
  {
    hide Rust.Marshal, Marshal;
    if frames != [] {
      assert AllNew(frames[1..]) by {
        assert forall i :: 0 <= i < |frames[1..]| ==> frames[1..][i] == frames[i + 1];
      }
      EncodedAlike(frames[1..]);
      SameEncoding(ToRust(frames[0]));
      assert AllToRust(frames)[1..] == AllToRust(frames[1..]);
    }
  }

  /** Whatever the transforms do: drained after every chunk, the client's reader yields all replies exactly when each fits its limit. */
  lemma RepliesArriveIff(tr: Transforms, frames: seq<Frame>, max: U32, chunks: seq<Bytes>)
    requires Flatten(chunks) == MarshalAll(Replies(tr, frames))
    ensures Rust.ReadAll(max, chunks) == Outcome(AllToRust(Replies(tr, frames)), [], None)
       <==> AllGood(Rust.Delivering(max), AllToRust(Replies(tr, frames)))
  {
    hide Rust.ReadAll, Replies, AllToRust, AllGood;
    var replies := Replies(tr, frames);
    RepliesAreNew(tr, frames);
    EncodedAlike(replies);
    RustStreamIff(max, chunks, AllToRust(replies), []);
    assert MarshalAll(replies) + [] == MarshalAll(replies);
  }

  /**
   The client asks for one frame a read, so it has received all replies exactly when each fits its limit and,
   after every i reads, the replies that are not complete yet are no more than the reads to come.
   */
  lemma RepliesReceivedIff(tr: Transforms, frames: seq<Frame>, max: U32, arrivals: seq<Bytes>)
    requires Flatten(arrivals) == MarshalAll(Replies(tr, frames))
    ensures var replies := AllToRust(Replies(tr, frames));
            Receive(Rust.Stepping(max), arrivals) == Outcome(replies, [], None)
            <==> AllGood(Rust.Delivering(max), replies) && Paced(Rust.Marshal, replies, arrivals)
  {
    RepliesAreNew(tr, frames);
    EncodedAlike(Replies(tr, frames));
    Rust.ReaderIsIncremental(max);
    RustReaderDecodes(max);
    hide Replies, AllToRust, Receive, Paced, AllGood, Flatten;
    ReceivedIff(Rust.Stepping(max), Rust.Marshal, Rust.Delivering(max), AllToRust(Replies(tr, frames)), arrivals);
  }

  /** Two frames that arrive in one read: the client gets the first, and the second waits for more bytes. */
  lemma SecondReplyWaits(max: U32, a: Rust.Frame, b: Rust.Frame)
    requires Rust.Deliverable(max, a) && Rust.Deliverable(max, b)
    ensures var read := Rust.Marshal(a) + Rust.Marshal(b);
            && Receive(Rust.Stepping(max), [read]) == Outcome([a], Rust.Marshal(b), None)
            && Rust.ReadAll(max, [read]) == Outcome([a, b], [], None)
  {
    Rust.ReaderIsIncremental(max);
    RustReaderDecodes(max);
    hide Rust.Marshal, Rust.ReadStep, Rust.ReadAll;
    var read := Rust.Marshal(a) + Rust.Marshal(b);
    assert Rust.Delivering(max)(a) && Rust.Delivering(max)(b);
    SecondWaits(Rust.Stepping(max), Rust.Marshal, Rust.Delivering(max), a, b);
    var arrivals: seq<Bytes> := [read];
    TwoEncoded(Rust.Marshal, a, b);
    assert arrivals[1..] == [];
    assert Flatten(arrivals) == read + [] == EncodeAll(Rust.Marshal, [a, b]) + [];
    RustStreamIff(max, arrivals, [a, b], []);
  }

  // ---------------------------------------------------------------- what the replies are

  /**
   One HELLO_ACK for each HELLO, one PONG for each PING, one echo for each DATA frame whose payload
   comes through the transforms, in this order; nothing else.
   */
  predicate Answers(tr: Transforms, frames: seq<Frame>, replies: seq<Rust.Frame>)
    decreases |frames|
  {
    if frames == [] then replies == []
    else
      var f := frames[0];
      if !Asks(tr, f) then Answers(tr, frames[1..], replies)
      else
        && replies != []
        && replies[0] ==
           (if f.kind == FRAME_HELLO then Rust.Frame(FRAME_HELLO_ACK, 0, 0, GREETING)
            else if f.kind == FRAME_PING then Rust.Frame(FRAME_PONG, 0, f.streamId, f.payload)
            else Rust.Frame(FRAME_DATA, 0, f.streamId, EchoPayload(tr, f).value))
        && Answers(tr, frames[1..], replies[1..])
  }

  /** The frame gets a reply. */
  predicate Asks(tr: Transforms, f: Frame) {
    f.kind == FRAME_HELLO || f.kind == FRAME_PING || Echoed(tr, f)
  }

  predicate Echoed(tr: Transforms, f: Frame) {
    f.kind == FRAME_DATA && EchoPayload(tr, f).Some?
  }

  lemma ReplyAnswers(tr: Transforms, f: Frame)
    ensures Reply(tr, f).Some? <==> Asks(tr, f)
    ensures Reply(tr, f).Some? ==>
              ToRust(Reply(tr, f).value) ==
              if f.kind == FRAME_HELLO then Rust.Frame(FRAME_HELLO_ACK, 0, 0, GREETING)
              else if f.kind == FRAME_PING then Rust.Frame(FRAME_PONG, 0, f.streamId, f.payload)
              else Rust.Frame(FRAME_DATA, 0, f.streamId, EchoPayload(tr, f).value)
  {
    hide CalculateChecksum, EchoPayload;
  }

  lemma {:induction false} RepliesAnswer(tr: Transforms, frames: seq<Frame>)
    ensures Answers(tr, frames, AllToRust(Replies(tr, frames)))
  {
    hide Reply, ToRust, EchoPayload;
    if frames != [] {
      RepliesAnswer(tr, frames[1..]);
      ReplyAnswers(tr, frames[0]);
      var more := Replies(tr, frames[1..]);
      if Reply(tr, frames[0]).Some? {
        assert ([Reply(tr, frames[0]).value] + more)[1..] == more;
        assert ([ToRust(Reply(tr, frames[0]).value)] + AllToRust(more))[1..] == AllToRust(more);
      } else {
        assert [] + more == more;
      }
    }
  }

  function OfKind(kind: Byte, frames: seq<Frame>): nat {
    if frames == [] then 0 else (if frames[0].kind == kind then 1 else 0) + OfKind(kind, frames[1..])
  }

  function EchoesIn(tr: Transforms, frames: seq<Frame>): nat {
    if frames == [] then 0 else (if Echoed(tr, frames[0]) then 1 else 0) + EchoesIn(tr, frames[1..])
  }

  function RepliesOfKind(kind: Byte, replies: seq<Rust.Frame>): nat {
    if replies == [] then 0 else (if replies[0].kind == kind then 1 else 0) + RepliesOfKind(kind, replies[1..])
  }

  /** The replies of each kind are as many as the frames that ask for them. */
  lemma {:induction false} AnswersCount(tr: Transforms, frames: seq<Frame>, replies: seq<Rust.Frame>)
    requires Answers(tr, frames, replies)
    ensures RepliesOfKind(FRAME_HELLO_ACK, replies) == OfKind(FRAME_HELLO, frames)
    ensures RepliesOfKind(FRAME_PONG, replies) == OfKind(FRAME_PING, frames)
    ensures RepliesOfKind(FRAME_DATA, replies) == EchoesIn(tr, frames)
    ensures |replies| == OfKind(FRAME_HELLO, frames) + OfKind(FRAME_PING, frames) + EchoesIn(tr, frames)
    decreases |frames|
  {
    hide EchoPayload;
    if frames != [] {
      AnswersCount(tr, frames[1..], if Asks(tr, frames[0]) then replies[1..] else replies);
    }
  }

  /** Application data is sent back before any HELLO_ACK. */
  predicate EchoBeforeAck(replies: seq<Rust.Frame>)
  {
    replies != [] && replies[0].kind != FRAME_HELLO_ACK && (replies[0].kind == FRAME_DATA || EchoBeforeAck(replies[1..]))
  }

  /** A DATA frame that comes through the transforms arrives before any HELLO. */
  predicate DataBeforeHello(tr: Transforms, frames: seq<Frame>)
  {
    frames != [] && frames[0].kind != FRAME_HELLO && (Echoed(tr, frames[0]) || DataBeforeHello(tr, frames[1..]))
  }

  /** The server does not wait for HELLO: data is sent back before the handshake exactly when it arrives before it. */
  lemma {:induction false} HandshakeIff(tr: Transforms, frames: seq<Frame>, replies: seq<Rust.Frame>)
    requires Answers(tr, frames, replies)
    ensures EchoBeforeAck(replies) <==> DataBeforeHello(tr, frames)
    decreases |frames|
  {
    hide EchoPayload;
    if frames != [] {
      HandshakeIff(tr, frames[1..], if Asks(tr, frames[0]) then replies[1..] else replies);
    }
  }

  /** A first frame of plain data is echoed although no HELLO was sent. */
  lemma NoHandshakeNeeded(tr: Transforms, id: U32, payload: Bytes)
    ensures AllToRust(Replies(tr, [NewFrame(FRAME_DATA, id, payload)])) == [Rust.Frame(FRAME_DATA, 0, id, payload)]
    ensures EchoBeforeAck(AllToRust(Replies(tr, [NewFrame(FRAME_DATA, id, payload)])))
  {
    hide CalculateChecksum, HasFlag;
    var f := NewFrame(FRAME_DATA, id, payload);
    NoFlags(f, FLAG_ENCRYPTED);
    NoFlags(f, FLAG_COMPRESSED);
    assert EchoPayload(tr, f) == Some(payload);
    assert [f][1..] == [];
    assert Replies(tr, [f]) == [Reply(tr, f).value] + Replies(tr, []) == [Reply(tr, f).value];
    assert [Reply(tr, f).value][1..] == [];
  }

  lemma NoFlags(f: Frame, flag: Byte)
    requires f.flags == 0
    ensures !HasFlag(f, flag)
  {
    BitSequences.ZeroBits(8);
  }

  /** The echo, if there is one, does not exceed the client's limit. */
  predicate EchoFits(tr: Transforms, clientMax: U32, f: Frame) {
    Echoed(tr, f) ==> |EchoPayload(tr, f).value| < TWO32 && (clientMax == 0 || |EchoPayload(tr, f).value| <= clientMax)
  }

  predicate EchoesFit(tr: Transforms, clientMax: U32, frames: seq<Frame>) {
    forall i :: 0 <= i < |frames| ==> EchoFits(tr, clientMax, frames[i])
  }

  /** A client limit under which everything the server accepts, and its greeting, can be sent back. */
  predicate Ample(max: U32, clientMax: U32) {
    clientMax == 0 || (max > 0 && clientMax >= max && clientMax >= |GREETING|)
  }

  /** DATA frames that are neither encrypted nor compressed are echoed as they are, within such a limit. */
  lemma PlainEchoes(tr: Transforms, max: U32, clientMax: U32, frames: seq<Frame>)
    requires Ample(max, clientMax) && AllDeliverable(max, frames)
    requires forall i :: 0 <= i < |frames| ==> !HasFlag(frames[i], FLAG_ENCRYPTED) && !HasFlag(frames[i], FLAG_COMPRESSED)
    ensures EchoesFit(tr, clientMax, frames)
    ensures forall i :: 0 <= i < |frames| ==> EchoPayload(tr, frames[i]) == Some(frames[i].payload)
  {
    hide Validate, HasFlag;
    forall i | 0 <= i < |frames|
      ensures EchoFits(tr, clientMax, frames[i]) && EchoPayload(tr, frames[i]) == Some(frames[i].payload)
    {
      assert Delivering(max)(frames[i]);
    }
  }

  /** Replies fit a client limit that is ample and that no echo exceeds. */
  lemma {:induction false} AnswersFit(tr: Transforms, max: U32, clientMax: U32, frames: seq<Frame>, replies: seq<Rust.Frame>)
    requires Answers(tr, frames, replies) && AllDeliverable(max, frames) && Ample(max, clientMax)
    requires EchoesFit(tr, clientMax, frames)
    ensures AllGood(Rust.Delivering(clientMax), replies)
    decreases |frames|
  {
    hide Validate, EchoPayload;
    if frames != [] {
      var more := if Asks(tr, frames[0]) then replies[1..] else replies;
      assert Delivering(max)(frames[0]) && EchoFits(tr, clientMax, frames[0]);
      assert forall i :: 0 <= i < |frames| - 1 ==> frames[1..][i] == frames[i + 1];
      AnswersFit(tr, max, clientMax, frames[1..], more);
      if Asks(tr, frames[0]) {
        assert Rust.Deliverable(clientMax, replies[0]);
        assert replies == [replies[0]] + more;
      }
    }
  }

  // ---------------------------------------------------------------- the whole connection

  lemma {:induction false} AdmittedAreFrames(
    w: World, k: nat, m: RateLimiting.Buckets, max: U32, clientMax: U32, frames: seq<Frame>)
    requires EchoesFit(w.transforms, clientMax, frames) && AllDeliverable(max, frames)
    ensures EchoesFit(w.transforms, clientMax, Admitted(w, k, m, frames)) && AllDeliverable(max, Admitted(w, k, m, frames))
    decreases |frames|
  {
    hide LetsThrough, NextBuckets, EchoFits, Deliverable;
    if frames != [] {
      assert EchoFits(w.transforms, clientMax, frames[0]) && Delivering(max)(frames[0]);
      assert forall i :: 0 <= i < |frames| - 1 ==> frames[1..][i] == frames[i + 1];
      AdmittedAreFrames(w, k + 1, NextBuckets(w, k, m), max, clientMax, frames[1..]);
    }
  }

  lemma FramesDeliverable(max: U32, stream: Bytes)
    ensures Consumes(Stepping(max)) && AllDeliverable(max, Drain(Stepping(max), stream).frames)
  {
    ReaderIsIncremental(max);
    ReaderDecodes(max);
    DrainReadsBack(Stepping(max), Marshal, Delivering(max), stream);
  }

  /** The frames the server reads from a stream, however it is cut. */
  ghost function FramesIn(max: U32, stream: Bytes): seq<Frame> {
    ReaderIsIncremental(max);
    Drain(Stepping(max), stream).frames
  }

  /** How a new session ends when these frames have been read. */
  function SessionEnd(w: World, m: RateLimiting.Buckets, frames: seq<Frame>): Progress {
    AllFrames(w, Progress(0, m, NEW_SESSION, []), frames)
  }

  /**
   For every stream whose echoes fit the client's limit, every chunking of it, every chunking of the
   bytes that are written back, and every traffic at the limiter: the client's reader, drained after
   every chunk, yields exactly the answers to the admitted frames, in order and without an error or
   bytes left over, and the session's counters are the totals of both directions.
   */
  lemma EndToEnd(
    w: World, m: RateLimiting.Buckets, max: U32, chunks: seq<Bytes>, clientMax: U32, replyChunks: seq<Bytes>)
    requires Ample(max, clientMax) && EchoesFit(w.transforms, clientMax, ReadAll(max, chunks).frames)
    requires Flatten(replyChunks) == SessionEnd(w, m, ReadAll(max, chunks).frames).written
    ensures var frames := FramesIn(max, Flatten(chunks));
            var admitted, stats := Admitted(w, 0, m, frames), SessionEnd(w, m, frames).stats;
            var client := Rust.ReadAll(clientMax, replyChunks);
            && ReadAll(max, chunks).frames == frames
            && client.error.None? && client.rest == [] && Answers(w.transforms, admitted, client.frames)
            && stats.framesSent == Wrap(|client.frames|) && stats.bytesSent == Wrap(|Flatten(replyChunks)|)
            && stats.framesRecv == Wrap(|admitted|) && stats.bytesRecv == Wrap(PayloadBytes(admitted))
  {
    hide *;
    var stream := Flatten(chunks);
    var frames := FramesIn(max, stream);
    SameFrames(max, chunks);
    var admitted := Admitted(w, 0, m, frames);
    AdmittedAreFrames(w, 0, m, max, clientMax, frames);
    WrittenIs(w, m, frames);
    var replies := Replies(w.transforms, admitted);
    RepliesAnswer(w.transforms, admitted);
    AnswersFit(w.transforms, max, clientMax, admitted, AllToRust(replies));
    RepliesArriveIff(w.transforms, admitted, clientMax, replyChunks);
    AllToRustLength(replies);
    SessionTotals(w.transforms, admitted);
  }

  /**
   The same for the client as it is, which asks for one frame a read: it has received a first part of
   the answers without an error, and all of them exactly when the reads are well paced.
   */
  lemma EndToEndReceived(
    w: World, m: RateLimiting.Buckets, max: U32, chunks: seq<Bytes>, clientMax: U32, arrivals: seq<Bytes>)
    requires Ample(max, clientMax) && EchoesFit(w.transforms, clientMax, ReadAll(max, chunks).frames)
    requires Flatten(arrivals) == SessionEnd(w, m, ReadAll(max, chunks).frames).written
    ensures var admitted := Admitted(w, 0, m, FramesIn(max, Flatten(chunks)));
            var answers := AllToRust(Replies(w.transforms, admitted));
            var client := Receive(Rust.Stepping(clientMax), arrivals);
            && Answers(w.transforms, admitted, answers)
            && client.error.None? && client.frames <= answers
            && (client == Outcome(answers, [], None) <==> Paced(Rust.Marshal, answers, arrivals))
  {
    hide *;
    var frames := FramesIn(max, Flatten(chunks));
    SameFrames(max, chunks);
    var admitted := Admitted(w, 0, m, frames);
    AdmittedAreFrames(w, 0, m, max, clientMax, frames);
    WrittenIs(w, m, frames);
    var answers := AllToRust(Replies(w.transforms, admitted));
    RepliesAnswer(w.transforms, admitted);
    AnswersFit(w.transforms, max, clientMax, admitted, answers);
    RepliesArriveIff(w.transforms, admitted, clientMax, arrivals);
    RepliesReceivedIff(w.transforms, admitted, clientMax, arrivals);
    ReceivedOfAll(clientMax, arrivals);
  }

  /** What the client receives is a first part of what draining yields, and an error of the one is an error of the other. */
  lemma ReceivedOfAll(max: U32, arrivals: seq<Bytes>)
    ensures var client, all := Receive(Rust.Stepping(max), arrivals), Rust.ReadAll(max, arrivals);
            client.frames <= all.frames && (client.error.Some? ==> client.error == all.error)
  {
    Rust.ReaderIsIncremental(max);
    ChunkInvariance(Rust.Stepping(max), [], arrivals);
    assert [] + Flatten(arrivals) == Flatten(arrivals);
    ReceivedIsPrefix(Rust.Stepping(max), arrivals);
    hide Receive, Drain, Run, Flatten;
  }

  lemma SameFrames(max: U32, chunks: seq<Bytes>)
    ensures ReadAll(max, chunks).frames == FramesIn(max, Flatten(chunks))
    ensures AllDeliverable(max, FramesIn(max, Flatten(chunks)))
  {
    ReadAllIsDrain(max, chunks);
    FramesDeliverable(max, Flatten(chunks));
    hide ReadAll, Drain, Flatten, AllDeliverable;
  }

  lemma WrittenIs(w: World, m: RateLimiting.Buckets, frames: seq<Frame>)
    ensures var end, admitted := SessionEnd(w, m, frames), Admitted(w, 0, m, frames);
            && end.written == MarshalAll(Replies(w.transforms, admitted))
            && end.stats == HandledAll(w.transforms, NEW_SESSION, admitted)
  {
    hide AllFrames, Admitted, Replies, HandledAll, MarshalAll;
    TraceOf(w, Progress(0, m, NEW_SESSION, []), frames);
    var out := MarshalAll(Replies(w.transforms, Admitted(w, 0, m, frames)));
    assert [] + out == out;
  }

  // ---------------------------------------------------------------- replies are rate-limited

  /** All that the limiter sees while n frames are read, from frame k on. */
  function History(w: World, k: nat, n: nat): seq<RateLimiting.Op>
    decreases n
  {
    if n == 0 then [] else w.turns(k).others + ([OwnCall(w, k)] + History(w, k + 1, n - 1))
  }

  predicate During(w: World, k: nat, s: real, t: real) {
    TokenBucket.Overlaps(RateLimiting.CallOf(OwnCall(w, k)), s, t)
  }

  /** How many of n frames from frame k on are admitted by calls that touch the window. */
  function AdmittedDuring(w: World, k: nat, m: RateLimiting.Buckets, n: nat, s: real, t: real): nat
    decreases n
  {
    if n == 0 then 0
    else
      (if LetsThrough(w, k, m) && During(w, k, s, t) then 1 else 0)
      + AdmittedDuring(w, k + 1, NextBuckets(w, k, m), n - 1, s, t)
  }

  lemma {:induction false} CountConcat(
    lim: TokenBucket.Limits, m: RateLimiting.Buckets, xs: seq<RateLimiting.Op>, ys: seq<RateLimiting.Op>, ip: string, s: real, t: real)
    ensures RateLimiting.AdmittedIn(lim, true, m, xs + ys, ip, s, t)
         == RateLimiting.AdmittedIn(lim, true, m, xs, ip, s, t)
            + RateLimiting.AdmittedIn(lim, true, RateLimiting.After(lim, true, m, xs), ys, ip, s, t)
    ensures RateLimiting.AdmittedIn(lim, true, m, xs, ip, s, t) >= 0.0
    decreases |xs|
  {
    hide RateLimiting.Apply, RateLimiting.Allows;
    if xs == [] {
      assert xs + ys == ys;
    } else {
      assert (xs + ys)[0] == xs[0] && (xs + ys)[1..] == xs[1..] + ys;
      CountConcat(lim, RateLimiting.Apply(lim, true, m, xs[0]), xs[1..], ys, ip, s, t);
    }
  }

  lemma CountFirst(lim: TokenBucket.Limits, m: RateLimiting.Buckets, op: RateLimiting.Op, rest: seq<RateLimiting.Op>, s: real, t: real)
    requires op.Access?
    ensures RateLimiting.AdmittedIn(lim, true, m, [op] + rest, op.ip, s, t)
         == (if RateLimiting.Allows(lim, m, op) && TokenBucket.Overlaps(RateLimiting.CallOf(op), s, t) then 1.0 else 0.0)
            + RateLimiting.AdmittedIn(lim, true, RateLimiting.Apply(lim, true, m, op), rest, op.ip, s, t)
  {
    hide RateLimiting.Apply, RateLimiting.Allows;
    assert ([op] + rest)[1..] == rest;
  }

  lemma {:induction false} OwnAmongAll(w: World, k: nat, m: RateLimiting.Buckets, n: nat, s: real, t: real)
    ensures AdmittedDuring(w, k, m, n, s, t) as real
         <= RateLimiting.AdmittedIn(w.limits, true, m, History(w, k, n), w.ip, s, t)
    decreases n
  {
    hide RateLimiting.AdmittedIn, RateLimiting.Apply, RateLimiting.Allows, RateLimiting.After;
    if n == 0 {
      assert RateLimiting.AdmittedIn(w.limits, true, m, [], w.ip, s, t) >= 0.0 by {
        CountConcat(w.limits, m, [], [], w.ip, s, t);
      }
    } else {
      var rest := History(w, k + 1, n - 1);
      CountConcat(w.limits, m, w.turns(k).others, [OwnCall(w, k)] + rest, w.ip, s, t);
      CountFirst(w.limits, FoundBuckets(w, k, m), OwnCall(w, k), rest, s, t);
      OwnAmongAll(w, k + 1, NextBuckets(w, k, m), n - 1, s, t);
    }
  }

  /** Whatever arrives and whoever else calls the limiter, no window admits more than the client's allowance. */
  lemma AdmittedFramesBound(w: World, n: nat, clock: real, s: real, t: real)
    requires 0.0 <= w.limits.rate && 0.0 <= w.limits.cap && RateLimiting.RefillsWhileIdle(w.limits)
    requires RateLimiting.Timed(clock, History(w, 0, n)) && s <= t
    ensures AdmittedDuring(w, 0, map[], n, s, t) as real <= w.limits.cap + TokenBucket.Gain(w.limits, t - s)
  {
    hide *;
    OwnAmongAll(w, 0, map[], n, s, t);
    RateLimiting.ClientWindowBound(w.limits, true, clock, History(w, 0, n), w.ip, s, t);
  }

  lemma {:induction false} RepliesAmongAdmitted(w: World, k: nat, m: RateLimiting.Buckets, frames: seq<Frame>, s: real, t: real)
    requires forall i :: k <= i < k + |frames| ==> During(w, i, s, t)
    ensures |Replies(w.transforms, Admitted(w, k, m, frames))| <= AdmittedDuring(w, k, m, |frames|, s, t)
    decreases |frames|
  {
    hide LetsThrough, NextBuckets, Reply, During;
    if frames != [] {
      var rest := Admitted(w, k + 1, NextBuckets(w, k, m), frames[1..]);
      RepliesAmongAdmitted(w, k + 1, NextBuckets(w, k, m), frames[1..], s, t);
      assert During(w, k, s, t);
      if LetsThrough(w, k, m) {
        assert ([frames[0]] + rest)[1..] == rest;
      } else {
        assert [] + rest == rest;
      }
    }
  }

  /** A connection whose frames are read between s and t gets at most cap + rate * (t - s) replies. */
  lemma RepliesBounded(w: World, frames: seq<Frame>, clock: real, s: real, t: real)
    requires 0.0 <= w.limits.rate && 0.0 <= w.limits.cap && RateLimiting.RefillsWhileIdle(w.limits)
    requires RateLimiting.Timed(clock, History(w, 0, |frames|)) && s <= t
    requires forall i :: 0 <= i < |frames| ==> During(w, i, s, t)
    ensures |Replies(w.transforms, Admitted(w, 0, map[], frames))| as real <= w.limits.cap + TokenBucket.Gain(w.limits, t - s)
  {
    hide *;
    RepliesAmongAdmitted(w, 0, map[], frames, s, t);
    AdmittedFramesBound(w, |frames|, clock, s, t);
  }
}
