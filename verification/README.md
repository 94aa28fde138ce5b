# WebBou: verified model of the protocol stack

WebBou is a small binary protocol with a Go server and a Rust client. This project models the
parts whose correctness depends on more than one function, and proves what they promise over
every input, every run or every reachable state:

- **Frame codec and readers.** The 16-byte big-endian header with a CRC-32 over header fields and
  payload, both encoders and decoders, and both buffering readers that are fed arbitrary chunks
  (`WireBytes`, `BitSequences`, `Folds`, `Sequences`, `Crc32`, `CrcWords`, `GoldenFixture`, `FrameFormat`,
  `FrameStreams`, `SingleReads`, `GoProtocol`, `GoStreams`, `GoFrames`, `GoFrameReader`, `RustProtocol`,
  `RustFrames`, `RustClient`, `Interop`, `Integrity`).
- **Limiters.** The token bucket, its per-client buckets with idle eviction, the fixed-window
  limiter and the connection counter (`TokenBucket`, `RateLimiting`, `RateLimiter`,
  `ClientHistories`, `HostRates`, `FixedWindow`, `ConnectionLimiter`).
- **Frame batcher.** Interleaved steps of any number of goroutines around a mutex and a
  one-element signal channel, and the object with its reused backing array (`FrameBatching`,
  `BatchSignals`, `BatchDelivery`, `FrameBatcher`).
- **Server connection.** The read loops, the dispatcher and its handlers, from the bytes that
  arrive to the frames the client receives (`ServerTrace`, `FrameAdmission`,
  `Sealing`, `ConnectionTrace`, `ServerConnection`).
- **Round-robin selector and circuit breaker** (`Rounds`, `RoundRobin`, `Counters`, `CircuitBreaker`).

Every operation that the source performs by updating fields or buffers is a method of a class, proved
against a function on values; the properties are lemmas about those functions. `dafny verify
dfyconfig.toml` checks the whole project.

Conventions. Bytes and words are bounded natural numbers; 32-bit and 64-bit wrap-around is written
out where the source has it. The CRC register is a sequence of 32 booleans, shifted bit by bit with
the reflected polynomial 0xEDB88320, preset to ones and complemented at the end (section 8 of RFC
1952); `CrcWords` shows that a 32-bit word machine computes the same for every message. Go's `int` is 64 bits wide.
Clock readings, calls of other goroutines, spare capacity of grown slices, and decryption and
decompression are parameters. `float64` token levels and times are real numbers.

Where the code does less than its documentation or its evident intent, the model follows the code
and the exact condition is proved:

- `SetFlag` on the server does not refresh the checksum, so a flagged `NewFrame` frame fails
  validation, and the client does not decode it, unless the flag is zero (`Integrity.FlaggedNewFrame`,
  `Interop.GoToRustIff`).
- The server's slice bound `HeaderSize+frame.Length` is 32-bit arithmetic and wraps for lengths of
  2^32-16 and more, which is a run-time panic; and a configured maximum of zero means 65536 to the
  server and no limit to the client (`GoProtocol.RoundTripIff`, `Interop.AgreementIff`).
- Idle eviction is unobservable exactly when five minutes refill a bucket or no bucket can hold a
  token (`RateLimiting.TransparencyIff`); the server's own limits satisfy this.
- `AllowN` accepts negative amounts, which lift the level above the cap; it stays within the cap exactly
  without them (`TokenBucket.LevelsBoundedIff`).
- `StreamsActive` is the number of open streams exactly as long as no open stream is opened again and
  only open ones are closed (`ServerTrace.StreamsActiveIff`, `ServerTrace.StreamsMiscounted`).
- Batches are cut in order, but a `Flush` call can overtake the flush loop's delivery; delivery follows
  the order of cutting exactly when nobody calls `Flush` (`BatchDelivery.OrderIff`).
- The client reads its socket before every single frame it takes, so of two replies in one read the second waits
  for more bytes; it receives everything exactly when, after any number of reads, the replies still
  incomplete are no more than the reads to come (`ConnectionTrace.RepliesReceivedIff`,
  `ConnectionTrace.SecondReplyWaits`).
- The server's key for a client is its remote address with the port, and all limits are limits for a key. They
  hold for a host as a whole exactly when it has one key (`ConnectionLimiter.HostLimitedIff`,
  `HostRates.HostRateLimitedIff`).
- The 32-bit ticket of the selector disturbs fairness when it wraps, exactly for list lengths that do not
  divide 2^32 (`RoundRobin.EvenIff`).
- `Register` marks a backend healthy without clearing its failures; it is judged by its later reports alone
  exactly when it had none (`RoundRobin.JudgedByReportsIff`).
- A failed call can leave the circuit breaker half-open if a success was reported while it was open, exactly
  for thresholds above one (`CircuitBreaker.FailedProbesReopenIff`).
- The wire document of the repository asks for `HELLO` before application data; the dispatcher keeps no
  such state, so data is answered before the handshake exactly when it is sent before it
  (`ConnectionTrace.HandshakeIff`).

## Model

| member | source | states |
|---|---|---|
| `WireBytes.EncodeThenRead` | server/webbou/protocol.go:118-120 | a 32-bit word written in big-endian order at any offset is read back unchanged |
| `WireBytes.ReadThenEncode` | server/webbou/protocol.go:136-138 | the four bytes at any offset are the encoding of the word read there |
| `Crc32.UpdateConcat` | client/src/webbou/protocol.rs:160-165 | updating the hasher with two pieces is updating it with their concatenation |
| `Crc32.BurstDetected` | server/webbou/protocol.go:92-92 | two messages of the same length that differ only within 32 consecutive bits have the same checksum if and only if they are equal |
| `Crc32.ByteBurstDetected` | server/webbou/protocol.go:105-107 | the same for a window of at most four consecutive bytes |
| `CrcWords.StepHolds` | server/webbou/protocol.go:92-92 | one shift-and-xor step of the 32-bit word machine does to the word what one step of the register does to its bits |
| `CrcWords.ByteHolds` | server/webbou/protocol.go:92-92 | eight word steps compute the register update of one byte |
| `CrcWords.MessageHolds` | server/webbou/protocol.go:92-92 | over every message the word machine follows the register |
| `CrcWords.FinishHolds` | server/webbou/protocol.go:92-92 | the final complement of the word is the checksum the register yields |
| `CrcWords.ChecksumOnWords` | server/webbou/protocol.go:92-92 | for every message the complemented word is the checksum, bit for bit |
| `GoldenFixture.GoldenChecksum` | protocol/testdata/data_frame_v1.hex:1 | the checksum of the shared fixture is the one stored in it |
| `GoldenFixture.GoldenFrame` | protocol/testdata/data_frame_v1.hex:1 | both encoders produce exactly the fixture bytes |
| `FrameStreams.ChunkInvariance` | server/webbou/server.go:263-289 | for any incremental reader, feeding chunks one by one and draining after each gives the frames, the first error and (without one) the leftover bytes of draining the whole stream at once |
| `FrameStreams.ChunkingUnobservable` | server/webbou/server.go:263-289 | two chunkings of one stream have the same outcome |
| `FrameStreams.RunIff` | server/webbou/protocol.go:170-199 | a reader reports given frames and leftover bytes without error if and only if the stream is their encodings followed by those bytes, which hold no further frame |
| `FrameStreams.RunFailsIff` | server/webbou/protocol.go:170-199 | a reader fails with a given error after given frames if and only if the stream is their encodings followed by bytes that the step rejects so |
| `GoProtocol.UnmarshalCases` | server/webbou/protocol.go:126-152 | for data that holds a whole frame: panic if the 32-bit slice bound wraps, otherwise the fields found there if they validate and else the validation error |
| `GoProtocol.UnmarshalOnBytes` | server/webbou/protocol.go:95-152 | the decoder on bytes: which of the six errors, in which order, or the fields at their offsets |
| `GoProtocol.MarshalOfUnmarshal` | server/webbou/protocol.go:111-152 | re-marshalling an accepted frame reproduces the bytes it was decoded from |
| `GoProtocol.UnmarshalOfMarshal` | server/webbou/protocol.go:111-152 | a valid frame is decoded from its encoding whatever follows it |
| `GoProtocol.RoundTripIff` | server/webbou/protocol.go:95-152 | decoding undoes encoding if and only if the frame validates and its length keeps the slice bound from wrapping |
| `GoProtocol.StepUnderAppend` | server/webbou/protocol.go:174-199 | bytes that arrive later change neither a frame nor an error of ReadFrame |
| `GoProtocol.StepConsumesHeader` | server/webbou/protocol.go:184-196 | each frame takes at least 16 bytes from the buffer, so draining ends |
| `GoProtocol.StepDelivers` | server/webbou/protocol.go:174-199 | ReadFrame delivers a frame if and only if it is deliverable and the buffer starts with its encoding; what follows stays |
| `GoProtocol.StepOnBytes` | server/webbou/protocol.go:174-199 | one ReadFrame call on bytes: it waits if and only if header or announced payload is incomplete, delivers if and only if a whole frame has magic byte, version and checksum right, and reports each error under its exact condition |
| `GoProtocol.WaitingIff` | server/webbou/protocol.go:175-188 | ReadFrame waits if and only if there are fewer than 16 bytes, or an acceptable length and fewer bytes than it announces |
| `GoProtocol.FaultyIff` | server/webbou/protocol.go:180-193 | ReadFrame fails with a given error if and only if the bytes have that fault |
| `GoProtocol.ReaderIsIncremental` | server/webbou/protocol.go:170-199 | the reader meets the assumptions of the chunking theorems |
| `GoStreams.ReadAllIsDrain` | server/webbou/server.go:263-289 | what the server reads does not depend on how the stream is cut into chunks |
| `GoStreams.StreamIff` | server/webbou/protocol.go:111-199 | frames and leftover bytes come out of any chunking if and only if the stream is the encodings followed by those bytes, which are too few for another frame |
| `GoStreams.StreamRoundTrip` | server/webbou/protocol.go:111-199 | encodings of deliverable frames, cut in any way, give back exactly these frames and an empty buffer |
| `GoStreams.StreamFailure` | server/webbou/protocol.go:174-199 | the reader fails with an error after given frames if and only if the stream is their encodings followed by bytes with exactly that fault |
| `GoFrames.FrameObject.constructor` | server/webbou/protocol.go:60-72 | the new frame has no flags, the truncated length and a checksum over its fields |
| `GoFrames.FrameObject.SetFlag` | server/webbou/protocol.go:74-76 | only the flags change; the checksum stays stale |
| `GoFrames.FrameObject.CalculateChecksum` | server/webbou/protocol.go:82-93 | filling the buffer in place computes the checksum of the concatenated fields and payload |
| `GoFrames.FrameObject.Validate` | server/webbou/protocol.go:95-109 | reports the first of the four checks that fails |
| `GoFrames.FrameObject.Marshal` | server/webbou/protocol.go:111-124 | filling the buffer in place yields the encoding that the round-trip theorems are about |
| `GoFrameReader.FrameReader.constructor` | server/webbou/protocol.go:159-168 | the reader starts empty with the truncated limit, or 65536 if that is zero |
| `GoFrameReader.FrameReader.Feed` | server/webbou/protocol.go:170-172 | the bytes are appended, in place or in a larger array, and every payload handed out earlier keeps its bytes |
| `GoFrameReader.FrameReader.ReadFrame` | server/webbou/protocol.go:174-199 | does one reader step; the payload is a window on the buffer's array, and no byte is written |
| `GoFrameReader.DrainReader` | server/webbou/server.go:271-279 | the inner loop yields the drain of the buffer |
| `GoFrameReader.ReadConnection` | server/webbou/server.go:263-289 | the outer loop reads what the stream determines, and at its end every delivered payload still holds the bytes that were delivered although it aliases the buffer |
| `RustProtocol.FromU8` | client/src/webbou/protocol.rs:65-107 | the inverse of the type-to-byte mapping, and an error exactly for bytes no type maps to |
| `RustProtocol.WireConstants` | client/src/webbou/protocol.rs:3-27 | the fifteen type bytes and the two flags as numbers |
| `BitSequences.LowFlags` | server/webbou/protocol.go:78-80 | the compressed flag is the lowest bit of the flags and the encrypted flag the one above it |
| `RustProtocol.ReaderIsIncremental` | client/src/webbou/protocol.rs:232-270 | the client's reader meets the assumptions of the chunking theorems |
| `RustFrames.Hasher.Absorb` | client/src/webbou/protocol.rs:161-164 | the hasher's register is updated bit by bit with all bytes of the slice |
| `RustFrames.MarshalFrame` | client/src/webbou/protocol.rs:145-172 | building the buffer with a hasher updated four times yields the encoding that agrees with Go's |
| `RustFrames.FrameReader.ReadFrame` | client/src/webbou/protocol.rs:236-270 | does one reader step; a complete frame leaves the buffer even if it is then rejected |
| `RustFrames.ReadConnection` | client/src/webbou/protocol.rs:232-270 | the client's reader, drained after every chunk, yields the frames and error that the stream determines |
| `SingleReads.ReceivedIsPrefix` | client/src/webbou/client.rs:289-302 | one frame a read: what is received is a first part of the stream's frames and the rest is still in the buffer; an error is the stream's first error |
| `SingleReads.TakenIsMinimum` | client/src/webbou/client.rs:289-302 | closed form: the frames and error taken are the minimum, over all i, of those completed by the first i reads plus the reads since |
| `SingleReads.KeepsUpIff` | client/src/webbou/client.rs:289-302 | one frame a read yields frames, error and leftover of draining if and only if, for every i, no more is completed after the first i reads than there are reads left |
| `SingleReads.PacedIff` | client/src/webbou/client.rs:289-302 | for a stream of deliverable frames this is a condition on the lengths of frames and reads alone |
| `SingleReads.ReceivedIff` | client/src/webbou/client.rs:289-302 | all frames of a stream are received with nothing left over if and only if they are deliverable and, after every i reads, the incomplete ones are no more than the reads to come |
| `SingleReads.OneFramePerRead` | client/src/webbou/client.rs:293-302 | frames that arrive one a read meet the condition |
| `RustClient.TakeFrame` | client/src/webbou/client.rs:300-302 | feeds what a read returned and takes one reader step, leaving whatever else is complete in the buffer |
| `RustClient.Client.Recv` | client/src/webbou/client.rs:289-331 | a closed socket changes nothing; otherwise one reader step decides the result, a frame is counted before it is decrypted and decompressed, and a PONG yields no data |
| `RustClient.Listen` | client/src/webbou/client.rs:289-331 | a whole run of recv calls returns what the frames taken one a read say, and the counters are their totals modulo 2^64 |
| `RustClient.ExpectHandshakeAck` | client/src/webbou/client.rs:142-163 | takes frames one a read until the first, which decides; whatever came with it in the same read stays in the buffer |
| `Interop.FourUpdates` | client/src/webbou/protocol.rs:160-165 | four incremental updates give the one-shot checksum of the concatenation |
| `Interop.ValidIff` | server/webbou/protocol.go:95-109 | a Go frame validates if and only if it is the one rebuilt from the four fields Rust keeps |
| `Interop.SameEncoding` | client/src/webbou/protocol.rs:145-172 | for every type, flags, stream id and payload both encoders produce the same bytes |
| `Interop.SameDecoding` | client/src/webbou/protocol.rs:174-216 | both decoders accept the same inputs with the same fields, except exactly those on which Go's slice bound wraps |
| `Interop.RustUnmarshalOnBytes` | client/src/webbou/protocol.rs:174-216 | the Rust decoder on bytes: which error, in which order, or the fields at their offsets |
| `Interop.RustStepOnBytes` | client/src/webbou/protocol.rs:236-270 | one read_frame call on bytes: the magic byte is checked before length and completeness |
| `Interop.RustFaultyIff` | client/src/webbou/protocol.rs:241-267 | read_frame fails with a given error if and only if the bytes have that fault; a bad magic byte as soon as there are 16 bytes |
| `Interop.RustToGoIff` | client/src/webbou/protocol.rs:137-172 | Go decodes any frame Rust encodes, with any flags, if and only if the slice bound does not wrap |
| `Interop.GoToRustIff` | server/webbou/protocol.go:95-124 | Rust decodes what Go encodes if and only if the frame validates and its length fits 32 bits |
| `Interop.RustStreamIff` | client/src/webbou/protocol.rs:232-270 | drained after every chunk, the client's reader yields given frames from any chunking if and only if the stream encodes them |
| `Interop.RustStreamFailure` | client/src/webbou/protocol.rs:232-270 | drained after every chunk, the Rust reader fails after given frames if and only if the bytes after their encodings have exactly that fault |
| `Interop.StepsAgree` | client/src/webbou/protocol.rs:236-270 | how one ReadFrame call of each side compares on the same buffer |
| `Interop.ReadersAgree` | client/src/webbou/protocol.rs:236-270 | fed the same stream in chunks of their own under the same limit, both readers deliver the same frames; errors agree except that Rust sees a bad magic byte earlier |
| `Interop.NothingAfterBadMagic` | client/src/webbou/protocol.rs:241-243 | once Rust reports a bad magic byte, no further bytes make the Go reader deliver another frame |
| `Interop.OversizeDiverges` | server/webbou/protocol.go:141-145 | a frame at the wrapping length is delivered by Rust and panics Go |
| `Interop.DefaultLimit` | server/webbou/protocol.go:159-168 | configured with zero, the Go reader delivers a frame if and only if it has at most 65536 bytes |
| `Interop.DefaultsDiverge` | server/webbou/protocol.go:159-168 | configured with zero, Go limits frames to 65536 and Rust does not: a frame of 65537 bytes is delivered by Rust and too large for Go |
| `Interop.AgreementIff` | server/webbou/protocol.go:159-199 | configured with the same value, the two readers agree on every stream if and only if the value is nonzero in 32 bits and keeps the slice bound from wrapping |
| `Integrity.AcceptedIff` | server/webbou/protocol.go:126-152 | both decoders accept data if and only if it is intact (and, for Go, the bound does not wrap) |
| `Integrity.BurstRejected` | client/src/webbou/protocol.rs:200-208 | an accepted frame changed within any 32 consecutive checksummed bits, with length and checksum kept, is rejected by both decoders |
| `Integrity.FourBytesRejected` | server/webbou/protocol.go:82-109 | the same for up to four consecutive bytes of the first eight header bytes or of the payload |
| `Integrity.SetFlagInvalidates` | server/webbou/protocol.go:74-109 | a valid frame stays valid under SetFlag if and only if the flag adds no bit; otherwise the error is a checksum mismatch |
| `Integrity.SetThenHas` | server/webbou/protocol.go:74-80 | after SetFlag a flag is found if and only if it was there or shares a bit with the one set |
| `Integrity.FlaggedNewFrame` | server/webbou/protocol.go:60-76 | a NewFrame frame given a flag validates if and only if the flag is zero |
| `TokenBucket.LevelsStay` | server/webbou/ratelimit.go:52-64 | in every run the level is never negative, and above the cap at most by a negative amount just asked for |
| `TokenBucket.LevelsBoundedIff` | server/webbou/ratelimit.go:52-64 | levels stay between zero and the cap in every history of given amounts if and only if none of them is negative |
| `TokenBucket.NegativeLifts` | server/webbou/ratelimit.go:58-61 | a negative amount asked of a full bucket lifts it above the cap |
| `TokenBucket.WindowBound` | server/webbou/ratelimit.go:38-64 | in every run and every window no more than the cap plus the window's refill is granted, net of what negative amounts put back, also for calls that read the clock twice |
| `TokenBucket.IdealIsMinimum` | server/webbou/ratelimit.go:95-105 | closed form: the level is the minimum, over all earlier calls, of the level reached from a full bucket at that call |
| `TokenBucket.AdmittedIff` | server/webbou/ratelimit.go:52-64 | a history is admitted in full if and only if no run of calls spends more than the cap plus what it earns |
| `TokenBucket.AllowIff` | server/webbou/ratelimit.go:38-50 | arrivals at Allow are all admitted if and only if every run i..j numbers at most cap + rate * (t_j - t_i) |
| `TokenBucket.DecisionIff` | server/webbou/ratelimit.go:38-64 | every decision of every history: a call is admitted if and only if, counting only what was granted since any earlier call, a bucket full at that call would still hold enough |
| `RateLimiting.EvictionTransparent` | server/webbou/ratelimit.go:107-118 | if five idle minutes refill a bucket, every run of calls and sweeps decides as the run without sweeps |
| `RateLimiting.EvictionObservable` | server/webbou/ratelimit.go:107-118 | otherwise, if a bucket can hold a token, some run decides differently |
| `RateLimiting.TransparencyIff` | server/webbou/ratelimit.go:66-118 | eviction is unobservable in every run if and only if five idle minutes refill a bucket or no bucket holds a token |
| `RateLimiting.ServerLimitsRefill` | server/webbou/server.go:73-73 | the server's limits satisfy the condition |
| `RateLimiting.ClientProjection` | server/webbou/ratelimit.go:66-93 | without eviction what a client is granted depends on its own calls only |
| `RateLimiting.ClientWindowBound` | server/webbou/ratelimit.go:66-93 | each client is admitted at most a tenth of the cap plus a tenth of the rate times the window, without eviction always and with it when it is unobservable |
| `ClientHistories.OwnBucket` | server/webbou/ratelimit.go:66-118 | the calls of one client among all calls and sweeps are decided as by a bucket of its own that starts full |
| `ClientHistories.OwnAllAdmittedIff` | server/webbou/ratelimit.go:66-118 | all calls of a client are admitted if and only if no run of them asks for more than the cap and what it earns |
| `HostRates.HostWindowBound` | server/webbou/server.go:282-282 | in every run and window a host is admitted at most one client's allowance for each of its keys |
| `HostRates.TwoKeysExceed` | server/webbou/server.go:282-282 | with two keys a host is admitted more calls at once than a bucket holds |
| `HostRates.HostRateLimitedIff` | server/webbou/server.go:282-282 | a host as a whole keeps to one client's allowance if and only if it has at most one key, or no bucket holds a token |
| `RateLimiter.Limiter.constructor` | server/webbou/ratelimit.go:24-36 | the global bucket starts full and there are no client buckets |
| `RateLimiter.Limiter.Refill` | server/webbou/ratelimit.go:95-105 | the global bucket is refilled up to the cap and stamped |
| `RateLimiter.Limiter.Allow` | server/webbou/ratelimit.go:38-50 | decides and updates as the bucket of the history theorems |
| `RateLimiter.Limiter.AllowN` | server/webbou/ratelimit.go:52-64 | the same for n tokens |
| `RateLimiter.Limiter.AllowIp` | server/webbou/ratelimit.go:66-93 | decides and updates the client's bucket, created full if missing, and no other |
| `RateLimiter.Limiter.Cleanup` | server/webbou/ratelimit.go:107-118 | the sweep removes exactly the buckets idle for more than five minutes |
| `RateLimiter.Limiter.Serve` | server/webbou/ratelimit.go:66-118 | a whole history of calls and sweeps on the object gives the decisions of the specification |
| `RateLimiter.ServeNew` | server/webbou/ratelimit.go:24-118 | a new limiter gives every client at most a tenth of maxTokens plus a tenth of the refill in every window, and refuses it nothing if and only if a bucket with these tenths would not |
| `RateLimiter.FirstCalls` | server/webbou/ratelimit.go:66-93 | of first calls of a client at one instant exactly those up to a tenth of maxTokens are admitted |
| `RateLimiter.AllowAll` | server/webbou/ratelimit.go:24-50 | a new limiter admits all arrivals at Allow if and only if every run i..j numbers at most maxTokens + refillRate * (t_j - t_i) |
| `RateLimiter.AskAll` | server/webbou/ratelimit.go:24-64 | every decision of AllowN on a new limiter, for any amounts, by what is left of a bucket full at any earlier call |
| `FixedWindow.StartsApart` | server/security.go:94-99 | consecutive counters of a client start more than one window apart |
| `FixedWindow.WindowBound` | server/security.go:87-108 | at most 2 * max(1, maxRequests) - 1 calls are admitted in any closed interval no longer than the window |
| `FixedWindow.DecisionIff` | server/security.go:87-108 | every decision: a call is admitted if and only if it starts a counter or fewer than maxRequests calls came since the one that did |
| `FixedWindow.BoundReached` | server/security.go:87-108 | for every positive window some history reaches this bound |
| `FixedWindow.ClientProjection` | server/security.go:91-91 | what a client gets depends on its own calls only |
| `FixedWindow.ClientWindowBound` | server/security.go:87-108 | the bound holds for each client over every history of any number of clients |
| `FixedWindow.RateLimiter.Allow` | server/security.go:87-108 | decides and updates the client's counter and no other |
| `FixedWindow.Serve` | server/security.go:87-108 | a history served by the object lets through no more than the bound |
| `ConnectionLimiter.ConnectionRateLimiter.AllowConnection` | server/webbou/ratelimit.go:144-155 | admits below the limit and counts, otherwise changes nothing |
| `ConnectionLimiter.ConnectionRateLimiter.ReleaseConnection` | server/webbou/ratelimit.go:157-167 | takes one off a positive count and removes the entry at zero |
| `ConnectionLimiter.CountsExact` | server/webbou/server.go:243-248 | in every interleaving of handlers the stored count of each address is the number of its serving handlers, entries are positive and within the limit |
| `ConnectionLimiter.AdmittedIff` | server/webbou/ratelimit.go:148-151 | a connection is admitted if and only if fewer than the limit of handlers of its address are serving |
| `ConnectionLimiter.ReleaseFinds` | server/webbou/server.go:248-248 | every serving handler finds a positive count to give back |
| `ConnectionLimiter.ReleaseUndoes` | server/webbou/server.go:243-248 | in every run a handler that comes and goes leaves the map as it found it |
| `ConnectionLimiter.EmptyAtEnd` | server/webbou/ratelimit.go:163-165 | once no handler is serving the map is empty |
| `ConnectionLimiter.HostBound` | server/webbou/server.go:240-248 | in every run a host is served at most the limit for each of its keys |
| `ConnectionLimiter.SecondKeyAdmitted` | server/webbou/server.go:240-248 | a second key of a host is admitted although its first one has reached the limit |
| `ConnectionLimiter.HostLimitedIff` | server/webbou/server.go:240-248 | the limit holds for a host as a whole in every run if and only if it has at most one key, or nothing is admitted |
| `ConnectionLimiter.Carry` | server/webbou/server.go:243-248 | a whole run on the object ends in the state of the specification, with exact counts |
| `FrameBatching.EveryRun` | server/webbou/batch.go:31-82 | every step of every goroutine keeps mutual exclusion, attendance of a full buffer, conservation and single hand-out |
| `FrameBatching.NoLostWakeup` | server/webbou/batch.go:31-61 | whenever the mutex is free and at least maxFrames frames are pending, the signal is in the channel or the loop has received it and not yet taken the mutex |
| `BatchSignals.SignalsConserved` | server/webbou/batch.go:42-58 | in every run signals sent are received, in the channel, or were dropped because one was there |
| `BatchSignals.WakeupsBounded` | server/webbou/batch.go:31-58 | in every run the signals received, in the channel and dropped are those sent, and no more were sent than frames added |
| `FrameBatching.Conservation` | server/webbou/batch.go:35-72 | the batches cut so far, in cutting order, followed by the pending frames are the Add sequence, and no batch is empty |
| `FrameBatching.DeliveredOnce` | server/webbou/batch.go:63-78 | the callback never gets more than was cut, and once nobody is inside flush it has had every batch exactly once |
| `FrameBatching.MutualExclusion` | server/webbou/batch.go:64-73 | at most one goroutine is inside the mutex |
| `BatchDelivery.SignalSuffices` | server/webbou/batch.go:53-60 | from every state with a free mutex and maxFrames frames pending, the loop alone, without its ticker, can cut and deliver exactly those frames |
| `BatchDelivery.NoDeadlock` | server/webbou/batch.go:31-82 | in every reachable state somebody inside the batcher can take a step unless all are idle, and an idle loop can take a tick, and a receive if and only if there is a signal |
| `BatchDelivery.DeliveredInOrder` | server/webbou/batch.go:49-78 | when nobody calls Flush, the frames delivered, about to be delivered and pending are the Add sequence in order |
| `BatchDelivery.DeliveryCanOvertake` | server/webbou/batch.go:73-82 | for every threshold and any number of callers there is a run with a Flush call in which two batches are delivered in the opposite order of their cutting |
| `BatchDelivery.OrderIff` | server/webbou/batch.go:49-82 | in all reachable states what was delivered is a first part of what was cut, if and only if no Flush calls are made, or there is no caller, or no callback |
| `BatchDelivery.AddsAlone` | server/webbou/batch.go:31-47 | an uninterrupted Add appends the frame and sends the signal exactly at the threshold |
| `BatchDelivery.FlushesAlone` | server/webbou/batch.go:63-78 | an uninterrupted flush of a nonempty buffer reaches delivery of everything pending |
| `FrameBatcher.Batcher.constructor` | server/webbou/batch.go:18-29 | the batcher starts empty, without a signal, on a fresh array |
| `FrameBatcher.Batcher.Add` | server/webbou/batch.go:31-47 | appends to the reused array and signals at the threshold; no batch handed out earlier changes |
| `FrameBatcher.Batcher.Flush` | server/webbou/batch.go:63-78 | copies everything pending to a fresh array of its own, or returns nothing if there is nothing |
| `FrameBatcher.Batcher.Wake` | server/webbou/batch.go:57-58 | takes the signal and flushes |
| `FrameBatcher.Carry` | server/webbou/batch.go:31-82 | after any sequence of critical sections every batch still holds the frames it was cut with, and with the pending ones they are the Add sequence |
| `ServerTrace.TraceOf` | server/webbou/server.go:271-288 | the bytes written are the encoded replies to the admitted frames in order of arrival, and the session has handled exactly those |
| `FrameAdmission.HandledIff` | server/webbou/server.go:281-287 | a frame is handled if and only if the entry of its own call among all the limiter's decisions is true |
| `FrameAdmission.AllHandledIff` | server/webbou/server.go:281-287 | all frames of a connection with a key of its own are handled if and only if no run of its calls asks for more than its bucket can give |
| `FrameAdmission.HandledByDensityIff` | server/webbou/server.go:281-287 | with one clock reading a call: if and only if every run i..j of frames numbers at most cap + rate * (t_j - t_i) |
| `ServerTrace.SessionTotals` | server/webbou/server.go:330-400 | FramesRecv, BytesRecv, FramesSent and BytesSent are the totals of the trace modulo 2^64 |
| `ServerTrace.StreamsActiveIff` | server/webbou/server.go:386-394 | StreamsActive is the number of open streams throughout if and only if no open stream is opened again and only open ones are closed |
| `ServerTrace.OpenStreamsIff` | server/webbou/server.go:386-394 | a stream is open if and only if the last frame about it opened it, and StreamsActive is opens less closes |
| `ServerTrace.StreamsMiscounted` | server/webbou/server.go:386-394 | opening a stream twice makes StreamsActive two for one open stream, and closing one that is not open makes it -1 |
| `ServerTrace.GreetingText` | server/webbou/server.go:351-351 | the bytes of the greeting are its text |
| `ConnectionTrace.RepliesArriveIff` | server/webbou/server.go:350-412 | whatever the payload transforms do, the client's reader drained after every chunk yields all replies if and only if each of them fits its limit |
| `ConnectionTrace.RepliesReceivedIff` | client/src/webbou/client.rs:289-302 | the client, which takes one frame a read, has received all replies if and only if each fits its limit and, after every i reads, the incomplete ones are no more than the reads to come |
| `ConnectionTrace.SecondReplyWaits` | client/src/webbou/client.rs:293-302 | of two frames that arrive in one read the client gets the first, and the second waits in the buffer; a drained reader would yield both |
| `ConnectionTrace.RepliesAnswer` | server/webbou/server.go:350-384 | replies are one HELLO_ACK per HELLO, one same-stream same-payload PONG per PING and one same-stream echo per DATA frame whose payload comes through the transforms, in order, and nothing else |
| `ConnectionTrace.PlainEchoes` | server/webbou/server.go:355-379 | DATA frames that are neither encrypted nor compressed are echoed unchanged and fit every client limit that is no smaller than the server's and holds the greeting |
| `Sealing.EchoOfSealed` | server/webbou/server.go:355-379 | data that was compressed and then encrypted as flagged is echoed as it was, for any transforms that undo these steps |
| `Sealing.NoEchoIff` | server/webbou/server.go:357-374 | a DATA frame gets no reply if and only if decryption fails or decompression of what it yields does |
| `Sealing.SealedOpened` | client/src/webbou/client.rs:307-327 | recv returns the data that was sealed, and nothing of a PONG |
| `Sealing.PlainOpened` | client/src/webbou/client.rs:314-327 | recv returns the payload of an unflagged frame as it is |
| `Sealing.UndecodableIff` | client/src/webbou/client.rs:314-321 | recv fails on a frame if and only if it is no PONG and decryption or decompression fails |
| `Sealing.EchoRoundTrip` | client/src/webbou/client.rs:240-327 | data the client seals, a server whose transforms undo it echoes, comes back to the client's caller as it was |
| `ConnectionTrace.AnswersCount` | server/webbou/server.go:334-347 | replies of each kind are as many as the frames that ask for them |
| `ConnectionTrace.HandshakeIff` | server/webbou/server.go:334-353 | data is sent back before any HELLO_ACK if and only if data that comes through the transforms arrives before any HELLO |
| `ConnectionTrace.NoHandshakeNeeded` | server/webbou/server.go:334-338 | a first frame of plain data is echoed although no HELLO was sent |
| `ConnectionTrace.EndToEnd` | server/webbou/server.go:239-290 | for every stream whose echoes fit the client's limit, any chunking of both directions and any traffic at the limiter, the client's reader drained after every chunk yields exactly the answers to the admitted frames without error or leftover, and the session's counters are the totals of both directions |
| `ConnectionTrace.EndToEndReceived` | client/src/webbou/client.rs:289-302 | in the same setting the client as it is has received a first part of the answers without an error, and all of them if and only if the reads are well paced |
| `ConnectionTrace.AdmittedFramesBound` | server/webbou/server.go:281-287 | in any window no more frames of a connection are handled than the client's token allowance |
| `ConnectionTrace.RepliesBounded` | server/webbou/server.go:281-287 | a connection whose frames are read between s and t gets at most cap + rate * (t - s) replies |
| `ServerConnection.Session.SendFrame` | server/webbou/server.go:396-412 | counts the frame and its encoded bytes, and writes them if there is a writer |
| `ServerConnection.Session.HandleHello` | server/webbou/server.go:350-353 | answers with HELLO_ACK on stream 0 and the greeting |
| `ServerConnection.Session.HandleData` | server/webbou/server.go:355-379 | decrypts, then decompresses as flagged and echoes, or does nothing if a transform fails |
| `ServerConnection.Session.HandlePing` | server/webbou/server.go:381-384 | answers with PONG on the same stream with the same payload |
| `ServerConnection.Session.HandleFrame` | server/webbou/server.go:330-394 | counts the frame and dispatches it; session and written bytes are those of the trace |
| `ServerConnection.Session.HandleDatagram` | server/webbou/server.go:320-328 | an invalid datagram changes nothing; the reply to a valid one is counted though there is no writer |
| `ServerConnection.ServeBuffered` | server/webbou/server.go:271-288 | the inner loop serves exactly the frames that draining the buffer yields |
| `ServerConnection.ServeConnection` | server/webbou/server.go:259-289 | the nested loops leave limiter, session and wire as serving the frames of the stream one by one would |
| `ServerConnection.HandleTcpConnection` | server/webbou/server.go:239-290 | a refused connection touches nothing; an admitted one is served by the loops and its place is given back |
| `RoundRobin.Selector.Select` | server/webbou/loadbalancer.go:43-59 | draws a ticket with 32-bit wrap-around and hands out the backend of its slot if and only if that is healthy, else nil; panics if the list length is a nonzero multiple of 2^32 |
| `RoundRobin.Selector.Register` | server/webbou/loadbalancer.go:61-73 | appends and marks healthy unless the address is known; addresses stay distinct |
| `RoundRobin.Selector.Unregister` | server/webbou/loadbalancer.go:75-85 | removes the backend of the address and keeps the order of the others |
| `RoundRobin.Selector.RecordSuccess` | server/webbou/loadbalancer.go:87-91 | clears the failures and marks healthy |
| `RoundRobin.Selector.RecordFailure` | server/webbou/loadbalancer.go:93-100 | counts the failure and marks unhealthy above five |
| `RoundRobin.FairWithoutWrap` | server/webbou/loadbalancer.go:51-52 | k selections without a wrap examine each of n slots k/n times, rounded down or up |
| `RoundRobin.FairAcrossWraps` | server/webbou/loadbalancer.go:51-52 | across any number of wraps the counts of two slots differ by at most one more than these, hence by two across one wrap |
| `RoundRobin.WrapUneven` | server/webbou/loadbalancer.go:51-52 | for a length that does not divide 2^32 some stretch examines one slot twice and another not at all |
| `RoundRobin.EvenIff` | server/webbou/loadbalancer.go:51-52 | all stretches of selections, of any length, are even up to one if and only if the list length divides 2^32 |
| `RoundRobin.EverySlotExamined` | server/webbou/loadbalancer.go:51-52 | n selections without a wrap, or 2n - 1 across any wraps, examine every slot |
| `RoundRobin.SelectMany` | server/webbou/loadbalancer.go:43-100 | in a run of selections with any reports in between, each hands out the backend of its slot if and only if the reports made until then leave it healthy |
| `RoundRobin.SelectUntilHealthy` | server/webbou/loadbalancer.go:43-100 | if a backend in reach of the tickets is healthy, that many selections return it at least once, whatever is reported about the others in between |
| `RoundRobin.HealthIff` | server/webbou/loadbalancer.go:61-100 | registered with any old failure count f, a backend is healthy if and only if at most five failures were reported since the last success or, before any success, nothing was reported or f and the reports number at most five |
| `RoundRobin.JudgedByReportsIff` | server/webbou/loadbalancer.go:71-100 | a registered backend is healthy exactly while at most five failures in a row are reported, whatever is reported, if and only if its old failure count is zero |
| `RoundRobin.RegisteredAnew` | server/webbou/loadbalancer.go:71-71 | a backend with six failures that is registered again is healthy until its next failure |
| `CircuitBreaker.Breaker.Allow` | client/src/webbou/config.rs:188-207 | allows unless open within the timeout, and half-opens after it |
| `CircuitBreaker.Breaker.Success` | client/src/webbou/config.rs:210-217 | clears the failures and closes a half-open breaker |
| `CircuitBreaker.Breaker.Failure` | client/src/webbou/config.rs:220-230 | counts and stamps the failure and opens at the threshold |
| `CircuitBreaker.HistoryInvariant` | client/src/webbou/config.rs:188-230 | for every threshold: the failure count is the streak since the last success modulo 2^64, the success count is that of the history, the stamp is the latest failure, and closed means a streak below max(1, threshold) |
| `CircuitBreaker.FailurePhase` | client/src/webbou/config.rs:219-230 | a failure opens the breaker if and only if the count has then reached the threshold, else leaves it as it was; a closed one if and only if the streak has reached max(1, threshold) |
| `CircuitBreaker.OtherPhases` | client/src/webbou/config.rs:188-217 | a success closes unless open, and a call half-opens an open breaker if and only if the latest failure is older than the timeout |
| `CircuitBreaker.RefusedIff` | client/src/webbou/config.rs:188-207 | a call is refused if and only if the breaker is open and the latest failure is no older than the timeout |
| `CircuitBreaker.QuietPeriod` | client/src/webbou/config.rs:193-203 | after a failure that leaves it open nothing is allowed until the timeout, whatever is reported meanwhile |
| `CircuitBreaker.RecoveryIff` | client/src/webbou/config.rs:193-217 | until the next failure it is half-open once a call came after the timeout, closed once a success followed such a call, and open before |
| `CircuitBreaker.TrippedIff` | client/src/webbou/config.rs:209-230 | a failure has opened it and no success was reported since, if and only if the streak has reached max(1, threshold), also after the count has wrapped |
| `CircuitBreaker.ReopensIff` | client/src/webbou/config.rs:219-230 | a failure of a half-open breaker reopens it if and only if the new count reaches the threshold; until the count wraps that is the streak, so it reopens unless a success was reported since the last opening |
| `CircuitBreaker.FailedProbeStaysHalfOpen` | client/src/webbou/config.rs:209-230 | for every threshold above one there is a history in which a failed call leaves it half-open |
| `CircuitBreaker.FailedProbesReopenIff` | client/src/webbou/config.rs:209-230 | short of a wrapping count, failures always reopen a half-open breaker if and only if the threshold is at most one |

## Left out

- TLS, QUIC, sockets, HTTP, logging, metrics, configuration files, examples and scripts: input and output, or foreign libraries.
- AEAD and compression: the two transforms are arbitrary functions here; each side draws its own random key, so no end-to-end law holds for encrypted payloads.
- Write errors of `sendFrame`: the model's wire accepts every write; the statistics count frames the same either way.
- A read error ends a connection like the end of its chunks; the read deadline is not modelled.
- A wrapped slice bound is modelled as an error of the decoder; that the panic ends the whole server process is not.
- GoProtocol.RoundTripIff: assumes a 64-bit Go int, as do all members about payload lengths.
- TokenBucket.WindowBound: rounding of float64 arithmetic is not modelled, token levels and times are reals.
- FixedWindow.WindowBound: times are reals rather than nanosecond counts.
- RoundRobin.Selector.Select: latency and the time of the last error are not kept; that a panic leaves the read lock to the deferred unlock is not modelled.
- RoundRobin.HealthIff: a failure count that overflows 63 bits is not modelled.
- CircuitBreaker.HistoryInvariant: sequential runs only; interleavings of the individual atomic loads and stores are not modelled.
- FrameBatcher.Batcher.constructor: a negative maxFrames, on which the slice allocation panics, is excluded.
- FrameBatcher.Carry: one critical section at a time; the interleavings are in FrameBatching.
- Callbacks that call Add or Flush themselves take the steps of another goroutine in FrameBatching.
- `LeastConnections`: its initial minimum is -1, so it never selects a backend with a nonnegative count.
- The Go `CircuitBreaker` and `DDOSProtector`: both request a lock they already hold on one path; the Rust breaker is modelled instead.
- ServerConnection.HandleTcpConnection: other connections of the same address between its start and end are in ConnectionLimiter, not here.
- RustClient.Client.Recv: timeouts, the connection lock and health marks are not modelled; the counters wrap as in a release build, where a debug build would panic.
- The client's reconnect loop, flow control, session, path and 0-RTT managers, state tables, pools, reputation and heartbeat: easy members or input and output.
