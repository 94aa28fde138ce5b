/**
 Payloads that are compressed and encrypted on their way, for any algorithms: what the receivers make of a
 sealed payload when their transforms undo what the sender did, and when they fail.
 */
module Sealing {
  import opened BitSequences
  import opened FrameFormat
  import opened WireBytes
  import opened Wrappers
  import Go = GoProtocol
  import Interop
  import Rust = RustProtocol
  import RustClient
  import ServerTrace

  /** What a sender does to a payload: compression first, then encryption, each as flagged. */
  datatype Seals = Seals(compress: Bytes -> Bytes, encrypt: Bytes -> Bytes)

  predicate Compressed(flags: Byte) { flags % 2 == 1 }

  predicate Encrypted(flags: Byte) { flags / 2 % 2 == 1 }

  function Sealed(seals: Seals, flags: Byte, data: Bytes): Bytes {
    var packed := if Compressed(flags) then seals.compress(data) else data;
    if Encrypted(flags) then seals.encrypt(packed) else packed
  }

  /** The receiver's transforms undo the sender's. */
  ghost predicate Undoes(tr: Transforms, seals: Seals) {
    forall data: Bytes :: tr.decrypt(seals.encrypt(data)) == Some(data) && tr.decompress(seals.compress(data)) == Some(data)
  }

  /** The payload does not come through: decryption fails, or decompression of what it yields. */
  predicate Broken(tr: Transforms, flags: Byte, payload: Bytes) {
    || (Encrypted(flags) && tr.decrypt(payload).None?)
    || (Encrypted(flags) && tr.decrypt(payload).Some? && Compressed(flags) && tr.decompress(tr.decrypt(payload).value).None?)
    || (!Encrypted(flags) && Compressed(flags) && tr.decompress(payload).None?)
  }

  // ---------------------------------------------------------------- the server's echo

  /** The server echoes the data that was sealed. */
  lemma EchoOfSealed(tr: Transforms, seals: Seals, f: Go.Frame, data: Bytes)
    requires Undoes(tr, seals) && f.payload == Sealed(seals, f.flags, data)
    ensures ServerTrace.EchoPayload(tr, f) == Some(data)
  {
    LowFlags(f.flags);
    hide Meet;
  }

  /** It sends nothing back exactly when the payload does not come through. */
  lemma NoEchoIff(tr: Transforms, f: Go.Frame)
    requires f.kind == 0x01
    ensures ServerTrace.Reply(tr, f).None? <==> Broken(tr, f.flags, f.payload)
  {
    LowFlags(f.flags);
    hide Meet, Go.NewFrame;
  }

  // ---------------------------------------------------------------- what the client's caller gets

  /** The caller gets the data that was sealed, and nothing of a PONG. */
  lemma SealedOpened(tr: Transforms, seals: Seals, f: Rust.Frame, data: Bytes)
    requires Undoes(tr, seals) && f.payload == Sealed(seals, f.flags, data)
    ensures RustClient.Opened(tr, f) == RustClient.Payload(if f.kind == 0x03 then [] else data)
  {
    LowFlags(f.flags);
    hide Meet;
  }

  /** A frame without these flags is given to the caller as it is, whatever the transforms. */
  lemma PlainOpened(tr: Transforms, f: Rust.Frame)
    requires f.kind != 0x03 && !Compressed(f.flags) && !Encrypted(f.flags)
    ensures RustClient.Opened(tr, f) == RustClient.Payload(f.payload)
  {
    LowFlags(f.flags);
    hide Meet;
  }

  lemma UndecodableIff(tr: Transforms, f: Rust.Frame)
    ensures RustClient.Opened(tr, f) == RustClient.Undecodable <==> f.kind != 0x03 && Broken(tr, f.flags, f.payload)
  {
    LowFlags(f.flags);
    hide Meet;
  }

  /** Data the client seals, the server opens and echoes, comes back to the client's caller as it was. */
  lemma EchoRoundTrip(server: Transforms, client: Transforms, seals: Seals, r: Rust.Frame, data: Bytes)
    requires Undoes(server, seals) && r.kind == 0x01 && r.payload == Sealed(seals, r.flags, data)
    ensures var reply := ServerTrace.Reply(server, Interop.ToGo(r));
            && reply.Some? && Interop.ToRust(reply.value) == Rust.Frame(0x01, 0, r.streamId, data)
            && RustClient.Opened(client, Interop.ToRust(reply.value)) == RustClient.Payload(data)
  {
    hide Go.CalculateChecksum, Undoes;
    var f := Interop.ToGo(r);
    EchoOfSealed(server, seals, f, data);
    hide ServerTrace.EchoPayload, Sealed;
    PlainOpened(client, Rust.Frame(0x01, 0, r.streamId, data));
  }
}
