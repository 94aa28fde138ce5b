/** The constants, errors and payload transforms that the two endpoints share. */
module FrameFormat {
  import opened WireBytes
  import opened Wrappers

  const MAGIC_BYTE: Byte := 0xB0
  const VERSION: Byte := 0x01
  const HEADER_SIZE: nat := 16

  const FRAME_DATA: Byte := 0x01
  const FRAME_PING: Byte := 0x02
  const FRAME_PONG: Byte := 0x03
  const FRAME_STREAM_OPEN: Byte := 0x04
  const FRAME_STREAM_CLOSE: Byte := 0x05
  const FRAME_SETTINGS: Byte := 0x08
  const FRAME_HELLO: Byte := 0x10
  const FRAME_HELLO_ACK: Byte := 0x11
  const FRAME_HELLO_DONE: Byte := 0x12
  const FRAME_MULTI_PATH: Byte := 0x20
  const FRAME_PATH_CLOSE: Byte := 0x21
  const FRAME_FLOW_CONTROL: Byte := 0x30
  const FRAME_MAX_DATA: Byte := 0x31
  const FRAME_BLOCKED: Byte := 0x32
  const FRAME_ACK2: Byte := 0x33

  const FLAG_COMPRESSED: Byte := 0x01
  const FLAG_ENCRYPTED: Byte := 0x02

  datatype Error =
    | DataTooShort
    | BadMagic
    | BadVersion
    | IncompleteFrame
    | LengthMismatch
    | ChecksumMismatch
    | FrameTooLarge
    | BoundsPanic // Go's run-time panic for a slice whose high bound is below its low bound

  /** Decryption and decompression of a payload; None is an error. */
  datatype Transforms = Transforms(decrypt: Bytes -> Option<Bytes>, decompress: Bytes -> Option<Bytes>)
}
