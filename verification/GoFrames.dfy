/** Go frames as the objects the server mutates, and the byte buffers they are written into. */
module GoFrames {
  import opened BitSequences
  import opened Crc32
  import opened FrameFormat
  import opened GoProtocol
  import opened WireBytes
  import opened Wrappers

  /** binary.BigEndian.PutUint32(a[k:k+4], x). */
  method PutUint32(a: array<Byte>, k: nat, x: U32)
    requires k + 4 <= a.Length
    modifies a
    ensures a[..] == old(a[..k]) + Be32(x) + old(a[k + 4..])
  {
    a[k] := Be32(x)[0];
    a[k + 1] := Be32(x)[1];
    a[k + 2] := Be32(x)[2];
    a[k + 3] := Be32(x)[3];
    hide Be32;
    assert a[k..k + 4] == Be32(x);
    assert a[..] == a[..k] + a[k..k + 4] + a[k + 4..];
  }

  /** copy(a[k:], s). */
  method CopyInto(a: array<Byte>, k: nat, s: Bytes)
    requires k + |s| <= a.Length
    modifies a
    ensures a[..] == old(a[..k]) + s + old(a[k + |s|..])
  {
    for i := 0 to |s|
      invariant a[..k] == old(a[..k]) && a[k + |s|..] == old(a[k + |s|..])
      invariant a[k..k + i] == s[..i]
    {
      a[k + i] := s[i];
      assert a[k..k + i + 1] == a[k..k + i] + [s[i]];
    }
    assert a[..] == a[..k] + a[k..k + |s|] + a[k + |s|..];
  }

  class FrameObject {
    var magic: Byte
    var version: Byte
    var kind: Byte
    var flags: Byte
    var streamId: U32
    var length: U32
    var checksum: U32
    var payload: Bytes

    function View(): Frame
      reads this
    {
      Frame(magic, version, kind, flags, streamId, length, checksum, payload)
    }

    constructor (kind: Byte, streamId: U32, payload: Bytes)
      ensures View() == NewFrame(kind, streamId, payload)
    {
      this.magic := MAGIC_BYTE;
      this.version := VERSION;
      this.kind := kind;
      this.flags := 0;
      this.streamId := streamId;
      this.length := ToU32(|payload|);
      this.checksum := 0;
      this.payload := payload;
      new;
      checksum := CalculateChecksum();
    }

    /** Sets bits of the flags and nothing else: the checksum is not refreshed. */
    method SetFlag(flag: Byte)
      modifies this`flags
      ensures View() == GoProtocol.SetFlag(old(View()), flag)
    {
      flags := OrByte(flags, flag);
    }

    /** Writes the header fields and the payload into one buffer and checksums it. */
    method CalculateChecksum() returns (crc: U32)
      ensures crc == GoProtocol.CalculateChecksum(View())
    {
      var data := new Byte[12 + |payload|];
      data[0] := magic;
      data[1] := version;
      data[2] := kind;
      data[3] := flags;
      assert data[..4] == [magic, version, kind, flags];
      PutUint32(data, 4, streamId);
      assert data[..8] == [magic, version, kind, flags] + Be32(streamId);
      PutUint32(data, 8, length);
      assert data[..12] == Header(View());
      CopyInto(data, 12, payload);
      assert data[..] == Header(View()) + payload;
      crc := Checksum(data[..]);
    }

    method Validate() returns (e: Option<Error>)
      ensures e == GoProtocol.Validate(View())
    {
      if magic != MAGIC_BYTE {
        return Some(BadMagic);
      }
      if version != VERSION {
        return Some(BadVersion);
      }
      if length != ToU32(|payload|) {
        return Some(LengthMismatch);
      }
      var crc := CalculateChecksum();
      return if checksum != crc then Some(ChecksumMismatch) else None;
    }

    /** Writes the frame into a new buffer, field by field. */
    method Marshal() returns (buf: array<Byte>)
      ensures fresh(buf) && buf[..] == GoProtocol.Marshal(View())
    {
      buf := new Byte[HEADER_SIZE + |payload|];
      buf[0] := magic;
      buf[1] := version;
      buf[2] := kind;
      buf[3] := flags;
      assert buf[..4] == [magic, version, kind, flags];
      PutUint32(buf, 4, streamId);
      assert buf[..8] == [magic, version, kind, flags] + Be32(streamId);
      PutUint32(buf, 8, length);
      assert buf[..12] == Header(View());
      PutUint32(buf, 12, checksum);
      assert buf[..16] == Header(View()) + Be32(checksum);
      CopyInto(buf, 16, payload);
      assert buf[..] == Header(View()) + Be32(checksum) + payload;
    }
  }
}
