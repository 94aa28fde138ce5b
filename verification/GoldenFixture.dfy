/** The repository's golden frame, evaluated: DATA, no flags, stream 7, payload "ping". */
module GoldenFixture {
  import opened BitSequences
  import opened Crc32
  import opened CrcWords
  import opened FrameFormat
  import opened WireBytes
  import Go = GoProtocol
  import Interop
  import Rust = RustProtocol

  const PING: Bytes := [0x70, 0x69, 0x6E, 0x67]

  const GOLDEN: Bytes :=
    [0xB0, 0x01, 0x01, 0x00, 0x00, 0x00, 0x00, 0x07, 0x00, 0x00, 0x00, 0x04, 0xF0, 0xDA, 0xF0, 0x34, 0x70, 0x69, 0x6E, 0x67]

  // Each part of the frame, evaluated on the word machine.

  lemma GoldenLeadSteps()
    ensures EightSteps(0xFFFF_FFFF, false, false, false, false, true, true, false, true) == 0xE69C_A3FE
    ensures EightSteps(0xE69C_A3FE, true, false, false, false, false, false, false, false) == 0x2DE4_732E
    ensures EightSteps(0x2DE4_732E, true, false, false, false, false, false, false, false) == 0xABFC_D92A
    ensures EightSteps(0xABFC_D92A, false, false, false, false, false, false, false, false) == 0xDB10_350F
  {
  }

  lemma GoldenLead(r: Register)
    requires Holds(0xFFFF_FFFF, r)
    ensures Holds(0xDB10_350F, Update(r, [0xB0, 0x01, 0x01, 0x00]))
  {
    GoldenLeadSteps();
    hide Holds, Update, EightSteps;
    ByteHolds(0xFFFF_FFFF, 0xE69C_A3FE, r, 0xB0, false, false, false, false, true, true, false, true);
    ByteHolds(0xE69C_A3FE, 0x2DE4_732E, Update(r, [0xB0]), 0x01, true, false, false, false, false, false, false, false);
    ByteHolds(0x2DE4_732E, 0xABFC_D92A, Update(Update(r, [0xB0]), [0x01]), 0x01, true, false, false, false, false, false, false, false);
    ByteHolds(0xABFC_D92A, 0xDB10_350F, Update(Update(Update(r, [0xB0]), [0x01]), [0x01]), 0x00, false, false, false, false, false, false, false, false);
    FourUpdates(r, 0xB0, 0x01, 0x01, 0x00);
  }

  lemma GoldenStreamIdSteps()
    ensures EightSteps(0xDB10_350F, false, false, false, false, false, false, false, false) == 0x9064_0DA4
    ensures EightSteps(0x9064_0DA4, false, false, false, false, false, false, false, false) == 0xD12B_03FC
    ensures EightSteps(0xD12B_03FC, false, false, false, false, false, false, false, false) == 0xB4DA_9534
    ensures EightSteps(0xB4DA_9534, true, true, true, false, false, false, false, false) == 0xBF64_BB83
  {
  }

  lemma GoldenStreamId(r: Register)
    requires Holds(0xDB10_350F, r)
    ensures Holds(0xBF64_BB83, Update(r, [0x00, 0x00, 0x00, 0x07]))
  {
    GoldenStreamIdSteps();
    hide Holds, Update, EightSteps;
    ByteHolds(0xDB10_350F, 0x9064_0DA4, r, 0x00, false, false, false, false, false, false, false, false);
    ByteHolds(0x9064_0DA4, 0xD12B_03FC, Update(r, [0x00]), 0x00, false, false, false, false, false, false, false, false);
    ByteHolds(0xD12B_03FC, 0xB4DA_9534, Update(Update(r, [0x00]), [0x00]), 0x00, false, false, false, false, false, false, false, false);
    ByteHolds(0xB4DA_9534, 0xBF64_BB83, Update(Update(Update(r, [0x00]), [0x00]), [0x00]), 0x07, true, true, true, false, false, false, false, false);
    FourUpdates(r, 0x00, 0x00, 0x00, 0x07);
  }

  lemma GoldenLengthSteps()
    ensures EightSteps(0xBF64_BB83, false, false, false, false, false, false, false, false) == 0x740E_B621
    ensures EightSteps(0x740E_B621, false, false, false, false, false, false, false, false) == 0x4C1D_1EE8
    ensures EightSteps(0x4C1D_1EE8, false, false, false, false, false, false, false, false) == 0xAE9D_7754
    ensures EightSteps(0xAE9D_7754, false, false, true, false, false, false, false, false) == 0x6BC5_CC83
  {
  }

  lemma GoldenLength(r: Register)
    requires Holds(0xBF64_BB83, r)
    ensures Holds(0x6BC5_CC83, Update(r, [0x00, 0x00, 0x00, 0x04]))
  {
    GoldenLengthSteps();
    hide Holds, Update, EightSteps;
    ByteHolds(0xBF64_BB83, 0x740E_B621, r, 0x00, false, false, false, false, false, false, false, false);
    ByteHolds(0x740E_B621, 0x4C1D_1EE8, Update(r, [0x00]), 0x00, false, false, false, false, false, false, false, false);
    ByteHolds(0x4C1D_1EE8, 0xAE9D_7754, Update(Update(r, [0x00]), [0x00]), 0x00, false, false, false, false, false, false, false, false);
    ByteHolds(0xAE9D_7754, 0x6BC5_CC83, Update(Update(Update(r, [0x00]), [0x00]), [0x00]), 0x04, false, false, true, false, false, false, false, false);
    FourUpdates(r, 0x00, 0x00, 0x00, 0x04);
  }

  lemma GoldenPayloadSteps()
    ensures EightSteps(0x6BC5_CC83, false, false, false, false, true, true, true, false) == 0x24DF_666A
    ensures EightSteps(0x24DF_666A, true, false, false, true, false, true, true, false) == 0x992D_8EDC
    ensures EightSteps(0x992D_8EDC, false, true, true, true, false, true, true, false) == 0x25F6_FF2E
    ensures EightSteps(0x25F6_FF2E, true, true, true, false, false, true, true, false) == 0x0F25_0FCB
  {
  }

  lemma GoldenPayload(r: Register)
    requires Holds(0x6BC5_CC83, r)
    ensures Holds(0x0F25_0FCB, Update(r, [0x70, 0x69, 0x6E, 0x67]))
  {
    GoldenPayloadSteps();
    hide Holds, Update, EightSteps;
    ByteHolds(0x6BC5_CC83, 0x24DF_666A, r, 0x70, false, false, false, false, true, true, true, false);
    ByteHolds(0x24DF_666A, 0x992D_8EDC, Update(r, [0x70]), 0x69, true, false, false, true, false, true, true, false);
    ByteHolds(0x992D_8EDC, 0x25F6_FF2E, Update(Update(r, [0x70]), [0x69]), 0x6E, false, true, true, true, false, true, true, false);
    ByteHolds(0x25F6_FF2E, 0x0F25_0FCB, Update(Update(Update(r, [0x70]), [0x69]), [0x6E]), 0x67, true, true, true, false, false, true, true, false);
    FourUpdates(r, 0x70, 0x69, 0x6E, 0x67);
  }

  lemma GoldenTwin()
    ensures Twin(0x0F25_0FCB, 0x0F25_0FCB, 32)
  {
    NoBits();
    hide Twin, BitAt, Bits;
    TwinNibble(0x0, 0x0, 0);
    TwinNibble(0xF, 0xF, 4);
    TwinNibble(0xF2, 0xF2, 8);
    TwinNibble(0xF25, 0xF25, 12);
    TwinNibble(0xF250, 0xF250, 16);
    TwinNibble(0xF250F, 0xF250F, 20);
    TwinNibble(0xF250FC, 0xF250FC, 24);
    TwinNibble(0xF250FCB, 0xF250FCB, 28);
  }

  lemma GoldenFields()
    ensures Be32(7) == [0x00, 0x00, 0x00, 0x07] && Be32(4) == [0x00, 0x00, 0x00, 0x04]
    ensures Be32(0xF0DA_F034) == [0xF0, 0xDA, 0xF0, 0x34]
  {
  }

  lemma GoldenRegister() returns (d: Register)
    ensures d == Update(Update(Update(Update(PRESET, [0xB0, 0x01, 0x01, 0x00]), [0x00, 0x00, 0x00, 0x07]), [0x00, 0x00, 0x00, 0x04]), PING)
    ensures Holds(0x0F25_0FCB, d)
  {
    PresetHolds();
    hide Holds, Update;
    var a := Update(PRESET, [0xB0, 0x01, 0x01, 0x00]);
    var b := Update(a, [0x00, 0x00, 0x00, 0x07]);
    var c := Update(b, [0x00, 0x00, 0x00, 0x04]);
    d := Update(c, PING);
    GoldenLead(PRESET);
    GoldenStreamId(a);
    GoldenLength(b);
    GoldenPayload(c);
  }

  lemma GoldenChecksum()
    ensures Rust.HashedChecksum(FRAME_DATA, 0, 7, 4, PING) == 0xF0DA_F034
  {
    GoldenTwin();
    GoldenFields();
    hide Holds, Twin, Update, Finish, Be32;
    var d := GoldenRegister();
    FinishHolds(0x0F25_0FCB, d, 0x0F25_0FCB);
  }

  /** Both encoders produce the fixture, checksum included. */
  lemma GoldenFrame()
    ensures Rust.Marshal(Rust.Frame(Rust.ToU8(Rust.Data), 0, 7, PING)) == GOLDEN
    ensures Go.Marshal(Go.NewFrame(FRAME_DATA, 7, PING)) == GOLDEN
  {
    hide Rust.HashedChecksum, Go.CalculateChecksum, Be32;
    GoldenFields();
    GoldenChecksum();
    Interop.SameEncoding(Rust.Frame(FRAME_DATA, 0, 7, PING));
  }
}
