/** Frames captured from the wire, and what they must decode to. */
module GoldenFrames {
  import opened Bytes
  import opened Codec
  import opened Packets
  import opened PacketDecoder
  import opened Wrappers
  import CrcDetection
  import ModbusCrc

  const DATALOG: Serial := [50, 50, 50, 50, 50, 50, 50, 50, 50, 50]
  const INVERTER: Serial := [53, 53, 53, 53, 53, 53, 53, 53, 53, 53]

  const HEARTBEAT_FRAME: seq<byte> := [161, 26, 2, 0, 13, 0, 1, 193] + DATALOG + [0]

  const READ_HOLD_DATA: seq<byte> := [1, 3] + INVERTER + [12, 0, 6, 22, 6, 20, 5, 16, 57]
  const READ_HOLD_REPLY: seq<byte> :=
    [161, 26, 2, 0, 37, 0, 1, 194] + DATALOG + [23, 0] + READ_HOLD_DATA + [93, 135]

  const WRITE_SINGLE_DATA: seq<byte> := [1, 6] + INVERTER + [66, 0, 100, 0]
  const WRITE_SINGLE_REPLY: seq<byte> :=
    [161, 26, 2, 0, 32, 0, 1, 194] + DATALOG + [18, 0] + WRITE_SINGLE_DATA + [73, 173]

  const WRITE_MULTI_DATA: seq<byte> := [1, 16] + INVERTER + [12, 0, 3, 0]
  const WRITE_MULTI_REPLY: seq<byte> :=
    [161, 26, 2, 0, 32, 0, 1, 194] + DATALOG + [18, 0] + WRITE_MULTI_DATA + [226, 187]

  const READ_PARAM_REPLY: seq<byte> := [161, 26, 2, 0, 18, 0, 1, 195] + DATALOG + [0, 0, 2, 0, 44, 1]
  const WRITE_PARAM_REPLY: seq<byte> := [161, 26, 2, 0, 15, 0, 1, 196] + DATALOG + [7, 0, 3]

  /** The parser takes a heartbeat of nineteen bytes; the decoder finds it too small. */
  lemma HeartbeatIsTooSmall(suffix: seq<byte>)
    ensures Parse(HEARTBEAT_FRAME) == Success(Heartbeat(DATALOG))
    ensures DecodeStep(HEARTBEAT_FRAME + suffix) == Failed(FrameTooSmall(19), HEARTBEAT_FRAME + suffix)
  {
    assert (HEARTBEAT_FRAME + suffix)[..2] == Codec.HEADER_BYTES;
  }

  lemma ReadParamReplyDecodes(suffix: seq<byte>)
    ensures DecodeStep(READ_PARAM_REPLY + suffix) == Got(ReadParam(DATALOG, 0, [44, 1]), suffix)
  {
    assert READ_PARAM_REPLY[..2] == Codec.HEADER_BYTES;
    DecoderAgreesWithParser(READ_PARAM_REPLY, suffix);
  }

  lemma WriteParamReplyDecodes(suffix: seq<byte>)
    ensures DecodeStep(WRITE_PARAM_REPLY + suffix) == Got(WriteParam(DATALOG, 7, [0, 3]), suffix)
  {
    assert WRITE_PARAM_REPLY[..2] == Codec.HEADER_BYTES;
    DecoderAgreesWithParser(WRITE_PARAM_REPLY, suffix);
  }

  // Checksums, byte by byte in the words of the loop.

  function Turn(c: bv16): bv16
  {
    if c & 1 == 1 then (c >> 1) ^ 0xA001 else c >> 1
  }

  function EightTurns(c: bv16): bv16
  {
    Turn(Turn(Turn(Turn(Turn(Turn(Turn(Turn(c))))))))
  }

  lemma TurnIsShift(c: bv16)
    ensures Turn(c) == ModbusCrc.FeedBit(c, false)
  {}

  lemma TurnsAreShift(c: bv16, n: nat)
    ensures ModbusCrc.ShiftN(c, n + 1) == Turn(ModbusCrc.ShiftN(c, n))
  {
    TurnIsShift(ModbusCrc.ShiftN(c, n));
  }

  lemma Absorb(c: bv16, b: byte, next: bv16)
    requires EightTurns(c ^ Widen(b)) == next
    ensures ModbusCrc.AbsorbByte(c, b) == next
  {
    var x := ModbusCrc.Xor(c, Widen(b));
    TurnsAreShift(x, 0);
    TurnsAreShift(x, 1);
    TurnsAreShift(x, 2);
    TurnsAreShift(x, 3);
    TurnsAreShift(x, 4);
    TurnsAreShift(x, 5);
    TurnsAreShift(x, 6);
    TurnsAreShift(x, 7);
  }

  /** One more byte. */
  lemma Extend(data: seq<byte>, c: bv16, b: byte, next: bv16) returns (longer: seq<byte>)
    requires ModbusCrc.Run(0xFFFF, data) == c && EightTurns(c ^ Widen(b)) == next
    ensures longer == data + [b] && ModbusCrc.Run(0xFFFF, longer) == next
  {
    longer := data + [b];
    assert longer[..|longer| - 1] == data;
    Absorb(c, b, next);
  }

  lemma ReadHoldStart() returns (data: seq<byte>)
    ensures data == READ_HOLD_DATA[..11] && ModbusCrc.Run(0xFFFF, data) == 0x4A7E
  {
    data := [];
    data := Extend(data, 0xFFFF, 1, 0x807E);
    data := Extend(data, 0x807E, 3, 0x2140);
    data := Extend(data, 0x2140, 53, 0xE7E0);
    data := Extend(data, 0xE7E0, 53, 0x9F26);
    data := Extend(data, 0x9F26, 53, 0xCDDE);
    data := Extend(data, 0xCDDE, 53, 0x4F8D);
    data := Extend(data, 0x4F8D, 53, 0x724F);
    data := Extend(data, 0x724F, 53, 0xE3F3);
    data := Extend(data, 0xE3F3, 53, 0x5263);
    data := Extend(data, 0x5263, 53, 0x3ED2);
    data := Extend(data, 0x3ED2, 53, 0x4A7E);
  }

  lemma ReadHoldChecksum()
    ensures ModbusCrc.Checksum(READ_HOLD_DATA) == [93, 135]
  {
    var data := ReadHoldStart();
    data := Extend(data, 0x4A7E, 53, 0x370A);
    data := Extend(data, 0x370A, 12, 0x02B7);
    data := Extend(data, 0x02B7, 0, 0x7642);
    data := Extend(data, 0x7642, 6, 0x3376);
    data := Extend(data, 0x3376, 22, 0x2833);
    data := Extend(data, 0x2833, 6, 0x17E8);
    data := Extend(data, 0x17E8, 20, 0x4117);
    data := Extend(data, 0x4117, 5, 0x0DC1);
    data := Extend(data, 0x0DC1, 16, 0x5CCD);
    data := Extend(data, 0x5CCD, 57, 0x875D);
    assert data == READ_HOLD_DATA;
    assert WordBytes(0x875D) == [93, 135];
  }

  lemma WriteSingleStart() returns (data: seq<byte>)
    ensures data == WRITE_SINGLE_DATA[..8] && ModbusCrc.Run(0xFFFF, data) == 0xE3A6
  {
    data := [];
    data := Extend(data, 0xFFFF, 1, 0x807E);
    data := Extend(data, 0x807E, 6, 0x2280);
    data := Extend(data, 0x2280, 53, 0xB7E3);
    data := Extend(data, 0xB7E3, 53, 0x9E36);
    data := Extend(data, 0x9E36, 53, 0x01DE);
    data := Extend(data, 0x01DE, 53, 0x4F41);
    data := Extend(data, 0x4F41, 53, 0x274F);
    data := Extend(data, 0x274F, 53, 0xE3A6);
  }

  lemma WriteSingleChecksum()
    ensures ModbusCrc.Checksum(WRITE_SINGLE_DATA) == [73, 173]
  {
    var data := WriteSingleStart();
    data := Extend(data, 0xE3A6, 53, 0x6DA3);
    data := Extend(data, 0x6DA3, 53, 0x6EED);
    data := Extend(data, 0x6EED, 53, 0x5A6E);
    data := Extend(data, 0x5A6E, 53, 0xFB1B);
    data := Extend(data, 0xFB1B, 66, 0x3A3B);
    data := Extend(data, 0x3A3B, 0, 0xD37B);
    data := Extend(data, 0xD37B, 100, 0xC892);
    data := Extend(data, 0xC892, 0, 0xAD49);
    assert data == WRITE_SINGLE_DATA;
    assert WordBytes(0xAD49) == [73, 173];
  }

  lemma WriteMultiStart() returns (data: seq<byte>)
    ensures data == WRITE_MULTI_DATA[..8] && ModbusCrc.Run(0xFFFF, data) == 0x22D1
  {
    data := [];
    data := Extend(data, 0xFFFF, 1, 0x807E);
    data := Extend(data, 0x807E, 16, 0xEC01);
    data := Extend(data, 0xEC01, 53, 0xD7ED);
    data := Extend(data, 0xD7ED, 53, 0x5AD7);
    data := Extend(data, 0x5AD7, 53, 0x49DA);
    data := Extend(data, 0x49DA, 53, 0x8C08);
    data := Extend(data, 0x8C08, 53, 0xD14D);
    data := Extend(data, 0xD14D, 53, 0x22D1);
  }

  lemma WriteMultiChecksum()
    ensures ModbusCrc.Checksum(WRITE_MULTI_DATA) == [226, 187]
  {
    var data := WriteMultiStart();
    data := Extend(data, 0x22D1, 53, 0x4B22);
    data := Extend(data, 0x4B22, 53, 0x0E0B);
    data := Extend(data, 0x0E0B, 53, 0xD08F);
    data := Extend(data, 0xD08F, 53, 0xB351);
    data := Extend(data, 0xB351, 12, 0xF972);
    data := Extend(data, 0xF972, 0, 0x2579);
    data := Extend(data, 0x2579, 3, 0xE3A4);
    data := Extend(data, 0xE3A4, 0, 0xBBE2);
    assert data == WRITE_MULTI_DATA;
    assert WordBytes(0xBBE2) == [226, 187];
  }

  lemma Delivered(frame: seq<byte>, td: TranslatedData, suffix: seq<byte>)
    requires Framed(frame) && LengthWindow(frame) && frame[7] == TRANSLATED_DATA
    requires DecodeTranslated(frame) == Success(Translated(td))
    ensures DecodeStep(frame + suffix) == Got(Translated(td), suffix)
  {
    FramedLength(frame);
    DecoderAgreesWithParser(frame, suffix);
  }

  const READ_HOLD := TranslatedData(DATALOG, ReadHold, INVERTER, 12, [22, 6, 20, 5, 16, 57])
  const WRITE_SINGLE := TranslatedData(DATALOG, WriteSingle, INVERTER, 66, [100, 0])
  const WRITE_MULTI := TranslatedData(DATALOG, WriteMulti, INVERTER, 12, [3, 0])

  lemma RegisterTwelve()
    ensures LeBytes(12) == [12, 0]
  {}

  lemma RegisterSixtySix()
    ensures LeBytes(66) == [66, 0]
  {}

  lemma ReadHoldReplyDecodes(suffix: seq<byte>)
    ensures DecodeStep(READ_HOLD_REPLY + suffix) == Got(Translated(READ_HOLD), suffix)
  {
    RegisterTwelve();
    ReadHoldChecksum();
    assert READ_HOLD_DATA == [1, 3] + INVERTER + LeBytes(12) + [6] + [22, 6, 20, 5, 16, 57];
    CountedReplyDecodes([161, 26, 2, 0, 37, 0, 1, 194], [23, 0], 1, 6, READ_HOLD);
    assert READ_HOLD_REPLY[..2] == Codec.HEADER_BYTES;
    Delivered(READ_HOLD_REPLY, READ_HOLD, suffix);
  }

  lemma WriteSingleReplyDecodes(suffix: seq<byte>)
    ensures DecodeStep(WRITE_SINGLE_REPLY + suffix) == Got(Translated(WRITE_SINGLE), suffix)
  {
    RegisterSixtySix();
    WriteSingleChecksum();
    assert WRITE_SINGLE_DATA == [1, 6] + INVERTER + LeBytes(66) + [100, 0];
    PlainReplyDecodes([161, 26, 2, 0, 32, 0, 1, 194], [18, 0], 1, WRITE_SINGLE);
    assert WRITE_SINGLE_REPLY[..2] == Codec.HEADER_BYTES;
    Delivered(WRITE_SINGLE_REPLY, WRITE_SINGLE, suffix);
  }

  lemma WriteMultiReplyDecodes(suffix: seq<byte>)
    ensures DecodeStep(WRITE_MULTI_REPLY + suffix) == Got(Translated(WRITE_MULTI), suffix)
  {
    RegisterTwelve();
    WriteMultiChecksum();
    assert WRITE_MULTI_DATA == [1, 16] + INVERTER + LeBytes(12) + [3, 0];
    PlainReplyDecodes([161, 26, 2, 0, 32, 0, 1, 194], [18, 0], 1, WRITE_MULTI);
    assert WRITE_MULTI_REPLY[..2] == Codec.HEADER_BYTES;
    Delivered(WRITE_MULTI_REPLY, WRITE_MULTI, suffix);
  }
}
