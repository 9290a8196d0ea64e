/** Frame bodies: the parser of received frames and the encoder of requests. */
module Codec {
  import opened Bytes
  import opened Packets
  import opened Wrappers
  import ModbusCrc

  datatype ParseError =
    | PacketTooShort
    | InvalidPrefix
    | LengthMismatch
    | UnknownTcpFunction(code: byte)
    | BodyTooShort
    | HeartbeatNotEmpty(lengthByte: byte)
    | DataSectionTooShort
    | ChecksumMismatch
    | UnknownDeviceFunction(code: byte)
    | ValueLengthMismatch(actual: nat, announced: nat)

  datatype Source = FromInverter | FromClient

  const HEADER_BYTES: seq<byte> := [161, 26]

  const HEARTBEAT: byte := 193
  const TRANSLATED_DATA: byte := 194
  const READ_PARAM: byte := 195
  const WRITE_PARAM: byte := 196

  const MIN_TRANSLATED_DATA_SIZE := 38

  predicate HasValueLengthByte(source: Source, protocol: u16, f: DeviceFunction)
  {
    match f
    case ReadHold | ReadInput => protocol != 1 && source.FromInverter?
    case WriteMulti => protocol != 1 && !source.FromInverter?
    case _ => false
  }

  // Decoding.

  function DecodeHeartbeat(input: seq<byte>): Result<Packet, ParseError>
  {
    if |input| < 19 then Failure(BodyTooShort)
    else if input[18] != 0 then Failure(HeartbeatNotEmpty(input[18]))
    else Success(Heartbeat(input[8..18]))
  }

  function DecodeTranslated(input: seq<byte>): Result<Packet, ParseError>
  {
    var len := |input|;
    if len < MIN_TRANSLATED_DATA_SIZE then Failure(BodyTooShort)
    else
      var protocol := Le16(input[2], input[3]);
      var data := input[20..len - 2];
      if |data| < 14 then Failure(DataSectionTooShort)
      else if ModbusCrc.Checksum(data) != input[len - 2..] then Failure(ChecksumMismatch)
      else
        var f := FunctionOf(data[1]);
        if f.None? then Failure(UnknownDeviceFunction(data[1]))
        else
          var hasLength := HasValueLengthByte(FromInverter, protocol, f.value);
          var announced := if hasLength then data[14] as int else 2;
          var values := data[if hasLength then 15 else 14..];
          if |values| != announced then Failure(ValueLengthMismatch(|values|, announced))
          else Success(Translated(TranslatedData(
            input[8..18], f.value, data[2..12], Le16(data[12], data[13]), values)))
  }

  function DecodeReadParam(input: seq<byte>): Result<Packet, ParseError>
  {
    if |input| < 24 then Failure(BodyTooShort)
    else
      var data := input[18..];
      var hasLength := Le16(input[2], input[3]) == 2;
      var announced := if hasLength then Le16(data[2], data[3]) else 2;
      var values := data[if hasLength then 4 else 2..];
      if |values| != announced then Failure(ValueLengthMismatch(|values|, announced))
      else Success(ReadParam(input[8..18], Le16(data[0], data[1]), values))
  }

  function DecodeWriteParam(input: seq<byte>): Result<Packet, ParseError>
  {
    if |input| < 21 then Failure(BodyTooShort)
    else
      var data := input[18..];
      var values := data[1..];
      if |values| != 2 then Failure(ValueLengthMismatch(|values|, 2))
      else Success(WriteParam(input[8..18], data[0] as int, values))
  }

  /** The low byte of the length field, less the header, in eight-bit arithmetic that wraps. */
  function AnnouncedLowLength(lengthLow: byte): nat
  {
    (lengthLow as int - 6) % 256
  }

  function Parse(input: seq<byte>): Result<Packet, ParseError>
  {
    var inputLen := |input| % 256;
    if inputLen < 18 then Failure(PacketTooShort)
    else if input[..2] != HEADER_BYTES then Failure(InvalidPrefix)
    else if inputLen < AnnouncedLowLength(input[4]) then Failure(LengthMismatch)
    else if input[7] == HEARTBEAT then DecodeHeartbeat(input)
    else if input[7] == TRANSLATED_DATA then DecodeTranslated(input)
    else if input[7] == READ_PARAM then DecodeReadParam(input)
    else if input[7] == WRITE_PARAM then DecodeWriteParam(input)
    else Failure(UnknownTcpFunction(input[7]))
  }

  // The two length guards in eight-bit arithmetic.

  /** A frame as the stream decoder cuts it: magic, then a length field that covers the rest. */
  predicate Framed(frame: seq<byte>)
  {
    && 20 <= |frame|
    && frame[..2] == HEADER_BYTES
    && |frame| == 6 + Le16(frame[4], frame[5])
    && Le16(frame[4], frame[5]) <= 1024
  }

  /** The subtraction is reached, and goes below zero. */
  predicate Underflows(input: seq<byte>)
  {
    18 <= |input| % 256 && input[..2] == HEADER_BYTES && input[4] as int < 6
  }

  /** The lengths that survive truncation to eight bits. */
  predicate LengthWindow(frame: seq<byte>)
    requires 6 <= |frame|
  {
    12 <= Le16(frame[4], frame[5]) % 256 <= 249
  }

  lemma WindowArithmetic(low: nat, high: nat)
    requires low < 256 && high < 256
    ensures var n := low + 256 * high;
      && n % 256 == low
      && (12 <= low <= 249 <==> 18 <= (6 + n) % 256 && (low - 6) % 256 <= (6 + n) % 256)
      && (18 <= (6 + n) % 256 ==> 12 <= low)
  {
    SplitNumber(low, high);
    assert (6 + (low + 256 * high)) % 256 == (6 + low) % 256 by {
      if low < 250 {
        SplitNumber(6 + low, high);
      } else {
        SplitNumber(low - 250, high + 1);
      }
    }
  }

  /** On a framed input the subtraction never wraps, and the guards pass exactly in the window. */
  lemma FramedLength(frame: seq<byte>)
    requires Framed(frame)
    ensures !Underflows(frame)
    ensures LengthWindow(frame)
      <==> 18 <= |frame| % 256 && AnnouncedLowLength(frame[4]) <= |frame| % 256
    ensures !LengthWindow(frame) ==> Parse(frame) == Failure(PacketTooShort)
  {
    var low, high := frame[4] as int, frame[5] as int;
    WindowArithmetic(low, high);
    assert Le16(frame[4], frame[5]) == low + 256 * high;
  }

  /** Fed directly, the parser does reach the wrapping subtraction. */
  lemma UnframedUnderflow()
    ensures Underflows(HEADER_BYTES + [0, 0, 5, 0, 0, HEARTBEAT] + seq(12, _ => 0))
  {}

  // Which frames carry which packet: every byte of the frame but a few header bytes is determined.

  function ValueLength(protocol: u16, td: TranslatedData): seq<byte>
    requires |td.values| < 256
  {
    if HasValueLengthByte(FromInverter, protocol, td.deviceFunction)
    then [|td.values| as byte] else []
  }

  /** The checksummed part of a reply; the address byte is free. */
  function ReplyData(protocol: u16, address: byte, td: TranslatedData): seq<byte>
    requires |td.values| < 256
  {
    [address, FunctionCode(td.deviceFunction)] + td.inverter + LeBytes(td.register)
      + ValueLength(protocol, td) + td.values
  }

  predicate Announces(protocol: u16, td: TranslatedData)
  {
    && |td.values| < 256
    && (HasValueLengthByte(FromInverter, protocol, td.deviceFunction) || |td.values| == 2)
  }

  /** The frame that carries td, given its first eight bytes, inner length and address. */
  function ReplyFrame(head: seq<byte>, inner: seq<byte>, address: byte, td: TranslatedData): seq<byte>
    requires |head| == 8 && |inner| == 2 && |td.values| < 256
  {
    var data := ReplyData(Le16(head[2], head[3]), address, td);
    head + td.datalog + inner + data + ModbusCrc.Checksum(data)
  }

  lemma ReplyDataParts(protocol: u16, address: byte, td: TranslatedData)
    requires Announces(protocol, td)
    ensures var data := ReplyData(protocol, address, td);
      var k := if HasValueLengthByte(FromInverter, protocol, td.deviceFunction) then 15 else 14;
      && |data| == k + |td.values|
      && data[1] == FunctionCode(td.deviceFunction)
      && data[2..12] == td.inverter
      && Le16(data[12], data[13]) == td.register
      && data[k..] == td.values
      && (k == 15 ==> data[14] as int == |td.values|)
  {
    LeRoundTrip(td.register);
    ByteRoundTrip(|td.values|);
  }

  lemma FunctionRoundTrip(f: DeviceFunction)
    ensures FunctionOf(FunctionCode(f)) == Some(f)
  {}

  /** The layout decodes. */
  lemma ReplyFrameDecodes(head: seq<byte>, inner: seq<byte>, address: byte, td: TranslatedData)
    requires |head| == 8 && |inner| == 2 && Announces(Le16(head[2], head[3]), td)
    requires MIN_TRANSLATED_DATA_SIZE <= |ReplyFrame(head, inner, address, td)|
    ensures DecodeTranslated(ReplyFrame(head, inner, address, td)) == Success(Translated(td))
  {
    var protocol := Le16(head[2], head[3]);
    var data := ReplyData(protocol, address, td);
    var frame := ReplyFrame(head, inner, address, td);
    ReplyDataParts(protocol, address, td);
    FunctionRoundTrip(td.deviceFunction);
    assert frame[2] == head[2] && frame[3] == head[3];
    assert frame[8..18] == td.datalog;
    assert frame[20..|frame| - 2] == data;
    assert frame[|frame| - 2..] == ModbusCrc.Checksum(data);
  }

  /** Replies with a count byte, written out: every answer to a read of registers under any protocol
      but 1 has one, and it counts the values. */
  lemma CountedReplyDecodes(head: seq<byte>, inner: seq<byte>, address: byte, count: byte, td: TranslatedData)
    requires |head| == 8 && |inner| == 2 && Le16(head[2], head[3]) != 1
    requires td.deviceFunction == ReadHold || td.deviceFunction == ReadInput
    ensures var data := [address, if td.deviceFunction == ReadHold then 3 else 4] + td.inverter
        + LeBytes(td.register) + [count] + td.values;
      DecodeTranslated(head + td.datalog + inner + data + ModbusCrc.Checksum(data)) == Success(Translated(td))
      <==> 1 <= |td.values| == count as int
  {
    var data := [address, FunctionCode(td.deviceFunction)] + td.inverter + LeBytes(td.register)
      + [count] + td.values;
    var frame := head + td.datalog + inner + data + ModbusCrc.Checksum(data);
    FrameParts(head, td.datalog, inner, data);
    FunctionRoundTrip(td.deviceFunction);
    LeRoundTrip(td.register);
    assert data[2..12] == td.inverter && data[15..] == td.values && data[14] == count;
  }

  /** Replies without it: all others bring exactly one word. */
  lemma PlainReplyDecodes(head: seq<byte>, inner: seq<byte>, address: byte, td: TranslatedData)
    requires |head| == 8 && |inner| == 2
    requires Le16(head[2], head[3]) == 1 || (td.deviceFunction != ReadHold && td.deviceFunction != ReadInput)
    ensures var data := [address, FunctionCode(td.deviceFunction)] + td.inverter + LeBytes(td.register) + td.values;
      DecodeTranslated(head + td.datalog + inner + data + ModbusCrc.Checksum(data)) == Success(Translated(td))
      <==> |td.values| == 2
  {
    var data := [address, FunctionCode(td.deviceFunction)] + td.inverter + LeBytes(td.register) + td.values;
    var frame := head + td.datalog + inner + data + ModbusCrc.Checksum(data);
    FrameParts(head, td.datalog, inner, data);
    FunctionRoundTrip(td.deviceFunction);
    LeRoundTrip(td.register);
    assert data[2..12] == td.inverter && data[14..] == td.values;
  }

  lemma FrameParts(head: seq<byte>, datalog: Serial, inner: seq<byte>, data: seq<byte>)
    requires |head| == 8 && |inner| == 2
    ensures var frame := head + datalog + inner + data + ModbusCrc.Checksum(data);
      && |frame| == 22 + |data| && frame[2] == head[2] && frame[3] == head[3] && frame[8..18] == datalog
      && frame[20..|frame| - 2] == data && frame[|frame| - 2..] == ModbusCrc.Checksum(data)
  {}

  lemma CutFrame(frame: seq<byte>)
    requires 22 <= |frame|
    ensures frame == frame[..8] + frame[8..18] + frame[18..20] + frame[20..|frame| - 2] + frame[|frame| - 2..]
  {}

  lemma CutData(data: seq<byte>)
    requires 14 <= |data|
    ensures data == [data[0], data[1]] + data[2..12] + [data[12], data[13]] + data[14..]
  {}

  lemma DataIsReplyData(data: seq<byte>, protocol: u16, td: TranslatedData)
    requires 16 <= |data|
    requires FunctionOf(data[1]) == Some(td.deviceFunction)
    requires td.inverter == data[2..12] && td.register == Le16(data[12], data[13])
    requires if HasValueLengthByte(FromInverter, protocol, td.deviceFunction)
             then td.values == data[15..] && |td.values| == data[14] as int
             else td.values == data[14..] && |td.values| == 2
    ensures Announces(protocol, td) && data == ReplyData(protocol, data[0], td)
  {
    LeBytesOfLe16(data[12], data[13]);
    ByteOfInt(data[14]);
    CutData(data);
    assert data[14..] == ValueLength(protocol, td) + td.values;
  }

  /** Nothing else does. */
  lemma DecodedIsReplyFrame(frame: seq<byte>, td: TranslatedData)
    requires DecodeTranslated(frame) == Success(Translated(td))
    ensures Announces(Le16(frame[2], frame[3]), td)
    ensures frame == ReplyFrame(frame[..8], frame[18..20], frame[20], td)
  {
    var data := frame[20..|frame| - 2];
    DataIsReplyData(data, Le16(frame[2], frame[3]), td);
    CutFrame(frame);
    assert data[0] == frame[20];
    assert frame[..8][2] == frame[2] && frame[..8][3] == frame[3];
  }

  /** A framed input parses to td exactly when it is td's layout and its length is in the window. */
  lemma TranslatedIff(frame: seq<byte>, td: TranslatedData)
    requires Framed(frame)
    ensures Parse(frame) == Success(Translated(td))
      <==> && MIN_TRANSLATED_DATA_SIZE <= |frame|
           && LengthWindow(frame)
           && frame[7] == TRANSLATED_DATA
           && Announces(Le16(frame[2], frame[3]), td)
           && frame == ReplyFrame(frame[..8], frame[18..20], frame[20], td)
  {
    FramedLength(frame);
    if Parse(frame) == Success(Translated(td)) {
      DecodedIsReplyFrame(frame, td);
    } else if && MIN_TRANSLATED_DATA_SIZE <= |frame|
              && Announces(Le16(frame[2], frame[3]), td)
              && frame == ReplyFrame(frame[..8], frame[18..20], frame[20], td) {
      assert frame[..8][2] == frame[2] && frame[..8][3] == frame[3];
      ReplyFrameDecodes(frame[..8], frame[18..20], frame[20], td);
    }
  }

  /** Two frames with the same free bytes and the same packet are the same frame. */
  lemma FrameDetermined(x: seq<byte>, y: seq<byte>, td: TranslatedData)
    requires Framed(x) && Framed(y)
    requires Parse(x) == Parse(y) == Success(Translated(td))
    requires x[..8] == y[..8] && x[18..20] == y[18..20] && x[20] == y[20]
    ensures x == y
  {
    TranslatedIff(x, td);
    TranslatedIff(y, td);
  }

  // The three bodies without a checksum.

  lemma HeartbeatIff(frame: seq<byte>, datalog: Serial)
    requires Framed(frame)
    ensures Parse(frame) == Success(Heartbeat(datalog))
      <==> && LengthWindow(frame)
           && frame[7] == HEARTBEAT
           && frame == frame[..8] + datalog + [0] + frame[19..]
  {
    FramedLength(frame);
    CutHeartbeat(frame, datalog);
  }

  lemma CutHeartbeat(frame: seq<byte>, datalog: Serial)
    requires 20 <= |frame|
    ensures frame == frame[..8] + datalog + [0] + frame[19..] <==> frame[8..18] == datalog && frame[18] == 0
  {
    assert frame == frame[..8] + frame[8..18] + [frame[18]] + frame[19..];
    var other := frame[..8] + datalog + [0] + frame[19..];
    assert other[8..18] == datalog && other[18] == 0;
  }

  function ReadParamFrame(head: seq<byte>, datalog: Serial, register: u16, values: seq<byte>): seq<byte>
    requires |head| == 8 && |values| < 0x1_0000
  {
    head + datalog + LeBytes(register) + LeBytes(|values|) + values
  }

  /** Only protocol 2 works: without the explicit length a parameter reply is two bytes too short. */
  lemma ReadParamIff(frame: seq<byte>, datalog: Serial, register: u16, values: seq<byte>)
    requires Framed(frame)
    ensures Parse(frame) == Success(ReadParam(datalog, register, values))
      <==> && 24 <= |frame|
           && LengthWindow(frame)
           && frame[7] == READ_PARAM
           && |values| < 0x1_0000
           && Le16(frame[2], frame[3]) == 2
           && frame == ReadParamFrame(frame[..8], datalog, register, values)
  {
    FramedLength(frame);
    if Parse(frame) == Success(ReadParam(datalog, register, values)) {
      ReadParamIsFrame(frame, datalog, register, values);
    } else if && 24 <= |frame| && LengthWindow(frame) && frame[7] == READ_PARAM && |values| < 0x1_0000
              && Le16(frame[2], frame[3]) == 2
              && frame == ReadParamFrame(frame[..8], datalog, register, values) {
      ReadParamDecodes(frame, datalog, register, values);
    }
  }

  lemma ReadParamIsFrame(frame: seq<byte>, datalog: Serial, register: u16, values: seq<byte>)
    requires DecodeReadParam(frame) == Success(ReadParam(datalog, register, values))
    ensures Le16(frame[2], frame[3]) == 2
    ensures |values| < 0x1_0000 && frame == ReadParamFrame(frame[..8], datalog, register, values)
  {
    var data := frame[18..];
    CutParam(frame);
    LeBytesOfLe16(data[0], data[1]);
    LeBytesOfLe16(data[2], data[3]);
  }

  lemma ReadParamDecodes(frame: seq<byte>, datalog: Serial, register: u16, values: seq<byte>)
    requires 24 <= |frame| && |values| < 0x1_0000
    requires Le16(frame[2], frame[3]) == 2
    requires frame == ReadParamFrame(frame[..8], datalog, register, values)
    ensures DecodeReadParam(frame) == Success(ReadParam(datalog, register, values))
  {
    LeRoundTrip(register);
    LeRoundTrip(|values|);
    assert frame[8..18] == datalog;
    assert frame[18..20] == LeBytes(register);
    assert frame[18] == frame[18..20][0] && frame[19] == frame[18..20][1];
    assert frame[20..22] == LeBytes(|values|);
    assert frame[20] == frame[20..22][0] && frame[21] == frame[20..22][1];
    assert frame[18..][4..] == values;
  }

  lemma CutParam(frame: seq<byte>)
    requires 24 <= |frame|
    ensures frame == frame[..8] + frame[8..18] + [frame[18], frame[19]] + [frame[20], frame[21]] + frame[22..]
  {}

  /** A parameter write is exactly twenty-one bytes: a one-byte register and one word. */
  lemma WriteParamIff(frame: seq<byte>, datalog: Serial, register: u16, values: seq<byte>)
    requires Framed(frame)
    ensures Parse(frame) == Success(WriteParam(datalog, register, values))
      <==> && frame[7] == WRITE_PARAM
           && register < 256 && |values| == 2
           && frame == frame[..8] + datalog + [register as byte] + values
  {
    FramedLength(frame);
    if |frame| == 21 {
      assert Le16(frame[4], frame[5]) == 15;
      CutWriteParam(frame, datalog, register, values);
    }
  }

  lemma CutWriteParam(frame: seq<byte>, datalog: Serial, register: u16, values: seq<byte>)
    requires |frame| == 21
    ensures register < 256 && |values| == 2 && frame == frame[..8] + datalog + [register as byte] + values
      <==> frame[8..18] == datalog && frame[18] as int == register && frame[18..][1..] == values
  {
    assert frame == frame[..8] + frame[8..18] + [frame[18]] + frame[18..][1..];
    ByteOfInt(frame[18]);
    if register < 256 && |values| == 2 {
      ByteRoundTrip(register);
      var other := frame[..8] + datalog + [register as byte] + values;
      assert other[8..18] == datalog && other[18] == register as byte && other[18..][1..] == values;
    }
  }

  /** What a refusal says about the frame: the unknown code, the heartbeat's byte that should be zero, or how
      many bytes of values there are and how many should be. */
  lemma RefusalSays(frame: seq<byte>)
    requires Framed(frame) && Parse(frame).Failure? && frame[7] != 194
    ensures match Parse(frame).error
      case UnknownTcpFunction(code) => code == frame[7] && code !in {193, 195, 196}
      case HeartbeatNotEmpty(b) => frame[7] == 193 && b == frame[18] && b != 0
      case ValueLengthMismatch(actual, announced) =>
        && actual != announced
        && if frame[7] == 196 then announced == 2 && actual == |frame| - 19
           else if Le16(frame[2], frame[3]) == 2
           then announced == Le16(frame[20], frame[21]) && actual == |frame| - 22
           else announced == 2 && actual == |frame| - 20
      case PacketTooShort => !LengthWindow(frame)
      case BodyTooShort => LengthWindow(frame) && frame[7] != 193 && |frame| < 24
      case _ => false
  {
    FramedLength(frame);
  }

  lemma TranslatedRefusalSays(frame: seq<byte>)
    requires DecodeTranslated(frame).Failure?
    ensures match DecodeTranslated(frame).error
      case BodyTooShort => |frame| < 38
      case ChecksumMismatch => ModbusCrc.Checksum(frame[20..|frame| - 2]) != frame[|frame| - 2..]
      case UnknownDeviceFunction(code) => code == frame[21] && FunctionOf(code).None?
      case ValueLengthMismatch(actual, announced) =>
        && actual != announced
        && if Le16(frame[2], frame[3]) != 1 && frame[21] in {3, 4}
           then announced == frame[34] as int && actual == |frame| - 37
           else announced == 2 && actual == |frame| - 36
      case _ => false
  {}

  // Encoding.

  function Protocol(td: TranslatedData): u16
  {
    if td.deviceFunction == WriteMulti then 2 else 1
  }

  /** What a request puts between the register and the values: only WriteMulti has a count and a length. */
  function WriteCount(td: TranslatedData): seq<byte>
  {
    if td.deviceFunction == WriteMulti
    then LeBytes(|td.values| / 2 % 0x1_0000) + [(|td.values| % 256) as byte] else []
  }

  function RequestData(td: TranslatedData): seq<byte>
  {
    [0, FunctionCode(td.deviceFunction)] + td.inverter + LeBytes(td.register) + WriteCount(td) + td.values
  }

  /** The request on the wire. The length in front counts itself but not the checksum. */
  function RequestBytes(td: TranslatedData): seq<byte>
  {
    var data := RequestData(td);
    LeBytes((|data| + 2) % 0x1_0000) + data + ModbusCrc.Checksum(data)
  }

  /** The fixed part, filled in place behind room for the length. */
  method RequestHead(td: TranslatedData) returns (data: seq<byte>)
    ensures data == [0, 0] + ([0, FunctionCode(td.deviceFunction)] + td.inverter + LeBytes(td.register))
  {
    data := seq(16, _ => 0);
    data := data[3 := FunctionCode(td.deviceFunction)];
    data := data[..4] + td.inverter + data[14..];
    data := data[..14] + LeBytes(td.register);
  }

  method RequestCounts(td: TranslatedData) returns (counts: seq<byte>)
    requires td.deviceFunction == WriteMulti ==> |td.values| % 2 == 0
    ensures counts == WriteCount(td)
  {
    counts := [];
    if td.deviceFunction == WriteMulti {
      var registerCount := |Pairs(td.register, td.values)| % 0x1_0000;
      counts := counts + LeBytes(registerCount);
    }
    if HasValueLengthByte(FromClient, Protocol(td), td.deviceFunction) {
      counts := counts + [(|td.values| % 256) as byte];
    }
  }

  method EncodeRequest(td: TranslatedData) returns (data: seq<byte>)
    requires td.deviceFunction == WriteMulti ==> |td.values| % 2 == 0
    ensures data == RequestBytes(td)
  {
    var head := RequestHead(td);
    var counts := RequestCounts(td);
    var m: seq<byte> := [];
    for i := 0 to |td.values|
      invariant m == td.values[..i]
    {
      m := m + [td.values[i]];
    }
    assert m == td.values;
    data := head + counts + m;
    ghost var body := RequestData(td);
    assert data == [0, 0] + body;
    data := LeBytes(|data| % 0x1_0000) + data[2..];
    assert data[2..] == body;
    var checksum := ModbusCrc.CalculateCrc16(data[2..]);
    data := data + checksum;
  }

  /** A frame whose tail is the request for td, under a header that announces its length. */
  predicate RequestFrame(frame: seq<byte>, td: TranslatedData)
  {
    && Framed(frame)
    && Le16(frame[2], frame[3]) == Protocol(td)
    && frame[7] == TRANSLATED_DATA
    && frame[8..18] == td.datalog
    && frame[18..] == RequestBytes(td)
  }

  /** Off WriteMulti a request and a reply without length byte have the same data. */
  lemma RequestIsReply(td: TranslatedData)
    requires td.deviceFunction != WriteMulti && |td.values| == 2
    ensures RequestData(td) == ReplyData(1, 0, td)
  {}

  lemma TailInFrame(frame: seq<byte>, prefix: seq<byte>, data: seq<byte>, trailer: seq<byte>)
    requires 18 <= |frame| && frame[18..] == prefix + data + trailer && |prefix| == |trailer| == 2
    ensures |frame| == 22 + |data| && frame[20..|frame| - 2] == data
  {
    var tail := frame[18..];
    assert tail[2..|tail| - 2] == data;
    assert frame[20..|frame| - 2] == tail[2..|tail| - 2];
  }

  lemma RequestInFrame(frame: seq<byte>, td: TranslatedData)
    requires RequestFrame(frame, td)
    ensures frame[20..|frame| - 2] == RequestData(td)
    ensures |frame| == 22 + |RequestData(td)|
  {
    var data := RequestData(td);
    TailInFrame(frame, LeBytes((|data| + 2) % 0x1_0000), data, ModbusCrc.Checksum(data));
  }

  lemma SingleRequestParses(frame: seq<byte>, td: TranslatedData)
    requires RequestFrame(frame, td) && td.deviceFunction != WriteMulti && |td.values| == 2
    ensures Parse(frame) == Success(Translated(td))
  {
    var data := RequestData(td);
    RequestInFrame(frame, td);
    RequestIsReply(td);
    assert frame == ReplyFrame(frame[..8], frame[18..20], frame[20], td) by {
      assert frame[20] == data[0] == 0;
      assert frame[..18] == frame[..8] + td.datalog;
      assert RequestBytes(td) == frame[18..20] + data + ModbusCrc.Checksum(data);
      assert frame[..8][2] == frame[2] && frame[..8][3] == frame[3];
    }
    FramedLength(frame);
    assert |frame| == 38 && Le16(frame[4], frame[5]) == 32;
    TranslatedIff(frame, td);
  }

  /** A request reads back as itself exactly when it is not WriteMulti and carries one register. */
  lemma RequestRoundTrip(frame: seq<byte>, td: TranslatedData)
    requires RequestFrame(frame, td)
    ensures Parse(frame) == Success(Translated(td))
      <==> td.deviceFunction != WriteMulti && |td.values| == 2
  {
    if td.deviceFunction != WriteMulti && |td.values| == 2 {
      SingleRequestParses(frame, td);
    } else if Parse(frame) == Success(Translated(td)) {
      RequestInFrame(frame, td);
      FunctionRoundTrip(td.deviceFunction);
      FramedLength(frame);
      assert frame[2] == frame[..8][2] && frame[3] == frame[..8][3];
      DecodedIsReplyFrame(frame, td);
    }
  }

  /** No WriteMulti request is ever accepted back, whatever it carries. */
  lemma WriteMultiRejected(frame: seq<byte>, td: TranslatedData)
    requires RequestFrame(frame, td) && td.deviceFunction == WriteMulti
    ensures Parse(frame).Failure?
  {
    var data := RequestData(td);
    RequestInFrame(frame, td);
    assert data[1] == FunctionCode(WriteMulti);
    FunctionRoundTrip(WriteMulti);
    assert |data[14..]| == 3 + |td.values|;
  }

  /** What a request says, byte by byte: its own length without the checksum, the client's address, the
      function, the inverter, the register, for WriteMulti the number of words and of bytes, the
      values, and the checksum of all but the length. */
  lemma RequestReadsBack(td: TranslatedData)
    ensures var r := RequestBytes(td);
      var k := if td.deviceFunction == WriteMulti then 19 else 16;
      && |r| == k + |td.values| + 2 && Protocol(td) == (if k == 19 then 2 else 1)
      && Le16(r[0], r[1]) == (|r| - 2) % 0x1_0000
      && r[2] == 0 && FunctionOf(r[3]) == Some(td.deviceFunction) && r[4..14] == td.inverter
      && Le16(r[14], r[15]) == td.register
      && (k == 19 ==> Le16(r[16], r[17]) == |td.values| / 2 % 0x1_0000 && r[18] as int == |td.values| % 256)
      && r[k..|r| - 2] == td.values
      && r[|r| - 2..] == ModbusCrc.Checksum(r[2..|r| - 2])
  {
    var data, length := RequestData(td), (|RequestData(td)| + 2) % 0x1_0000;
    RequestParts(LeBytes(length), data, ModbusCrc.Checksum(data));
    RequestDataParts(td);
    LeRoundTrip(length);
  }

  lemma RequestParts(prefix: seq<byte>, data: seq<byte>, trailer: seq<byte>)
    requires |prefix| == 2 && |trailer| == 2
    ensures var r := prefix + data + trailer;
      && r[0] == prefix[0] && r[1] == prefix[1] && r[2..|r| - 2] == data && r[|r| - 2..] == trailer
      && (forall i, j :: 0 <= i <= j <= |data| ==> r[i + 2..j + 2] == data[i..j])
      && (forall i :: 0 <= i < |data| ==> r[i + 2] == data[i])
  {}

  lemma RequestDataParts(td: TranslatedData)
    ensures var data := RequestData(td);
      var k := if td.deviceFunction == WriteMulti then 17 else 14;
      && |data| == k + |td.values|
      && data[0] == 0 && FunctionOf(data[1]) == Some(td.deviceFunction) && data[2..12] == td.inverter
      && Le16(data[12], data[13]) == td.register
      && (k == 17 ==> Le16(data[14], data[15]) == |td.values| / 2 % 0x1_0000 && data[16] as int == |td.values| % 256)
      && data[k..] == td.values
  {
    FunctionRoundTrip(td.deviceFunction);
    LeRoundTrip(td.register);
    LeRoundTrip(|td.values| / 2 % 0x1_0000);
    ByteRoundTrip(|td.values| % 256);
  }
}
