/** Cutting one frame off the front of a growing buffer. */
module PacketDecoder {
  import opened Bytes
  import opened Packets
  import opened Wrappers
  import Codec
  import ModbusCrc

  const MAX_PACKET_SIZE := 1024
  const MIN_PACKET_SIZE := 20

  datatype DecodeError =
    | InvalidHeader
    | FrameTooSmall(frameLength: nat)
    | PacketTooLarge(packetLength: nat)
    | NoRoomForChecksum
    | NothingToChecksum
    | ChecksumMismatch
    | ParseFailed(reason: Codec.ParseError)

  /** The growable buffer: contents, and how much it can hold before it must reallocate. */
  class BytesMut {
    var data: seq<byte>
    var capacity: nat

    ghost predicate Valid()
      reads this
    {
      |data| <= capacity
    }

    constructor WithCapacity(n: nat)
      ensures Valid() && data == [] && capacity == n
    {
      data := [];
      capacity := n;
    }

    method Append(chunk: seq<byte>)
      requires Valid()
      modifies this
      ensures Valid() && data == old(data) + chunk && capacity >= old(capacity)
    {
      data := data + chunk;
      if capacity < |data| {
        capacity := |data|;
      }
    }

    method Reserve(additional: nat)
      requires Valid()
      modifies this`capacity
      ensures Valid() && capacity >= old(capacity) && capacity >= |data| + additional
    {
      if capacity < |data| + additional {
        capacity := |data| + additional;
      }
    }

    method SplitTo(at: nat) returns (front: seq<byte>)
      requires Valid() && at <= |data|
      modifies this
      ensures Valid() && front + data == old(data) && |front| == at
    {
      front := data[..at];
      data := data[at..];
      capacity := capacity - at;
    }
  }

  /** Only TranslatedData frames carry a checksum, over everything between header and trailer. */
  function VerifyChecksum(frame: seq<byte>, tcpFunction: byte): Option<DecodeError>
  {
    if tcpFunction != Codec.TRANSLATED_DATA then None
    else if |frame| < 22 then Some(NoRoomForChecksum)
    else if |frame| - 2 <= 20 then Some(NothingToChecksum)
    else if ModbusCrc.Checksum(frame[20..|frame| - 2]) != frame[|frame| - 2..] then Some(ChecksumMismatch)
    else None
  }

  /** What one call does to a buffer: wait, fail, or hand over a packet; the last two say what is left. */
  datatype Step =
    | NeedMore
    | Failed(error: DecodeError, rest: seq<byte>)
    | Got(packet: Packet, rest: seq<byte>)

  function FrameLength(buf: seq<byte>): nat
    requires 6 <= |buf|
  {
    6 + Le16(buf[4], buf[5])
  }

  /** A whole frame of acceptable length is there. */
  predicate HasFrame(buf: seq<byte>)
  {
    && 6 <= |buf| && buf[..2] == Codec.HEADER_BYTES
    && MIN_PACKET_SIZE <= FrameLength(buf) <= |buf| && FrameLength(buf) - 6 <= MAX_PACKET_SIZE
  }

  function WithoutFrame(buf: seq<byte>): Step
    requires !HasFrame(buf)
  {
    if |buf| < 6 then NeedMore
    else if buf[..2] != Codec.HEADER_BYTES then Failed(InvalidHeader, buf)
    else if FrameLength(buf) < MIN_PACKET_SIZE then Failed(FrameTooSmall(FrameLength(buf)), buf)
    else if FrameLength(buf) - 6 > MAX_PACKET_SIZE then Failed(PacketTooLarge(FrameLength(buf) - 6), buf)
    else NeedMore
  }

  function WithFrame(frame: seq<byte>, rest: seq<byte>): Step
    requires MIN_PACKET_SIZE <= |frame|
  {
    var bad := VerifyChecksum(frame, frame[7]);
    if bad.Some? then Failed(bad.value, frame + rest)
    else
      match Codec.Parse(frame)
      case Success(packet) => Got(packet, rest)
      case Failure(reason) => Failed(ParseFailed(reason), rest)
  }

  function DecodeStep(buf: seq<byte>): Step
  {
    if HasFrame(buf) then WithFrame(buf[..FrameLength(buf)], buf[FrameLength(buf)..]) else WithoutFrame(buf)
  }

  /** At the end of a stream bytes that make no frame are an error. */
  datatype EofError = Undecodable(error: DecodeError) | BytesRemaining

  class Decoder {
    constructor ()
    {}

    method Decode(src: BytesMut) returns (r: Result<Option<Packet>, DecodeError>)
      requires src.Valid()
      modifies src
      ensures src.Valid()
      ensures match DecodeStep(old(src.data))
        case NeedMore => r == Success(None) && src.data == old(src.data)
        case Failed(error, rest) => r == Failure(error) && src.data == rest
        case Got(packet, rest) => r == Success(Some(packet)) && src.data == rest
      ensures r == Success(None) && 6 <= |src.data| ==> src.capacity >= FrameLength(src.data)
    {
      var srcLen := |src.data|;
      if srcLen < 6 {
        return Success(None);
      }
      if src.data[0..2] != Codec.HEADER_BYTES {
        return Failure(InvalidHeader);
      }
      var packetLen := Le16(src.data[4], src.data[5]);
      var frameLen := 6 + packetLen;
      if frameLen < MIN_PACKET_SIZE {
        return Failure(FrameTooSmall(frameLen));
      }
      if packetLen > MAX_PACKET_SIZE {
        return Failure(PacketTooLarge(packetLen));
      }
      if srcLen < frameLen {
        src.Reserve(frameLen - srcLen);
        return Success(None);
      }
      CutFrame(src.data);
      var tcpFunction := src.data[7];
      var bad := VerifyChecksum(src.data[..frameLen], tcpFunction);
      if bad.Some? {
        return Failure(bad.value);
      }
      var frame := src.SplitTo(frameLen);
      assert frame == old(src.data)[..frameLen] && src.data == old(src.data)[frameLen..];
      match Codec.Parse(frame) {
        case Success(packet) => return Success(Some(packet));
        case Failure(reason) => return Failure(ParseFailed(reason));
      }
    }

    /** The stream codec's own way to decode what is left at the end. */
    method DecodeEof(src: BytesMut) returns (r: Result<Option<Packet>, EofError>)
      requires src.Valid()
      modifies src
      ensures src.Valid()
      ensures match DecodeStep(old(src.data))
        case NeedMore =>
          && src.data == old(src.data)
          && r == if src.data == [] then Success(None) else Failure(BytesRemaining)
        case Failed(error, rest) => r == Failure(Undecodable(error)) && src.data == rest
        case Got(packet, rest) => r == Success(Some(packet)) && src.data == rest
    {
      var decoded := Decode(src);
      if decoded.Failure? {
        return Failure(Undecodable(decoded.error));
      }
      if decoded.value.None? && src.data != [] {
        return Failure(BytesRemaining);
      }
      return Success(decoded.value);
    }
  }

  // One step.

  lemma CutFrame(buf: seq<byte>)
    requires HasFrame(buf)
    ensures var frame, rest := buf[..FrameLength(buf)], buf[FrameLength(buf)..];
      && buf == frame + rest && frame[7] == buf[7]
      && HasFrame(frame) && FrameLength(frame) == |frame|
      && DecodeStep(buf) == WithFrame(frame, rest)
      && DecodeStep(frame) == WithFrame(frame, [])
  {
    var frame := buf[..FrameLength(buf)];
    assert frame[..2] == buf[..2];
    assert frame[..|frame|] == frame && frame[|frame|..] == [];
  }

  lemma WithFrameStable(frame: seq<byte>, rest: seq<byte>, more: seq<byte>)
    requires MIN_PACKET_SIZE <= |frame|
    ensures match WithFrame(frame, rest)
      case NeedMore => false
      case Failed(error, left) => WithFrame(frame, rest + more) == Failed(error, left + more)
      case Got(packet, left) => WithFrame(frame, rest + more) == Got(packet, left + more)
  {
    assert frame + (rest + more) == (frame + rest) + more;
  }

  /** A complete frame: one the decoder turns into a packet with nothing left over. */
  ghost predicate Complete(frame: seq<byte>)
  {
    DecodeStep(frame).Got? && DecodeStep(frame).rest == []
  }

  function PacketOf(frame: seq<byte>): Packet
    requires Complete(frame)
  {
    DecodeStep(frame).packet
  }

  /** Handing over a packet consumes exactly one complete frame, of 20 to 1030 bytes. */
  lemma GotFrame(buf: seq<byte>)
    requires DecodeStep(buf).Got?
    ensures 6 <= |buf| && MIN_PACKET_SIZE <= FrameLength(buf) <= |buf| && FrameLength(buf) <= 1030
    ensures Complete(buf[..FrameLength(buf)])
    ensures PacketOf(buf[..FrameLength(buf)]) == DecodeStep(buf).packet
    ensures buf == buf[..FrameLength(buf)] + DecodeStep(buf).rest
  {
    CutFrame(buf);
    WithFrameStable(buf[..FrameLength(buf)], [], DecodeStep(buf).rest);
    assert [] + DecodeStep(buf).rest == DecodeStep(buf).rest;
  }

  lemma CutStable(buf: seq<byte>, more: seq<byte>, n: nat)
    requires 6 <= n <= |buf|
    ensures (buf + more)[..2] == buf[..2]
    ensures (buf + more)[..n] == buf[..n] && (buf + more)[n..] == buf[n..] + more
    ensures FrameLength(buf + more) == FrameLength(buf)
  {}

  lemma WithoutFrameStable(buf: seq<byte>, more: seq<byte>)
    requires !HasFrame(buf) && WithoutFrame(buf).Failed?
    ensures !HasFrame(buf + more)
    ensures WithoutFrame(buf + more) == Failed(WithoutFrame(buf).error, WithoutFrame(buf).rest + more)
  {
    CutStable(buf, more, 6);
  }

  /** Once a step says something, later bytes cannot change what it says. */
  lemma StepStable(buf: seq<byte>, more: seq<byte>)
    ensures match DecodeStep(buf)
      case NeedMore => true
      case Failed(error, rest) => DecodeStep(buf + more) == Failed(error, rest + more)
      case Got(packet, rest) => DecodeStep(buf + more) == Got(packet, rest + more)
  {
    if HasFrame(buf) {
      var n := FrameLength(buf);
      CutStable(buf, more, n);
      WithFrameStable(buf[..n], buf[n..], more);
    } else if WithoutFrame(buf).Failed? {
      WithoutFrameStable(buf, more);
    }
  }

  /** A whole frame is judged alone, whatever follows it. */
  lemma WholeFrame(frame: seq<byte>, suffix: seq<byte>)
    requires Codec.Framed(frame)
    ensures DecodeStep(frame + suffix) == WithFrame(frame, suffix)
  {
    var n := |frame|;
    CutStable(frame, suffix, n);
    assert frame[..n] == frame && frame[n..] + suffix == suffix;
  }

  /** On every frame the decoder hands over exactly what the parser makes of it, and leaves the
      suffix. A bad checksum keeps the frame in the buffer, any other failure consumes it. */
  lemma DecoderAgreesWithParser(frame: seq<byte>, suffix: seq<byte>)
    requires Codec.Framed(frame)
    ensures DecodeStep(frame + suffix).Got? <==> Codec.Parse(frame).Success?
    ensures match Codec.Parse(frame)
      case Success(packet) => DecodeStep(frame + suffix) == Got(packet, suffix)
      case Failure(reason) =>
        var bad := VerifyChecksum(frame, frame[7]);
        DecodeStep(frame + suffix)
          == if bad.Some? then Failed(bad.value, frame + suffix) else Failed(ParseFailed(reason), suffix)
  {
    WholeFrame(frame, suffix);
    if VerifyChecksum(frame, frame[7]).Some? {
      BadChecksumIsNotParsed(frame);
    }
  }

  lemma BadChecksumIsNotParsed(frame: seq<byte>)
    requires Codec.Framed(frame) && VerifyChecksum(frame, frame[7]).Some?
    ensures Codec.Parse(frame).Failure?
  {}

  /** Every packet comes from a framed input, so the eight-bit subtraction never wraps. */
  lemma HandedOverIsFramed(buf: seq<byte>)
    requires 6 <= |buf| && FrameLength(buf) <= |buf|
    requires DecodeStep(buf).Got? || (DecodeStep(buf).Failed? && DecodeStep(buf).error.ParseFailed?)
    ensures Codec.Framed(buf[..FrameLength(buf)])
    ensures !Codec.Underflows(buf[..FrameLength(buf)])
  {
    var frame := buf[..FrameLength(buf)];
    assert frame[..2] == buf[..2];
    Codec.FramedLength(frame);
  }

  /** The parser's own checksum test never fails behind the decoder's. */
  lemma ParserChecksumUnreachable(buf: seq<byte>)
    ensures DecodeStep(buf).Failed? ==> DecodeStep(buf).error != ParseFailed(Codec.ChecksumMismatch)
  {}

  /** A request that reads back as itself also passes the stream decoder. */
  lemma RequestThroughDecoder(frame: seq<byte>, td: TranslatedData, suffix: seq<byte>)
    requires Codec.RequestFrame(frame, td)
    ensures DecodeStep(frame + suffix) == Got(Translated(td), suffix)
      <==> td.deviceFunction != WriteMulti && |td.values| == 2
  {
    Codec.RequestRoundTrip(frame, td);
    DecoderAgreesWithParser(frame, suffix);
  }

  /** When a step waits: for the six header bytes, and behind a good header for the rest of the frame. All
      that is wrong with a header is noticed with its sixth byte, a bad start first. */
  lemma WaitsIff(buf: seq<byte>)
    ensures DecodeStep(buf).NeedMore? <==>
      || |buf| < 6
      || (buf[..2] == [161, 26] && 14 <= Le16(buf[4], buf[5]) <= 1024 && |buf| < 6 + Le16(buf[4], buf[5]))
    ensures 6 <= |buf| && buf[..2] != [161, 26] ==> DecodeStep(buf) == Failed(InvalidHeader, buf)
    ensures 6 <= |buf| && buf[..2] == [161, 26] && Le16(buf[4], buf[5]) < 14 ==>
      DecodeStep(buf) == Failed(FrameTooSmall(6 + Le16(buf[4], buf[5])), buf)
    ensures 6 <= |buf| && buf[..2] == [161, 26] && Le16(buf[4], buf[5]) > 1024 ==>
      DecodeStep(buf) == Failed(PacketTooLarge(Le16(buf[4], buf[5])), buf)
  {}

  /** What the checksum test says: only TranslatedData is tested, below 22 bytes there is no room for a
      checksum, at 22 nothing for it to cover, and above it must be right. */
  lemma ChecksumVerdict(frame: seq<byte>, tcpFunction: byte)
    ensures VerifyChecksum(frame, tcpFunction)
      == if tcpFunction != 194 then None
         else if |frame| <= 21 then Some(NoRoomForChecksum)
         else if |frame| == 22 then Some(NothingToChecksum)
         else if frame == frame[..20] + (frame[20..|frame| - 2] + ModbusCrc.Checksum(frame[20..|frame| - 2])) then None
         else Some(ChecksumMismatch)
  {
    if 22 <= |frame| {
      var n := |frame| - 2;
      assert frame == frame[..20] + (frame[20..n] + frame[n..]);
      var sound := frame[..20] + (frame[20..n] + ModbusCrc.Checksum(frame[20..n]));
      assert sound[n..] == ModbusCrc.Checksum(frame[20..n]);
    }
  }

  /** Waiting means holding less than one maximal frame. */
  lemma WaitingIsShort(buf: seq<byte>)
    requires DecodeStep(buf).NeedMore?
    ensures |buf| < 1030
  {}
}
