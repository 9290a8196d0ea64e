/** The loop that reads one inverter's socket: append what arrived, then drain. */
module Reader {
  import opened Bytes
  import opened Packets
  import opened PacketDecoder
  import opened Stream
  import opened Wrappers

  const MAX_BUFFER_SIZE := 65536

  /** What ends the wait in one turn: a message to the inverter, or the socket. */
  datatype Incoming =
    | Shutdown
    | OtherMessage
    | MessageLost
    | Read(chunk: seq<byte>)
    | ReadError
    | ReadTimeout

  datatype Outcome =
    | Continue
    | Silent
    | BufferOverflow
    | ShutDown
    | ClosedByPeer
    | LeftOver
    | ReadFailed
    | DecodeFailed(error: DecodeError)

  class InverterReader {
    const buf: BytesMut
    const decoder: Decoder
    /** The packets sent on to the coordinator. */
    var fromInverter: seq<Packet>
    /** Every byte the socket has delivered. */
    ghost var arrived: seq<byte>

    /** Between reads the buffer holds what draining everything so far has left. */
    ghost predicate Valid()
      reads this, buf
    {
      && buf.Valid()
      && Drain(arrived) == Session(fromInverter, Pending(buf.data))
    }

    constructor ()
      ensures Valid() && fresh(buf)
      ensures arrived == [] && fromInverter == []
    {
      buf := new BytesMut.WithCapacity(MAX_BUFFER_SIZE);
      decoder := new Decoder();
      fromInverter := [];
      arrived := [];
    }

    /** One turn of the outer loop. silent says that nothing has been received for too long. Only a read
        brings bytes; every other turn leaves packets and buffer alone. */
    method Turn(silent: bool, incoming: Incoming) returns (outcome: Outcome)
      requires Valid()
      modifies this, buf
      ensures arrived == old(arrived) + if !silent && incoming.Read? then incoming.chunk else []
      ensures old(fromInverter) <= fromInverter && fromInverter == Drain(arrived).packets
      ensures outcome == Continue ==> Valid()
      ensures outcome
        == if silent then Silent
           else match incoming
             case Shutdown => if old(buf.data) == [] then ShutDown else LeftOver
             case OtherMessage => Continue
             case MessageLost => Continue
             case ReadError => ReadFailed
             case ReadTimeout => ReadFailed
             case Read(chunk) =>
               if chunk == [] then (if old(buf.data) == [] then ClosedByPeer else LeftOver)
               else match Drain(arrived).ending
                 case Pending(_) => Continue
                 case Broken(error) => DecodeFailed(error)
    {
      ghost var left := DrainConserves(arrived);
      assert arrived + [] == arrived;
      if silent {
        return Silent;
      }
      if |buf.data| >= MAX_BUFFER_SIZE {
        assert false;
        return BufferOverflow;
      }
      match incoming {
        case Shutdown =>
          outcome := DecodeRest(ShutDown);
        case OtherMessage =>
          return Continue;
        case MessageLost =>
          return Continue;
        case ReadError =>
          return ReadFailed;
        case ReadTimeout =>
          return ReadFailed;
        case Read(chunk) =>
          outcome := OnRead(chunk);
      }
    }

    /** A read that delivers chunk; an empty one means that the peer has closed. */
    method OnRead(chunk: seq<byte>) returns (outcome: Outcome)
      requires Valid()
      modifies this, buf
      ensures arrived == old(arrived) + chunk
      ensures old(fromInverter) <= fromInverter && fromInverter == Drain(arrived).packets
      ensures chunk == [] ==>
        fromInverter == old(fromInverter) && outcome == if old(buf.data) == [] then ClosedByPeer else LeftOver
      ensures chunk != [] ==> match Drain(arrived).ending
        case Pending(rest) => outcome == Continue && Valid() && buf.data == rest
        case Broken(error) => outcome == DecodeFailed(error)
    {
      ghost var left := DrainConserves(arrived);
      DrainAppend(arrived, chunk);
      buf.Append(chunk);
      arrived := arrived + chunk;
      if |chunk| == 0 {
        assert old(arrived) + chunk == old(arrived);
        assert buf.data == old(buf.data);
        outcome := DecodeRest(ClosedByPeer);
      } else {
        outcome := DrainBuffer();
      }
    }

    /** What both ways out do with the buffer: decode the rest, and complain if bytes stay behind. */
    method DecodeRest(whenEmpty: Outcome) returns (outcome: Outcome)
      requires buf.Valid()
      modifies this`fromInverter, buf
      ensures buf.Valid()
      ensures fromInverter == old(fromInverter) + Drain(old(buf.data)).packets
      ensures outcome == match Drain(old(buf.data)).ending
        case Pending(rest) => if rest == [] then whenEmpty else LeftOver
        case Broken(error) => DecodeFailed(error)
    {
      PrependNothing(Drain(buf.data));
      ghost var handed: seq<Packet> := [];
      while true
        invariant buf.Valid()
        invariant fromInverter == old(fromInverter) + handed
        invariant Drain(old(buf.data)) == Prepend(handed, Drain(buf.data))
        decreases |buf.data|
      {
        ghost var before := buf.data;
        var r := decoder.DecodeEof(buf);
        if r.Failure? {
          assert handed + [] == handed;
          return if r.error.BytesRemaining? then LeftOver else DecodeFailed(r.error.error);
        }
        if r.value.None? {
          assert handed + [] == handed;
          return whenEmpty;
        }
        GotFrame(before);
        PrependTwice(handed, [r.value.value], Drain(buf.data));
        fromInverter := fromInverter + [r.value.value];
        handed := handed + [r.value.value];
      }
    }

    /** The inner loop: decode until the decoder waits or fails. Every packet shortens the buffer. */
    method DrainBuffer() returns (outcome: Outcome)
      requires buf.Valid()
      modifies this`fromInverter, buf
      ensures buf.Valid()
      ensures fromInverter == old(fromInverter) + Drain(old(buf.data)).packets
      ensures match Drain(old(buf.data)).ending
        case Pending(rest) => outcome == Continue && buf.data == rest
        case Broken(error) => outcome == DecodeFailed(error)
    {
      PrependNothing(Drain(buf.data));
      ghost var handed: seq<Packet> := [];
      while true
        invariant buf.Valid()
        invariant fromInverter == old(fromInverter) + handed
        invariant Drain(old(buf.data)) == Prepend(handed, Drain(buf.data))
        decreases |buf.data|
      {
        ghost var before := buf.data;
        var r := decoder.Decode(buf);
        if r.Failure? {
          assert handed + [] == handed;
          return DecodeFailed(r.error);
        }
        if r.value.None? {
          assert handed + [] == handed;
          return Continue;
        }
        GotFrame(before);
        PrependTwice(handed, [r.value.value], Drain(buf.data));
        fromInverter := fromInverter + [r.value.value];
        handed := handed + [r.value.value];
      }
    }
  }

  /** A read that closes the connection has nothing left to hand over: the buffer was drained. */
  lemma NothingAtEof(arrived: seq<byte>, rest: seq<byte>)
    requires Drain(arrived).ending == Pending(rest)
    ensures DecodeStep(rest).NeedMore? && |rest| < MAX_BUFFER_SIZE
  {
    var left := DrainConserves(arrived);
  }
}
