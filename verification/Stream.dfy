/** Draining the buffer, and what arriving in pieces does not change. */
module Stream {
  import opened Bytes
  import opened Packets
  import opened PacketDecoder

  /** Where draining stops: waiting with some bytes left, or broken for good. */
  datatype Ending = Pending(rest: seq<byte>) | Broken(error: DecodeError)

  datatype Session = Session(packets: seq<Packet>, ending: Ending)

  /** Decode until the decoder waits or fails. */
  function Drain(buf: seq<byte>): Session
    decreases |buf|
  {
    match DecodeStep(buf)
    case NeedMore => Session([], Pending(buf))
    case Failed(error, _) => Session([], Broken(error))
    case Got(packet, rest) =>
      GotFrame(buf);
      Prepend([packet], Drain(rest))
  }

  function Prepend(packets: seq<Packet>, s: Session): Session
  {
    Session(packets + s.packets, s.ending)
  }

  /** One read: append, then drain. A broken session stays as it is. */
  function Receive(s: Session, chunk: seq<byte>): Session
  {
    if s.ending.Broken? then s else Prepend(s.packets, Drain(s.ending.rest + chunk))
  }

  function ReceiveAll(s: Session, chunks: seq<seq<byte>>): Session
    decreases |chunks|
  {
    if chunks == [] then s else ReceiveAll(Receive(s, chunks[0]), chunks[1..])
  }

  function Flatten(chunks: seq<seq<byte>>): seq<byte>
  {
    if chunks == [] then [] else chunks[0] + Flatten(chunks[1..])
  }

  // Chunk independence.

  lemma PrependTwice(a: seq<Packet>, b: seq<Packet>, s: Session)
    ensures Prepend(a, Prepend(b, s)) == Prepend(a + b, s)
  {
    assert a + (b + s.packets) == (a + b) + s.packets;
  }

  lemma PrependNothing(s: Session)
    ensures Prepend([], s) == s
  {
    assert [] + s.packets == s.packets;
  }

  lemma {:induction false} DrainAppend(buf: seq<byte>, more: seq<byte>)
    ensures Receive(Drain(buf), more) == Drain(buf + more)
    decreases |buf|
  {
    StepStable(buf, more);
    match DecodeStep(buf)
    case NeedMore =>
      PrependNothing(Drain(buf + more));
    case Failed(error, rest) =>
    case Got(packet, rest) =>
      GotFrame(buf);
      DrainAppend(rest, more);
      var tail := Drain(rest);
      if tail.ending.Pending? {
        PrependTwice([packet], tail.packets, Drain(tail.ending.rest + more));
      }
  }

  lemma {:induction false} ReceiveAllFrom(start: seq<byte>, chunks: seq<seq<byte>>)
    ensures ReceiveAll(Drain(start), chunks) == Drain(start + Flatten(chunks))
    decreases |chunks|
  {
    if chunks == [] {
      assert start + [] == start;
    } else {
      var next := start + chunks[0];
      calc {
        ReceiveAll(Drain(start), chunks);
        ReceiveAll(Receive(Drain(start), chunks[0]), chunks[1..]);
        { DrainAppend(start, chunks[0]); }
        ReceiveAll(Drain(next), chunks[1..]);
        { ReceiveAllFrom(next, chunks[1..]); }
        Drain(next + Flatten(chunks[1..]));
        { assert next + Flatten(chunks[1..]) == start + Flatten(chunks); }
        Drain(start + Flatten(chunks));
      }
    }
  }

  /** However a stream is cut into reads, the packets, the verdict and the leftover are those of
      one read of the whole stream. */
  lemma ChunkIndependence(chunks: seq<seq<byte>>)
    ensures ReceiveAll(Session([], Pending([])), chunks) == Drain(Flatten(chunks))
  {
    assert Drain([]) == Session([], Pending([]));
    ReceiveAllFrom([], chunks);
    assert [] + Flatten(chunks) == Flatten(chunks);
  }

  // What draining finds: the one way to read the stream as complete frames.

  ghost predicate AllComplete(frames: seq<seq<byte>>)
  {
    frames == [] || (Complete(frames[0]) && AllComplete(frames[1..]))
  }

  ghost function PacketsOf(frames: seq<seq<byte>>): seq<Packet>
    requires AllComplete(frames)
  {
    if frames == [] then [] else [PacketOf(frames[0])] + PacketsOf(frames[1..])
  }

  lemma DrainComplete(first: seq<byte>, more: seq<byte>)
    requires Complete(first)
    ensures Drain(first + more) == Prepend([PacketOf(first)], Drain(more))
  {
    StepStable(first, more);
    assert [] + more == more;
  }

  /** Complete frames in front of a stream are delivered, in order, whatever follows. */
  lemma {:induction false} CompleteFramesDelivered(frames: seq<seq<byte>>, rest: seq<byte>)
    requires AllComplete(frames)
    ensures Drain(Flatten(frames) + rest) == Prepend(PacketsOf(frames), Drain(rest))
    decreases |frames|
  {
    if frames == [] {
      assert [] + rest == rest;
      PrependNothing(Drain(rest));
    } else {
      var first, tail := frames[0], frames[1..];
      var more := Flatten(tail) + rest;
      assert Flatten(frames) + rest == first + more;
      DrainComplete(first, more);
      CompleteFramesDelivered(tail, rest);
      PrependTwice([PacketOf(first)], PacketsOf(tail), Drain(rest));
    }
  }

  /** The frames draining consumes. */
  function Consumed(buf: seq<byte>): seq<seq<byte>>
    decreases |buf|
  {
    match DecodeStep(buf)
    case Got(packet, rest) =>
      GotFrame(buf);
      [buf[..FrameLength(buf)]] + Consumed(rest)
    case _ => []
  }

  /** What a session's ending says about the bytes that are left. */
  ghost predicate EndsAs(ending: Ending, left: seq<byte>)
  {
    match ending
    case Pending(rest) => left == rest && DecodeStep(rest).NeedMore? && |rest| < 1030
    case Broken(error) => DecodeStep(left).Failed? && DecodeStep(left).error == error
  }

  lemma FirstConsumed(buf: seq<byte>)
    requires DecodeStep(buf).Got?
    ensures var frame, rest := buf[..FrameLength(buf)], DecodeStep(buf).rest;
      && buf == frame + rest && |rest| < |buf| && Complete(frame)
      && Consumed(buf) == [frame] + Consumed(rest)
      && Drain(buf) == Prepend([PacketOf(frame)], Drain(rest))
  {
    GotFrame(buf);
  }

  lemma ConsumedOne(frame: seq<byte>, others: seq<seq<byte>>, left: seq<byte>)
    requires Complete(frame) && AllComplete(others)
    ensures Flatten([frame] + others) + left == frame + (Flatten(others) + left)
    ensures AllComplete([frame] + others) && PacketsOf([frame] + others) == [PacketOf(frame)] + PacketsOf(others)
  {
    var frames := [frame] + others;
    assert frames[0] == frame && frames[1..] == others;
  }

  /** Conservation: what was consumed, then what is left, is what came in. */
  lemma {:induction false} DrainConserves(buf: seq<byte>) returns (left: seq<byte>)
    ensures buf == Flatten(Consumed(buf)) + left
    ensures AllComplete(Consumed(buf)) && Drain(buf).packets == PacketsOf(Consumed(buf))
    ensures EndsAs(Drain(buf).ending, left)
    decreases |buf|
  {
    if DecodeStep(buf).Got? {
      FirstConsumed(buf);
      var frame, rest := buf[..FrameLength(buf)], DecodeStep(buf).rest;
      left := DrainConserves(rest);
      ConsumedOne(frame, Consumed(rest), left);
    } else {
      left := buf;
      if DecodeStep(buf).NeedMore? {
        WaitingIsShort(buf);
      }
      assert [] + left == left;
    }
  }

  /** A session that ends well is the only reading of its stream: any split into complete frames
      and a rest the decoder would wait on is the split that draining finds. */
  lemma UniqueReading(frames: seq<seq<byte>>, rest: seq<byte>)
    requires AllComplete(frames) && DecodeStep(rest).NeedMore?
    ensures Drain(Flatten(frames) + rest) == Session(PacketsOf(frames), Pending(rest))
  {
    CompleteFramesDelivered(frames, rest);
    assert PacketsOf(frames) + [] == PacketsOf(frames);
  }
}
