/** The envelope of outgoing frames, and why a run of them can be taken apart in only one way. */
module Envelope {
  import opened Bytes
  import opened Packets
  import Codec

  /** The body each kind of packet puts on the wire. */
  function Body(packet: Packet): seq<byte>
    ensures packet.Heartbeat? || 2 <= |Body(packet)|
  {
    match packet
    case Heartbeat(_) => [0]
    case Translated(td) => Codec.RequestBytes(td)
    case ReadParam(_, register, _) => [(register % 256) as byte, 0]
    case WriteParam(_, register, values) => LeBytes(register) + LeBytes(|values| % 0x1_0000) + values
  }

  function TypeByte(packet: Packet): byte
  {
    match packet
    case Translated(_) => 0x01
    case ReadParam(_, _, _) => 0x02
    case WriteParam(_, _, _) => 0x03
    case Heartbeat(_) => 0x04
  }

  /** What a frame says about its packet: the type byte and the body. */
  datatype Item = Item(kind: byte, body: seq<byte>)

  function ItemOf(packet: Packet): Item
  {
    Item(TypeByte(packet), Body(packet))
  }

  /** The datalog, the type, the length cut to 16 bits, the body. */
  function Frame(datalog: Serial, item: Item): seq<byte>
  {
    datalog + [item.kind] + BeBytes(|item.body| % 0x1_0000) + item.body
  }

  class TcpFrameFactory {
    const datalog: Serial

    constructor (datalog: Serial)
      ensures this.datalog == datalog
    {
      this.datalog := datalog;
    }

    method CreateFrame(packet: Packet) returns (frame: seq<byte>)
      requires packet.Translated? && packet.td.deviceFunction == WriteMulti ==> |packet.td.values| % 2 == 0
      ensures frame == Frame(datalog, ItemOf(packet))
    {
      var dataBytes := Body(packet);
      if packet.Translated? {
        dataBytes := Codec.EncodeRequest(packet.td);
      }
      frame := [];
      frame := frame + datalog;
      frame := frame + [match packet {
        case Translated(_) => 0x01
        case ReadParam(_, _, _) => 0x02
        case WriteParam(_, _, _) => 0x03
        case Heartbeat(_) => 0x04
      }];
      var len := |dataBytes| % 0x1_0000;
      frame := frame + BeBytes(len);
      frame := frame + dataBytes;
    }
  }

  function Items(packets: seq<Packet>): (items: seq<Item>)
    ensures |items| == |packets|
  {
    seq(|packets|, i requires 0 <= i < |packets| => ItemOf(packets[i]))
  }

  /** The frames of one connection, one after the other. */
  function Send(datalog: Serial, items: seq<Item>): seq<byte>
  {
    if items == [] then [] else Frame(datalog, items[0]) + Send(datalog, items[1..])
  }

  ghost predicate Fits(items: seq<Item>)
  {
    forall i :: 0 <= i < |items| ==> |items[i].body| < 0x1_0000
  }

  /** Take a stream apart by its length fields alone. */
  function Unframe(stream: seq<byte>): seq<Item>
    decreases |stream|
  {
    if |stream| < 13 then []
    else
      var end := 13 + Le16(stream[12], stream[11]);
      if |stream| < end then []
      else [Item(stream[10], stream[13..end])] + Unframe(stream[end..])
  }

  lemma Layout(datalog: Serial, kind: byte, high: byte, low: byte, body: seq<byte>, rest: seq<byte>)
    ensures var stream := datalog + [kind] + [high, low] + body + rest;
      && |stream| == 13 + |body| + |rest|
      && stream[10] == kind && stream[11] == high && stream[12] == low
      && stream[13..13 + |body|] == body && stream[13 + |body|..] == rest
  {}

  lemma UnframeParts(datalog: Serial, kind: byte, high: byte, low: byte, body: seq<byte>, rest: seq<byte>)
    requires Le16(low, high) == |body|
    ensures Unframe(datalog + [kind] + [high, low] + body + rest) == [Item(kind, body)] + Unframe(rest)
  {
    Layout(datalog, kind, high, low, body, rest);
  }

  lemma FrameIs(datalog: Serial, item: Item, n: u16, high: byte, low: byte)
    requires n == |item.body| % 0x1_0000 && BeBytes(n) == [high, low]
    ensures Frame(datalog, item) == datalog + [item.kind] + [high, low] + item.body
  {}

  lemma UnframeOne(datalog: Serial, item: Item, rest: seq<byte>)
    requires |item.body| < 0x1_0000
    ensures Unframe(Frame(datalog, item) + rest) == [item] + Unframe(rest)
  {
    var high, low := BeRoundTrip(|item.body|);
    calc {
      Unframe(Frame(datalog, item) + rest);
      { FrameIs(datalog, item, |item.body|, high, low); }
      Unframe(datalog + [item.kind] + [high, low] + item.body + rest);
      { UnframeParts(datalog, item.kind, high, low, item.body, rest); }
      [item] + Unframe(rest);
    }
  }

  /** Taking apart what was sent gives back every type and body. */
  lemma {:induction false} UnframeSent(datalog: Serial, items: seq<Item>)
    requires Fits(items)
    ensures Unframe(Send(datalog, items)) == items
    decreases |items|
  {
    if items != [] {
      UnframeSent(datalog, items[1..]);
      UnframeOne(datalog, items[0], Send(datalog, items[1..]));
    }
  }

  /** Two runs of frames for one datalog that look the same on the wire carry the same types and
      bodies. */
  lemma UniquelyDecodable(datalog: Serial, ps: seq<Packet>, qs: seq<Packet>)
    requires Fits(Items(ps)) && Fits(Items(qs))
    requires Send(datalog, Items(ps)) == Send(datalog, Items(qs))
    ensures Items(ps) == Items(qs)
  {
    UnframeSent(datalog, Items(ps));
    UnframeSent(datalog, Items(qs));
  }

  /** What a frame says: the datalog, a type from 1 to 4, the length of the body in big-endian order and
      cut to 16 bits, and the body. */
  lemma FrameReadsBack(datalog: Serial, packet: Packet)
    ensures var frame, body := Frame(datalog, ItemOf(packet)), Body(packet);
      && |frame| == 13 + |body| && frame[..10] == datalog && frame[13..] == body
      && frame[10] == (match packet
           case Translated(_) => 1
           case ReadParam(_, _, _) => 2
           case WriteParam(_, _, _) => 3
           case Heartbeat(_) => 4)
      && 256 * frame[11] as int + frame[12] as int == |body| % 0x1_0000
  {
    var body := Body(packet);
    var n := |body| % 0x1_0000;
    var high, low := BeRoundTrip(n);
    FrameIs(datalog, ItemOf(packet), n, high, low);
    Layout(datalog, TypeByte(packet), high, low, body, []);
    var frame := datalog + [TypeByte(packet)] + [high, low] + body;
    assert frame + [] == frame;
    assert frame[..10] == datalog;
  }

  /** What the bodies say. A parameter read has room for the low byte of its register only. */
  lemma BodyReadsBack(packet: Packet)
    ensures var body := Body(packet);
      match packet
      case Heartbeat(_) => body == [0]
      case Translated(td) => body == Codec.RequestBytes(td)
      case ReadParam(_, register, _) => |body| == 2 && body[0] as int == register % 256 && body[1] == 0
      case WriteParam(_, register, values) =>
        && |body| == 4 + |values| && Le16(body[0], body[1]) == register
        && Le16(body[2], body[3]) == |values| % 0x1_0000 && body[4..] == values
  {
    match packet
    case ReadParam(_, register, _) =>
      ByteRoundTrip(register % 256);
    case WriteParam(_, register, values) =>
      LeRoundTrip(register);
      LeRoundTrip(|values| % 0x1_0000);
    case _ =>
  }
}
