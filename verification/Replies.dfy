/** Waiting on the broadcast channel for the reply to a request. */
module Replies {
  import opened Bytes
  import opened Packets
  import opened Wrappers

  datatype ChannelData =
    | Connected(datalog: Serial)
    | Disconnect(datalog: Serial)
    | Packet(packet: Packets.Packet)
    | Shutdown
    | HeartbeatSeen(packet: Packets.Packet)
    | ModbusError(code: byte)
    | SerialMismatch(expected: Serial, actual: Serial)

  datatype TryRecv = Ok(data: ChannelData) | Empty | Closed | Lagged

  /** One turn of the waiting loop: the time on the clock, then what the channel gives. */
  datatype Poll = Poll(elapsed: nat, received: TryRecv)

  /** In milliseconds. */
  const TIMEOUT := 30000

  /** Waiting is the outcome of a run of polls that ends before the loop does. */
  datatype WaitResult =
    | Waiting
    | Reply(packet: Packets.Packet)
    | TimedOut
    | ShutDown
    | Disconnected(datalog: Serial)
    | ChannelFailed

  /** A reply answers a request of its own kind, for the same datalog and register; TranslatedData
      also for the same device function, and a heartbeat for the datalog alone. */
  predicate Answers(request: Packets.Packet, reply: Packets.Packet)
  {
    match request
    case Translated(td) =>
      && reply.Translated?
      && td.datalog == reply.td.datalog
      && td.register == reply.td.register
      && td.deviceFunction == reply.td.deviceFunction
    case ReadParam(datalog, register, _) =>
      reply.ReadParam? && datalog == reply.datalog && register == reply.register
    case WriteParam(datalog, register, _) =>
      reply.WriteParam? && datalog == reply.datalog && register == reply.register
    case Heartbeat(datalog) =>
      reply.Heartbeat? && datalog == reply.datalog
  }

  /** What the channel has to say to this request, if anything. */
  function Verdict(request: Packets.Packet, received: TryRecv): WaitResult
  {
    match received
    case Ok(Packet(reply)) => if Answers(request, reply) then Reply(reply) else Waiting
    case Ok(Disconnect(datalog)) => if datalog == request.Datalog() then Disconnected(datalog) else Waiting
    case Ok(Shutdown) => ShutDown
    case Ok(_) => Waiting
    case Empty => Waiting
    case Closed => ChannelFailed
    case Lagged => ChannelFailed
  }

  predicate InTime(poll: Poll)
  {
    poll.elapsed < TIMEOUT
  }

  function Wait(request: Packets.Packet, polls: seq<Poll>): WaitResult
    decreases |polls|
  {
    if polls == [] then Waiting
    else if !InTime(polls[0]) then TimedOut
    else
      var v := Verdict(request, polls[0].received);
      if v == Waiting then Wait(request, polls[1..]) else v
  }

  method WaitForReply(request: Packets.Packet, polls: seq<Poll>) returns (r: WaitResult)
    ensures r == Wait(request, polls)
  {
    var i := 0;
    while i < |polls|
      invariant i <= |polls|
      invariant Wait(request, polls) == Wait(request, polls[i..])
    {
      var poll := polls[i];
      if poll.elapsed >= TIMEOUT {
        return TimedOut;
      }
      match poll.received {
        case Ok(Packet(reply)) =>
          match request {
            case Translated(td) =>
              if reply.Translated? {
                if && td.datalog == reply.td.datalog
                   && td.register == reply.td.register
                   && td.deviceFunction == reply.td.deviceFunction {
                  return Reply(reply);
                }
              }
            case ReadParam(datalog, register, _) =>
              if reply.ReadParam? {
                if datalog == reply.datalog && register == reply.register {
                  return Reply(reply);
                }
              }
            case WriteParam(datalog, register, _) =>
              if reply.WriteParam? {
                if datalog == reply.datalog && register == reply.register {
                  return Reply(reply);
                }
              }
            case Heartbeat(datalog) =>
              if reply.Heartbeat? {
                if datalog == reply.datalog {
                  return Reply(reply);
                }
              }
          }
        case Ok(HeartbeatSeen(_)) =>
        case Ok(Connected(_)) =>
        case Ok(Disconnect(datalog)) =>
          if datalog == request.Datalog() {
            return Disconnected(datalog);
          }
        case Ok(Shutdown) => return ShutDown;
        case Ok(ModbusError(_)) =>
        case Ok(SerialMismatch(_, _)) =>
        case Empty =>
        case Closed => return ChannelFailed;
        case Lagged => return ChannelFailed;
      }
      assert polls[i..][1..] == polls[i + 1..];
      i := i + 1;
    }
    return Waiting;
  }

  /** Nothing ends the wait at this poll. */
  /** Nothing, or an event that has nothing to do with the request: a packet that does not answer it, the
      disconnect of another inverter, or news that are never an answer. */
  predicate Unrelated(request: Packets.Packet, received: TryRecv)
  {
    received.Empty? || (received.Ok? &&
      match received.data
      case Packet(reply) => !Answers(request, reply)
      case Disconnect(datalog) => datalog != request.Datalog()
      case Shutdown => false
      case Connected(_) => true
      case HeartbeatSeen(_) => true
      case ModbusError(_) => true
      case SerialMismatch(_, _) => true)
  }

  /** Those, and no others, are waited through; a disconnect, a shutdown and a broken channel end the wait
      as what they are. */
  lemma VerdictIff(request: Packets.Packet, received: TryRecv)
    ensures Verdict(request, received) == Waiting <==> Unrelated(request, received)
    ensures Verdict(request, received) == ShutDown <==> received == Ok(Shutdown)
    ensures Verdict(request, received) == ChannelFailed <==> received.Closed? || received.Lagged?
    ensures forall d :: Verdict(request, received) == Disconnected(d) <==>
      received == Ok(Disconnect(d)) && d == request.Datalog()
  {}

  ghost predicate PassedOver(request: Packets.Packet, poll: Poll)
  {
    poll.elapsed < 30_000 && Unrelated(request, poll.received)
  }

  ghost predicate AnsweredAt(request: Packets.Packet, polls: seq<Poll>, i: nat, reply: Packets.Packet)
  {
    && i < |polls|
    && InTime(polls[i])
    && polls[i].received == Ok(Packet(reply))
    && Answers(request, reply)
    && forall j :: 0 <= j < i ==> PassedOver(request, polls[j])
  }

  /** The wait ends with a reply exactly when that is the first answer on the channel and neither
      shutdown, nor a channel error, nor a disconnect of the same datalog, nor the deadline came first. */
  lemma {:induction false} FirstMatch(request: Packets.Packet, polls: seq<Poll>, reply: Packets.Packet)
    ensures Wait(request, polls) == Reply(reply) <==> exists i: nat :: AnsweredAt(request, polls, i, reply)
    decreases |polls|
  {
    if polls != [] {
      var rest := polls[1..];
      FirstMatch(request, rest, reply);
      if PassedOver(request, polls[0]) {
        if i: nat :| AnsweredAt(request, rest, i, reply) {
          assert AnsweredAt(request, polls, i + 1, reply) by {
            forall j | 0 <= j < i + 1 ensures PassedOver(request, polls[j]) {
              assert j > 0 ==> polls[j] == rest[j - 1];
            }
          }
        }
        if i: nat :| AnsweredAt(request, polls, i, reply) {
          assert i > 0;
          assert AnsweredAt(request, rest, i - 1, reply) by {
            forall j | 0 <= j < i - 1 ensures PassedOver(request, rest[j]) {
              assert rest[j] == polls[j + 1];
            }
          }
        }
      } else {
        if Wait(request, polls) == Reply(reply) {
          assert AnsweredAt(request, polls, 0, reply);
        }
      }
    }
  }

  // Unrelated traffic.

  /** The polls that mean something to this request. */
  function Relevant(request: Packets.Packet, polls: seq<Poll>): seq<TryRecv>
    decreases |polls|
  {
    if polls == [] then []
    else
      (if Unrelated(request, polls[0].received) then [] else [polls[0].received])
        + Relevant(request, polls[1..])
  }

  lemma {:induction false} WaitIsFirstRelevant(request: Packets.Packet, polls: seq<Poll>)
    requires forall i :: 0 <= i < |polls| ==> InTime(polls[i])
    ensures var relevant := Relevant(request, polls);
      Wait(request, polls) == if relevant == [] then Waiting else Verdict(request, relevant[0])
    decreases |polls|
  {
    if polls != [] {
      assert forall i :: 0 <= i < |polls[1..]| ==> polls[1..][i] == polls[i + 1];
      WaitIsFirstRelevant(request, polls[1..]);
    }
  }

  /** As long as the deadline is not reached, unrelated events can come and go at any point without
      changing the outcome. */
  lemma UnrelatedTrafficIgnored(request: Packets.Packet, xs: seq<Poll>, ys: seq<Poll>)
    requires forall i :: 0 <= i < |xs| ==> InTime(xs[i])
    requires forall i :: 0 <= i < |ys| ==> InTime(ys[i])
    requires Relevant(request, xs) == Relevant(request, ys)
    ensures Wait(request, xs) == Wait(request, ys)
  {
    WaitIsFirstRelevant(request, xs);
    WaitIsFirstRelevant(request, ys);
  }

  // What an answer is, and when it is too late.

  /** What a packet is about. Only TranslatedData names a function, and a heartbeat no register. */
  datatype Subject = Subject(kind: nat, datalog: Serial, register: Option<u16>, action: Option<DeviceFunction>)

  function SubjectOf(p: Packets.Packet): Subject
  {
    match p
    case Heartbeat(datalog) => Subject(193, datalog, None, None)
    case Translated(td) => Subject(194, td.datalog, Some(td.register), Some(td.deviceFunction))
    case ReadParam(datalog, register, _) => Subject(195, datalog, Some(register), None)
    case WriteParam(datalog, register, _) => Subject(196, datalog, Some(register), None)
  }

  /** A packet answers a request exactly when both are about the same. */
  lemma AnswersIff(request: Packets.Packet, reply: Packets.Packet)
    ensures Answers(request, reply) <==> SubjectOf(request) == SubjectOf(reply)
  {}

  /** The deadline is thirty seconds: an answer is taken before, and none from then on. */
  lemma ThirtySeconds(request: Packets.Packet, reply: Packets.Packet, elapsed: nat)
    requires Answers(request, reply)
    ensures Wait(request, [Poll(elapsed, Ok(Packet(reply)))])
      == if elapsed < 30_000 then Reply(reply) else TimedOut
  {}
}
