/** A sweep from the bytes of its answers to the row it leaves in the database. */
module SweepToRow {
  import opened Aggregation
  import opened AggregationRuns
  import opened Bytes
  import opened Coordinator
  import opened Inputs
  import opened Sweep
  import PacketDecoder
  import opened Wrappers
  import Packets
  import Replies
  import Stream

  /** A reply that brings a full block of input registers and can be read. */
  predicate FullAnswer(p: Packets.Packet, s: Settings)
  {
    && p.Translated? && p.td.deviceFunction == Packets.ReadInput && |p.td.values| == 2 * BLOCK_SIZE
    && Inputs.ReadInput(p.td, s.layouts).Some?
  }

  ghost predicate FullAnswers(answers: seq<Packets.Packet>, inverter: Inverter, s: Settings)
  {
    |answers| <= 6 && forall k :: 0 <= k < |answers| ==>
      FullAnswer(answers[k], s) && Replies.Answers(SweepRequests(inverter)[k], answers[k])
  }

  function Reading(p: Packets.Packet, s: Settings): Input
    requires FullAnswer(p, s)
  {
    Inputs.ReadInput(p.td, s.layouts).value
  }

  ghost function Readings(answers: seq<Packets.Packet>, inverter: Inverter, s: Settings): seq<Input>
    requires FullAnswers(answers, inverter, s)
  {
    seq(|answers|, k requires 0 <= k < |answers| => Reading(answers[k], s))
  }

  lemma ReadingsInOrder(answers: seq<Packets.Packet>, inverter: Inverter, s: Settings)
    requires FullAnswers(answers, inverter, s)
    ensures InOrder(Readings(answers, inverter, s))
    ensures AllAccepted(Readings(answers, inverter, s), inverter.datalog)
  {
    forall k | 0 <= k < |answers|
      ensures Reading(answers[k], s).Kind() == k + 1
      ensures Accepted(Reading(answers[k], s)) && Reading(answers[k], s).Datalog() == inverter.datalog
    {
      KindOfAnswer(inverter, k, answers[k].td, s.layouts);
      ReadInputAccepted(answers[k].td, s.layouts);
    }
  }

  lemma AnswerArrives(p: Packets.Packet, s: Settings)
    requires FullAnswer(p, s)
    ensures !AbortsParsing(p) && !TakesDown(p, s)
    ensures s.databases ==> ArrivalOf(p, s) == Some(Arrival(p.td.datalog, Reading(p, s)))
  {}

  /** The answers bring these readings for one datalog. */
  ghost predicate Bring(answers: seq<Packets.Packet>, d: Serial, readings: seq<Input>, s: Settings)
  {
    |readings| == |answers| && (answers == [] ||
      var n := |answers| - 1;
      && Bring(answers[..n], d, readings[..n], s)
      && FullAnswer(answers[n], s) && answers[n].td.datalog == d && readings[n] == Reading(answers[n], s))
  }

  lemma {:induction false} FullAnswersBring(answers: seq<Packets.Packet>, inverter: Inverter, s: Settings)
    requires FullAnswers(answers, inverter, s)
    ensures Bring(answers, inverter.datalog, Readings(answers, inverter, s), s)
  {
    if answers != [] {
      var n := |answers| - 1;
      FullAnswersBring(answers[..n], inverter, s);
      assert Readings(answers, inverter, s)[..n] == Readings(answers[..n], inverter, s);
    }
  }

  lemma {:induction false} AnswersArrive(answers: seq<Packets.Packet>, d: Serial, readings: seq<Input>, s: Settings)
    requires s.databases && Bring(answers, d, readings, s)
    ensures Harmless(answers, s) && Parsable(answers)
    ensures Arrivals(answers, s) == ArrivalsOf(d, readings)
  {
    if answers != [] {
      var n := |answers| - 1;
      AnswersArrive(answers[..n], d, readings[..n], s);
      AnswerArrives(answers[n], s);
      assert ArrivalsOf(d, readings) == ArrivalsOf(d, readings[..n]) + [Arrival(d, readings[n])];
    }
  }

  /** No block of the inverter waits for the others. */
  ghost predicate NothingPending(before: seq<Packets.Packet>, d: Serial, s: Settings)
  {
    Harmless(before, s) && Parsable(before) && Window(Arrivals(before, s), d) == []
  }

  /** The row of six full answers, if validation lets it pass. */
  ghost function RowOf(answers: seq<Packets.Packet>, inverter: Inverter, s: Settings): seq<Row>
    requires FullAnswers(answers, inverter, s) && |answers| == 6
  {
    ReadingsInOrder(answers, inverter, s);
    var row := RowOfSweep(Readings(answers, inverter, s));
    if Valid(row) then [row] else []
  }

  lemma SweepAddsRow(before: seq<Packets.Packet>, answers: seq<Packets.Packet>, inverter: Inverter, s: Settings)
    requires NothingPending(before, inverter.datalog, s) && s.databases
    requires FullAnswers(answers, inverter, s) && |answers| == 6
    ensures Harmless(before + answers, s)
    ensures RowsFrom(before + answers, s) == RowsFrom(before, s) + RowOf(answers, inverter, s)
  {
    ReadingsInOrder(answers, inverter, s);
    FullAnswersBring(answers, inverter, s);
    AnswersArrive(answers, inverter.datalog, Readings(answers, inverter, s), s);
    ArrivalsAppend(before, answers, s);
    HarmlessAppend(before, answers, s);
    SweepMakesRow(Arrivals(before, s), inverter.datalog, Readings(answers, inverter, s));
  }

  /** The reads of a stream: complete frames from before, the frames of a sweep, and a rest that is
      still incomplete. */
  ghost predicate Carries(
    chunks: seq<seq<byte>>, before: seq<seq<byte>>, sweep: seq<seq<byte>>, rest: seq<byte>)
  {
    && Stream.AllComplete(before) && Stream.AllComplete(sweep) && PacketDecoder.DecodeStep(rest).NeedMore?
    && Stream.Flatten(chunks) == Stream.Flatten(before) + (Stream.Flatten(sweep) + rest)
  }

  lemma SweepDelivered(chunks: seq<seq<byte>>, before: seq<seq<byte>>, sweep: seq<seq<byte>>, rest: seq<byte>)
    requires Carries(chunks, before, sweep, rest)
    ensures Delivered(chunks) == Stream.PacketsOf(before) + Stream.PacketsOf(sweep)
  {
    Stream.ChunkIndependence(chunks);
    Stream.CompleteFramesDelivered(before, Stream.Flatten(sweep) + rest);
    Stream.UniqueReading(sweep, rest);
  }

  /** Six full answers behind any complete frames, in a stream cut into reads anyhow, among whatever
      other inverters send: with nothing pending they add exactly the one row made of them, or none
      if validation refuses it. */
  lemma SweepReachesDatabase(
    packets: seq<Packets.Packet>, inverter: Inverter, chunks: seq<seq<byte>>,
    before: seq<seq<byte>>, sweep: seq<seq<byte>>, rest: seq<byte>, s: Settings)
    requires Carries(chunks, before, sweep, rest) && s.databases
    requires PacketsFrom(packets, inverter.datalog) == Delivered(chunks) && Survivable(packets, s)
    requires NothingPending(Stream.PacketsOf(before), inverter.datalog, s)
    requires |Stream.PacketsOf(sweep)| == 6 && FullAnswers(Stream.PacketsOf(sweep), inverter, s)
    ensures RowsOf(RowsFrom(packets, s), inverter.datalog)
      == RowsFrom(Stream.PacketsOf(before), s) + RowOf(Stream.PacketsOf(sweep), inverter, s)
  {
    InvertersApart(packets, inverter.datalog, s);
    SweepDelivered(chunks, before, sweep, rest);
    SweepAddsRow(Stream.PacketsOf(before), Stream.PacketsOf(sweep), inverter, s);
  }
}
