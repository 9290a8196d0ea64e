/** What the coordinator does with each packet: readings to the block store, registers to the cache. */
module Coordinator {
  import opened Aggregation
  import opened AggregationRuns
  import opened Bytes
  import opened Inputs
  import opened RegisterCache
  import opened Wrappers
  import Damage
  import Packets
  import Stream

  type Packet = Packets.Packet

  /** What steers the handler: the layouts of the blocks, whether any database is configured, whether
      values are published, input registers one by one too, and which datalogs belong to an enabled
      inverter that may not be written to. */
  datatype Settings = Settings(
    layouts: Layouts, databases: bool, mqtt: bool, publishIndividual: bool, readOnly: Serial -> bool)

  /** Reading the sixth block from an odd number of bytes takes the coordinator down at once. */
  predicate AbortsParsing(p: Packet)
  {
    p.Translated? && p.td.deviceFunction == Packets.ReadInput && Aborts(p.td)
  }

  /** Publishing an odd number of bytes as register values takes it down after the packet has reached
      the store and the cache. */
  predicate AbortsPublishing(p: Packet, s: Settings)
  {
    && s.mqtt && p.Translated? && |p.td.values| % 2 == 1
    && (p.td.deviceFunction in {Packets.ReadHold, Packets.ReadHoldError} || s.publishIndividual)
  }

  predicate TakesDown(p: Packet, s: Settings)
  {
    AbortsParsing(p) || AbortsPublishing(p, s)
  }

  /** Only an odd number of bytes does harm: in the sixth block of inputs always, and otherwise where
      values are published. */
  lemma WhatTakesDown(p: Packet, s: Settings)
    ensures !p.Translated? ==> !TakesDown(p, s)
    ensures p.Translated? ==>
      var td := p.td;
      var odd := |td.values| % 2 == 1;
      var six := td.deviceFunction == Packets.ReadInput && td.register == 200 && 3 <= |td.values| <= 79;
      var hold := td.deviceFunction == Packets.ReadHold || td.deviceFunction == Packets.ReadHoldError;
      TakesDown(p, s) <==> odd && (if !s.mqtt then six else s.publishIndividual || hold || six)
  {}

  /** No packet aborts when it is parsed. */
  predicate Parsable(packets: seq<Packet>)
  {
    packets == [] || (Parsable(packets[..|packets| - 1]) && !AbortsParsing(packets[|packets| - 1]))
  }

  /** No packet takes the coordinator down. */
  predicate Harmless(packets: seq<Packet>, s: Settings)
  {
    packets == [] || (Harmless(packets[..|packets| - 1], s) && !TakesDown(packets[|packets| - 1], s))
  }

  lemma {:induction false} HarmlessIsParsable(packets: seq<Packet>, s: Settings)
    requires Harmless(packets, s)
    ensures Parsable(packets)
  {
    if packets != [] {
      HarmlessIsParsable(packets[..|packets| - 1], s);
    }
  }

  // What the packets contribute.

  function ParsedInput(p: Packet, s: Settings): Option<Input>
    requires !AbortsParsing(p)
  {
    if p.Translated? && p.td.deviceFunction == Packets.ReadInput
    then Inputs.ReadInput(p.td, s.layouts) else None
  }

  function ArrivalOf(p: Packet, s: Settings): Option<Arrival>
    requires !AbortsParsing(p)
  {
    var input := ParsedInput(p, s);
    if s.databases && input.Some? then Some(Arrival(p.td.datalog, input.value)) else None
  }

  function LoadOf(p: Packet, s: Settings): Option<Load>
  {
    match p
    case Heartbeat(_) => None
    case Translated(td) => Some(Load(td.register, td.values))
    case ReadParam(_, register, values) => Some(Load(register, values))
    case WriteParam(datalog, register, values) =>
      if s.readOnly(datalog) then None else Some(Load(register, values))
  }

  function Appended<T>(xs: seq<T>, x: Option<T>): seq<T>
  {
    if x.Some? then xs + [x.value] else xs
  }

  function Arrivals(packets: seq<Packet>, s: Settings): seq<Arrival>
    requires Parsable(packets)
  {
    if packets == [] then []
    else
      var n := |packets| - 1;
      Appended(Arrivals(packets[..n], s), ArrivalOf(packets[n], s))
  }

  function Loads(packets: seq<Packet>, s: Settings): seq<Load>
  {
    if packets == [] then []
    else
      var n := |packets| - 1;
      Appended(Loads(packets[..n], s), LoadOf(packets[n], s))
  }

  /** All but the last packet are harmless, and the last one at least reaches the store. */
  predicate Survivable(packets: seq<Packet>, s: Settings)
  {
    packets == [] || (Harmless(packets[..|packets| - 1], s) && !AbortsParsing(packets[|packets| - 1]))
  }

  lemma SurvivableIsParsable(packets: seq<Packet>, s: Settings)
    requires Survivable(packets, s)
    ensures Parsable(packets)
  {
    if packets != [] {
      HarmlessIsParsable(packets[..|packets| - 1], s);
    }
  }

  /** The packets that are handled: all of them, unless one takes the coordinator down, at once or
      after it has been handled itself. */
  function Handled(packets: seq<Packet>, s: Settings): (h: seq<Packet>)
    ensures h <= packets && Parsable(h) && Survivable(h, s)
    ensures h == packets <==> Survivable(packets, s)
    ensures |h| < |packets| ==> AbortsParsing(packets[|h|]) || (h != [] && AbortsPublishing(h[|h| - 1], s))
  {
    if Survivable(packets, s) then
      SurvivableIsParsable(packets, s);
      packets
    else Handled(packets[..|packets| - 1], s)
  }

  function Received(db: Db, a: Option<Arrival>): Db
  {
    if a.Some? then Deliver(db, a.value) else db
  }

  function MessagesFor(load: Option<Load>): seq<Message>
  {
    if load.Some? then Messages(load.value.register, load.value.values) else []
  }

  lemma ArrivalsSnoc(before: seq<Packet>, p: Packet, s: Settings)
    requires Parsable(before) && !AbortsParsing(p)
    ensures Parsable(before + [p])
    ensures Arrivals(before + [p], s) == Appended(Arrivals(before, s), ArrivalOf(p, s))
  {
    var packets := before + [p];
    assert packets[..|packets| - 1] == before;
  }

  lemma DeliverAppended(h: seq<Arrival>, a: Option<Arrival>)
    ensures DeliverAll(Appended(h, a)) == Received(DeliverAll(h), a)
  {
    if a.Some? {
      var all := h + [a.value];
      assert all[..|all| - 1] == h;
    }
  }

  lemma ArrivalsStep(before: seq<Packet>, p: Packet, s: Settings)
    requires Parsable(before) && !AbortsParsing(p)
    ensures Parsable(before + [p])
    ensures Arrivals(before + [p], s) == Appended(Arrivals(before, s), ArrivalOf(p, s))
    ensures DeliverAll(Arrivals(before + [p], s)) == Received(DeliverAll(Arrivals(before, s)), ArrivalOf(p, s))
  {
    ArrivalsSnoc(before, p, s);
    DeliverAppended(Arrivals(before, s), ArrivalOf(p, s));
  }

  lemma AppendedBehind<T>(x: seq<T>, y: seq<T>, o: Option<T>)
    ensures Appended(x + y, o) == x + Appended(y, o)
  {
    if o.Some? {
      assert (x + y) + [o.value] == x + (y + [o.value]);
    }
  }

  lemma {:induction false} ArrivalsAppend(a: seq<Packet>, b: seq<Packet>, s: Settings)
    requires Parsable(a) && Parsable(b)
    ensures Parsable(a + b) && Arrivals(a + b, s) == Arrivals(a, s) + Arrivals(b, s)
  {
    if b == [] {
      assert a + b == a;
    } else {
      var n := |b| - 1;
      ArrivalsAppend(a, b[..n], s);
      ArrivalsSnoc(a + b[..n], b[n], s);
      assert a + b == (a + b[..n]) + [b[n]];
      AppendedBehind(Arrivals(a, s), Arrivals(b[..n], s), ArrivalOf(b[n], s));
    }
  }

  lemma MessagesStep(before: seq<Packet>, p: Packet, s: Settings)
    ensures AllMessages(Loads(before + [p], s)) == AllMessages(Loads(before, s)) + MessagesFor(LoadOf(p, s))
  {
    var packets, loads := before + [p], Loads(before + [p], s);
    assert packets[..|packets| - 1] == before;
    if LoadOf(p, s).Some? {
      assert loads[..|loads| - 1] == Loads(before, s);
    }
  }

  /** What feeds the store: with a database, an input reply that can be read, under its datalog. */
  lemma ArrivalIff(p: Packet, s: Settings, a: Arrival)
    requires !AbortsParsing(p)
    ensures ArrivalOf(p, s) == Some(a) <==>
      && s.databases && p.Translated? && p.td.deviceFunction == Packets.ReadInput
      && a.datalog == p.Datalog() && ReadsAs(p.td, s.layouts, a.input)
  {
    if p.Translated? && p.td.deviceFunction == Packets.ReadInput {
      ReadInputIff(p.td, s.layouts, a.input);
    }
  }

  /** What feeds the cache: the pairs of every packet that has registers, except of writes to a
      read-only inverter. */
  lemma CachedArePairs(p: Packet, s: Settings)
    ensures p.Heartbeat? ==> MessagesFor(LoadOf(p, s)) == []
    ensures p.Translated? && |p.td.values| % 2 == 0 ==>
      MessagesFor(LoadOf(p, s)) == RegisterCache.MessagesOf(Packets.Pairs(p.td.register, p.td.values))
    ensures (p.ReadParam? || p.WriteParam?) && |p.values| % 2 == 0 ==>
      MessagesFor(LoadOf(p, s))
        == if p.WriteParam? && s.readOnly(p.datalog) then []
           else RegisterCache.MessagesOf(Packets.Pairs(p.register, p.values))
  {
    if p.Translated? && |p.td.values| % 2 == 0 {
      MessagesOfPairs(p.td.register, p.td.values);
    }
    if (p.ReadParam? || p.WriteParam?) && |p.values| % 2 == 0 {
      MessagesOfPairs(p.register, p.values);
    }
  }

  // The handler.

  class Coordinator {
    const settings: Settings
    const inputsStore: InputsStore
    var toRegisterCache: seq<Message>
    /** The packets handled so far. */
    ghost var handled: seq<Packet>

    /** The store has seen the readings of the handled packets, and the cache channel their
        registers, in order and nothing else. */
    ghost predicate Valid()
      reads this, inputsStore, inputsStore.entries.Values
    {
      && inputsStore.Valid()
      && Parsable(handled)
      && inputsStore.State() == DeliverAll(Arrivals(handled, settings))
      && toRegisterCache == AllMessages(Loads(handled, settings))
    }

    constructor (settings: Settings)
      ensures Valid() && fresh(inputsStore) && fresh(inputsStore.entries.Values)
      ensures this.settings == settings && handled == []
    {
      this.settings := settings;
      inputsStore := new InputsStore();
      toRegisterCache := [];
      handled := [];
    }

    /** Only readings that could be parsed reach the store, and only when there is a database. */
    method SendToDatabase(td: Packets.TranslatedData, parsed: Option<Input>)
      requires inputsStore.Valid()
      modifies inputsStore, inputsStore.entries.Values
      ensures inputsStore.Valid()
      ensures fresh(inputsStore.entries.Values - old(inputsStore.entries.Values))
      ensures inputsStore.State()
        == if settings.databases && td.deviceFunction == Packets.ReadInput && parsed.Some?
           then Deliver(old(inputsStore.State()), Arrival(td.datalog, parsed.value))
           else old(inputsStore.State())
    {
      if !settings.databases || td.deviceFunction != Packets.ReadInput || parsed.None? {
        return;
      }
      inputsStore.SendToDatabase(Arrival(td.datalog, parsed.value));
    }

    method Cache(register: u16, values: seq<byte>)
      modifies this`toRegisterCache
      ensures toRegisterCache == old(toRegisterCache) + Messages(register, values)
    {
      var sent := CacheRegister(register, values);
      toRegisterCache := toRegisterCache + sent;
    }

    /** Published are the pairs, of hold replies always and of others if configured; none means that
        computing them aborted. */
    method Publish(td: Packets.TranslatedData) returns (ok: bool)
      ensures ok == !AbortsPublishing(Packets.Translated(td), settings)
    {
      if !settings.mqtt {
        return true;
      }
      match td.deviceFunction {
        case ReadHold | ReadHoldError =>
          var pairs := Packets.ComputePairs(td.register, td.values);
          return pairs.Some?;
        case _ =>
          if !settings.publishIndividual {
            return true;
          }
          var pairs := Packets.ComputePairs(td.register, td.values);
          return pairs.Some?;
      }
    }

    method Dispatch(p: Packet) returns (survived: bool)
      requires inputsStore.Valid()
      modifies this`toRegisterCache, inputsStore, inputsStore.entries.Values
      ensures inputsStore.Valid()
      ensures fresh(inputsStore.entries.Values - old(inputsStore.entries.Values))
      ensures survived == !TakesDown(p, settings)
      ensures inputsStore.State()
        == if AbortsParsing(p) then old(inputsStore.State()) else Received(old(inputsStore.State()), ArrivalOf(p, settings))
      ensures toRegisterCache
        == if AbortsParsing(p) then old(toRegisterCache) else old(toRegisterCache) + MessagesFor(LoadOf(p, settings))
    {
      match p {
        case Translated(td) =>
          var input: Option<Input> := None;
          if td.deviceFunction == Packets.ReadInput {
            var parsed := ParseInput(td, settings.layouts);
            if parsed.Aborted? {
              return false;
            }
            input := if parsed.Read? then Some(parsed.input) else None;
          }
          SendToDatabase(td, input);
          Cache(td.register, td.values);
          survived := Publish(td);
        case ReadParam(_, register, values) =>
          Cache(register, values);
          survived := true;
        case WriteParam(datalog, register, values) =>
          if !settings.readOnly(datalog) {
            Cache(register, values);
          }
          survived := true;
        case Heartbeat(_) =>
          survived := true;
      }
    }

    /** False means that the packet took the coordinator down. */
    method ProcessPacket(p: Packet) returns (survived: bool)
      requires Valid()
      modifies this, inputsStore, inputsStore.entries.Values
      ensures Valid() && fresh(inputsStore.entries.Values - old(inputsStore.entries.Values))
      ensures survived == !TakesDown(p, settings)
      ensures handled == if AbortsParsing(p) then old(handled) else old(handled) + [p]
    {
      if !AbortsParsing(p) {
        ArrivalsStep(handled, p, settings);
        MessagesStep(handled, p, settings);
      }
      survived := Dispatch(p);
      handled := if AbortsParsing(p) then handled else handled + [p];
    }

    /** The loop over the channel. */
    method Start(packets: seq<Packet>)
      requires Valid() && handled == []
      modifies this, inputsStore, inputsStore.entries.Values
      ensures Valid() && handled == Handled(packets, settings)
    {
      for i := 0 to |packets|
        invariant Valid()
        invariant OnTrack(packets, i, handled, settings)
        invariant fresh(inputsStore.entries.Values - old(inputsStore.entries.Values))
      {
        OneMore(packets, i, handled, settings);
        var survived := ProcessPacket(packets[i]);
        if !survived {
          return;
        }
      }
    }
  }

  /** After i packets all of them have been handled, and if those were all, that is it. */
  ghost predicate OnTrack(packets: seq<Packet>, i: nat, done: seq<Packet>, s: Settings)
  {
    i <= |packets| && done == packets[..i] && Harmless(done, s)
    && (i == |packets| ==> done == Handled(packets, s))
  }

  lemma OneMore(packets: seq<Packet>, i: nat, done: seq<Packet>, s: Settings)
    requires i < |packets| && OnTrack(packets, i, done, s)
    ensures !TakesDown(packets[i], s) ==> OnTrack(packets, i + 1, done + [packets[i]], s)
    ensures TakesDown(packets[i], s) ==>
      Handled(packets, s) == if AbortsParsing(packets[i]) then done else done + [packets[i]]
  {
    var next := done + [packets[i]];
    assert next[..|next| - 1] == done;
    assert next == packets[..i + 1];
    if TakesDown(packets[i], s) {
      HandledStops(packets, i, s);
    }
  }

  lemma {:induction false} HandledStops(packets: seq<Packet>, i: nat, s: Settings)
    requires i < |packets| && Harmless(packets[..i], s) && TakesDown(packets[i], s)
    ensures Handled(packets, s) == if AbortsParsing(packets[i]) then packets[..i] else packets[..i + 1]
    ensures !Harmless(packets, s)
  {
    var n := |packets| - 1;
    if i < n {
      assert packets[..n][..i] == packets[..i] && packets[..n][..i + 1] == packets[..i + 1];
      HandledStops(packets[..n], i, s);
    }
  }

  // From packets to rows.

  /** The rows that a run of packets gives rise to. */
  function RowsFrom(packets: seq<Packet>, s: Settings): seq<Row>
  {
    Rows(Arrivals(Handled(packets, s), s))
  }

  /** Those are the rows a coordinator has sent. */
  lemma RowsSent(c: Coordinator, packets: seq<Packet>)
    requires c.Valid() && c.handled == Handled(packets, c.settings)
    ensures c.inputsStore.toDatabase == RowsFrom(packets, c.settings)
  {
    StoreRefinesHistory(Arrivals(c.handled, c.settings), seq(10, _ => 0));
  }

  /** A reading bears the datalog of its packet, and its derived fields are in order. */
  lemma {:induction false} ArrivalsAuthentic(packets: seq<Packet>, s: Settings)
    requires Parsable(packets)
    ensures Authentic(Arrivals(packets, s))
  {
    if packets != [] {
      var last := packets[|packets| - 1];
      ArrivalsAuthentic(packets[..|packets| - 1], s);
      if ArrivalOf(last, s).Some? {
        ReadInputAccepted(last.td, s.layouts);
      }
    }
  }

  /** The packets of one inverter. */
  function PacketsFrom(packets: seq<Packet>, d: Serial): seq<Packet>
  {
    if packets == [] then []
    else
      var n := |packets| - 1;
      var before := PacketsFrom(packets[..n], d);
      if packets[n].Datalog() == d then before + [packets[n]] else before
  }

  lemma {:induction false} ArrivalsFrom(packets: seq<Packet>, d: Serial, s: Settings)
    requires Parsable(packets)
    ensures Parsable(PacketsFrom(packets, d))
    ensures Arrivals(PacketsFrom(packets, d), s) == Only(Arrivals(packets, s), d)
  {
    if packets != [] {
      var before, last := packets[..|packets| - 1], packets[|packets| - 1];
      ArrivalsFrom(before, d, s);
      if ArrivalOf(last, s).Some? {
        OnlyStep(Arrivals(before, s), ArrivalOf(last, s).value, d);
      }
      if last.Datalog() == d {
        ArrivalsStep(PacketsFrom(before, d), last, s);
      }
    }
  }

  lemma {:induction false} HarmlessFrom(packets: seq<Packet>, d: Serial, s: Settings)
    requires Harmless(packets, s)
    ensures Harmless(PacketsFrom(packets, d), s)
  {
    if packets != [] {
      var before, last := packets[..|packets| - 1], packets[|packets| - 1];
      HarmlessFrom(before, d, s);
      if last.Datalog() == d {
        HarmlessStep(PacketsFrom(before, d), last, s);
      }
    }
  }

  lemma HarmlessStep(before: seq<Packet>, p: Packet, s: Settings)
    ensures Harmless(before + [p], s) <==> Harmless(before, s) && !TakesDown(p, s)
    ensures Survivable(before + [p], s) <==> Harmless(before, s) && !AbortsParsing(p)
    ensures Handled(before + [p], s) == if Survivable(before + [p], s) then before + [p] else Handled(before, s)
  {
    var packets := before + [p];
    assert packets[..|packets| - 1] == before;
  }

  lemma SurvivableFrom(packets: seq<Packet>, d: Serial, s: Settings)
    requires Survivable(packets, s)
    ensures Survivable(PacketsFrom(packets, d), s)
  {
    if packets != [] {
      var before, last := packets[..|packets| - 1], packets[|packets| - 1];
      HarmlessFrom(before, d, s);
      HarmlessStep(PacketsFrom(before, d), last, s);
    }
  }

  /** One more packet never takes a row back. */
  lemma RowsFromStep(before: seq<Packet>, p: Packet, s: Settings)
    ensures RowsFrom(before, s) <= RowsFrom(before + [p], s)
    ensures Survivable(before + [p], s) && ArrivalOf(p, s).Some? && ArrivalOf(p, s).value.input.All? ==>
      RowsFrom(before + [p], s) == RowsFrom(before, s) + [ArrivalOf(p, s).value.input.row]
  {
    HarmlessStep(before, p, s);
    if Survivable(before + [p], s) {
      SurvivableIsParsable(before, s);
      ArrivalsStep(before, p, s);
      if ArrivalOf(p, s).Some? {
        RowsStep(Arrivals(before, s), ArrivalOf(p, s).value);
      }
    }
  }

  lemma {:induction false} HandledPartFrom(packets: seq<Packet>, d: Serial, s: Settings)
    ensures RowsFrom(PacketsFrom(Handled(packets, s), d), s) <= RowsFrom(PacketsFrom(packets, d), s)
  {
    if !Survivable(packets, s) {
      var before, last := packets[..|packets| - 1], packets[|packets| - 1];
      HandledPartFrom(before, d, s);
      RowsFromStep(PacketsFrom(before, d), last, s);
    }
  }

  /** The rows of an inverter are those of the packets it alone sends. */
  predicate Apart(packets: seq<Packet>, d: Serial, s: Settings)
  {
    RowsOf(RowsFrom(packets, s), d) == RowsFrom(PacketsFrom(packets, d), s)
  }

  /** In every run the rows of an inverter are those of its own packets as far as packets were handled,
      hence the first few of those that all its packets would give; and they are all of them as long
      as no packet but the last takes the coordinator down. */
  lemma InvertersApart(packets: seq<Packet>, d: Serial, s: Settings)
    ensures RowsOf(RowsFrom(packets, s), d) == RowsFrom(PacketsFrom(Handled(packets, s), d), s)
    ensures RowsOf(RowsFrom(packets, s), d) <= RowsFrom(PacketsFrom(packets, d), s)
    ensures Survivable(packets, s) ==> Apart(packets, d, s)
  {
    var h := Handled(packets, s);
    SurvivableFrom(h, d, s);
    ArrivalsAuthentic(h, s);
    ArrivalsFrom(h, d, s);
    NonInterference(Arrivals(h, s), d);
    HandledPartFrom(packets, d, s);
  }

  // When inverters do show in each other's rows.

  /** Two input replies: three bytes for block 6, and a whole row. */
  function OddReply(e: Serial): Packet
  {
    Packets.Translated(Packets.TranslatedData(e, Packets.ReadInput, e, 200, [0, 0, 0]))
  }

  function WholeReply(d: Serial, values: seq<byte>): Packet
  {
    Packets.Translated(Packets.TranslatedData(d, Packets.ReadInput, d, 0, values))
  }

  predicate AcceptsWhole(values: seq<byte>, s: Settings)
  {
    && s.databases && |values| == 254 && s.layouts.all(values).Some?
    && var raw := s.layouts.all(values).value;
    raw.pPv1 + raw.pPv2 + raw.pPv3 < 0x1_0000
  }

  lemma WholeReplyMakesRow(before: seq<Packet>, d: Serial, values: seq<byte>, s: Settings)
    requires AcceptsWhole(values, s)
    ensures !TakesDown(WholeReply(d, values), s)
    ensures Harmless(before, s) ==> |RowsFrom(before + [WholeReply(d, values)], s)| == |RowsFrom(before, s)| + 1
  {
    HarmlessStep(before, WholeReply(d, values), s);
    RowsFromStep(before, WholeReply(d, values), s);
  }

  /** What one inverter sends can cost another its row. */
  lemma OneInverterStopsAnother(d: Serial, e: Serial, values: seq<byte>, s: Settings)
    requires AcceptsWhole(values, s) && d != e
    ensures var packets := [OddReply(e), WholeReply(d, values)];
      && RowsOf(RowsFrom(packets, s), d) == []
      && |RowsFrom(PacketsFrom(packets, d), s)| == 1
  {
    var packets := [OddReply(e), WholeReply(d, values)];
    assert packets[..1] == [OddReply(e)] && packets[..1][..0] == [];
    assert PacketsFrom(packets[..1], d) == [];
    WholeReplyMakesRow([], d, values, s);
    assert [] + [WholeReply(d, values)] == [WholeReply(d, values)];
  }

  lemma {:induction false} HarmlessAppend(a: seq<Packet>, b: seq<Packet>, s: Settings)
    ensures Harmless(a + b, s) <==> Harmless(a, s) && Harmless(b, s)
  {
    if b == [] {
      assert a + b == a;
    } else {
      var n := |b| - 1;
      assert a + b == (a + b[..n]) + [b[n]];
      HarmlessStep(a + b[..n], b[n], s);
      HarmlessAppend(a, b[..n], s);
    }
  }

  lemma LostRow(before: seq<Packet>, d: Serial, values: seq<byte>, s: Settings)
    requires AcceptsWhole(values, s) && Harmless(PacketsFrom(before, d), s) && !Harmless(before, s)
    ensures !Apart(before + [WholeReply(d, values)], d, s)
  {
    var whole := WholeReply(d, values);
    var packets := before + [whole];
    HarmlessStep(before, whole, s);
    InvertersApart(before, d, s);
    assert packets[..|packets| - 1] == before;
    WholeReplyMakesRow(PacketsFrom(before, d), d, values, s);
  }

  /** The exact condition: an inverter whose own packets are harmless keeps all its rows, whatever
      harmless packets follow, if and only if no other packet has taken the coordinator down. */
  lemma ApartIff(before: seq<Packet>, d: Serial, values: seq<byte>, s: Settings)
    requires AcceptsWhole(values, s) && Harmless(PacketsFrom(before, d), s)
    ensures (forall after :: Harmless(after, s) ==> Apart(before + after, d, s)) <==> Harmless(before, s)
  {
    if Harmless(before, s) {
      forall after | Harmless(after, s) ensures Apart(before + after, d, s) {
        HarmlessAppend(before, after, s);
        InvertersApart(before + after, d, s);
      }
    } else {
      var after := [WholeReply(d, values)];
      WholeReplyMakesRow([], d, values, s);
      HarmlessStep([], WholeReply(d, values), s);
      assert [] + after == after;
      LostRow(before, d, values, s);
    }
  }

  // From bytes to rows.

  /** The packets a reader hands over for the reads it got. */
  function Delivered(chunks: seq<seq<byte>>): seq<Packet>
  {
    Stream.ReceiveAll(Stream.Session([], Stream.Pending([])), chunks).packets
  }

  /** From bytes to rows, in every run: however an inverter's stream was cut into reads, and whatever
      others send, its rows are the first few of those that the stream alone gives; and they are all
      of them as long as no packet but the last takes the coordinator down. */
  lemma RowsFromOwnBytes(packets: seq<Packet>, d: Serial, chunks: seq<seq<byte>>, s: Settings)
    requires PacketsFrom(packets, d) == Delivered(chunks)
    ensures var own := RowsFrom(Stream.Drain(Stream.Flatten(chunks)).packets, s);
      && RowsOf(RowsFrom(packets, s), d) <= own
      && (Survivable(packets, s) ==> RowsOf(RowsFrom(packets, s), d) == own)
  {
    InvertersApart(packets, d, s);
    Stream.ChunkIndependence(chunks);
  }

  /** In no run does a row have a part that comes from a damaged frame, or from anything behind it. */
  lemma NoRowFromDamage(
    packets: seq<Packet>, d: Serial, before: seq<seq<byte>>, frame: seq<byte>, damaged: seq<byte>,
    after: seq<byte>, chunks: seq<seq<byte>>, s: Settings)
    requires PacketsFrom(packets, d) == Delivered(chunks)
    requires Stream.AllComplete(before) && Damage.Checksummed(frame) && Damage.Damaged(frame, damaged)
    requires Stream.Flatten(chunks) == Stream.Flatten(before) + (damaged + after)
    ensures var sound := RowsFrom(Stream.PacketsOf(before), s);
      && RowsOf(RowsFrom(packets, s), d) <= sound
      && (Survivable(packets, s) ==> RowsOf(RowsFrom(packets, s), d) == sound)
  {
    InvertersApart(packets, d, s);
    Damage.StreamStopsAtDamage(before, frame, damaged, after, chunks);
  }
}
