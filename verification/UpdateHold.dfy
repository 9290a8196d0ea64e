/** Changing one bit of a holding register by reading it, changing the bit and writing it back. */
module UpdateHold {
  import opened Bytes
  import opened Packets
  import opened Replies

  datatype RegisterBit = AcChargeEnable | ForcedDischargeEnable | ChargePriorityEnable

  function Mask(bit: RegisterBit): bv16
  {
    match bit
    case AcChargeEnable => 0x0080
    case ForcedDischargeEnable => 0x0400
    case ChargePriorityEnable => 0x0800
  }

  /** A request to switch one bit of one register. */
  datatype Hold = Hold(datalog: Serial, inverter: Serial, register: u16, bit: RegisterBit, enable: bool)

  function SetBits(c: bv16, mask: bv16): bv16
  {
    c | mask
  }

  function ClearBits(c: bv16, mask: bv16): bv16
  {
    c & !mask
  }

  function KeepBits(c: bv16, mask: bv16): bv16
  {
    c & mask
  }

  function NewValue(current: bv16, bit: RegisterBit, enable: bool): bv16
  {
    if enable then SetBits(current, Mask(bit)) else ClearBits(current, Mask(bit))
  }

  function ReadRequest(h: Hold): Packets.Packet
  {
    Translated(TranslatedData(h.datalog, ReadHold, h.inverter, h.register, [1, 0]))
  }

  function WriteRequest(h: Hold, value: bv16): Packets.Packet
  {
    Translated(TranslatedData(h.datalog, WriteSingle, h.inverter, h.register, WordBytes(value)))
  }

  /** A run can also stop on a reply too short to hold a value. */
  datatype RunResult =
    | Done
    | NotAnswered(reason: WaitResult)
    | NoValue
    | NotApplied(got: bv16, wanted: bv16)

  function Value(reply: Packets.Packet): (v: bv16)
    requires reply.Translated? && 2 <= |reply.td.values|
  {
    Word(reply.td.values[0], reply.td.values[1])
  }

  lemma {:induction false} WaitAnswers(request: Packets.Packet, polls: seq<Poll>)
    ensures Wait(request, polls).Reply? ==> Answers(request, Wait(request, polls).packet)
    ensures Wait(request, polls).Reply? ==> exists i ::
      0 <= i < |polls| && polls[i].received == Ok(Packet(Wait(request, polls).packet))
    decreases |polls|
  {
    var r := Wait(request, polls);
    if r.Reply? {
      FirstMatch(request, polls, r.packet);
      var i: nat :| AnsweredAt(request, polls, i, r.packet);
    }
  }

  /** The value the first wait brings, if it brings one. */
  predicate ReadsValue(h: Hold, polls: seq<Poll>)
  {
    var r := Wait(ReadRequest(h), polls);
    r.Reply? && r.packet.Translated? && 2 <= |r.packet.td.values|
  }

  function ReadValue(h: Hold, polls: seq<Poll>): bv16
    requires ReadsValue(h, polls)
  {
    Value(Wait(ReadRequest(h), polls).packet)
  }

  /** How a run ends, given what the channel brings during its two waits. */
  function Outcome(h: Hold, readPolls: seq<Poll>, writePolls: seq<Poll>): RunResult
  {
    var first := Wait(ReadRequest(h), readPolls);
    if !first.Reply? then NotAnswered(first)
    else if !ReadsValue(h, readPolls) then NoValue
    else
      var wanted := NewValue(ReadValue(h, readPolls), h.bit, h.enable);
      var second := Wait(WriteRequest(h, wanted), writePolls);
      if !second.Reply? then NotAnswered(second)
      else if !second.packet.Translated? || |second.packet.td.values| < 2 then NoValue
      else if Value(second.packet) != wanted then NotApplied(Value(second.packet), wanted)
      else Done
  }

  class Updater {
    const hold: Hold
    /** The packets sent to the inverter. */
    var toInverter: seq<Packets.Packet>

    constructor (hold: Hold)
      ensures this.hold == hold && toInverter == []
    {
      this.hold := hold;
      toInverter := [];
    }

    method Run(readPolls: seq<Poll>, writePolls: seq<Poll>) returns (r: RunResult)
      modifies this
      ensures r == Outcome(hold, readPolls, writePolls)
      ensures toInverter == old(toInverter) + [ReadRequest(hold)]
        + (if ReadsValue(hold, readPolls)
           then [WriteRequest(hold, NewValue(ReadValue(hold, readPolls), hold.bit, hold.enable))] else [])
    {
      var readPacket := ReadRequest(hold);
      toInverter := toInverter + [readPacket];
      var first := WaitForReply(readPacket, readPolls);
      if !first.Reply? {
        return NotAnswered(first);
      }
      WaitAnswers(readPacket, readPolls);
      if |first.packet.td.values| < 2 {
        return NoValue;
      }
      var currentValue := Value(first.packet);
      var newValue: bv16;
      if hold.enable {
        newValue := SetBits(currentValue, Mask(hold.bit));
      } else {
        newValue := ClearBits(currentValue, Mask(hold.bit));
      }
      var writePacket := WriteRequest(hold, newValue);
      toInverter := toInverter + [writePacket];
      var second := WaitForReply(writePacket, writePolls);
      if !second.Reply? {
        return NotAnswered(second);
      }
      WaitAnswers(writePacket, writePolls);
      if |second.packet.td.values| < 2 {
        return NoValue;
      }
      if Value(second.packet) != newValue {
        return NotApplied(Value(second.packet), newValue);
      }
      return Done;
    }
  }

  // Runs against inverters that store their registers and answer truthfully, with no other writer.

  /** One run: what the channel brought during either wait, and whether the write reached the inverter. */
  datatype Attempt = Attempt(hold: Hold, readPolls: seq<Poll>, writePolls: seq<Poll>, delivered: bool)

  /** A register of an inverter. */
  datatype Place = Place(datalog: Serial, register: u16)

  type Registers = map<Place, bv16>

  function PlaceOf(a: Attempt): Place
  {
    Place(a.hold.datalog, a.hold.register)
  }

  /** Every answer to the request that comes by carries this value; all else is arbitrary. */
  ghost predicate AnswersCarry(request: Packets.Packet, polls: seq<Poll>, value: bv16)
  {
    forall i :: 0 <= i < |polls| && polls[i].received.Ok? && polls[i].received.data.Packet? ==>
      var reply := polls[i].received.data.packet;
      Answers(request, reply) ==> reply.Translated? && 2 <= |reply.td.values| && Value(reply) == value
  }

  ghost predicate NeverAnswered(request: Packets.Packet, polls: seq<Poll>)
  {
    forall i :: 0 <= i < |polls| && polls[i].received.Ok? && polls[i].received.data.Packet? ==>
      !Answers(request, polls[i].received.data.packet)
  }

  /** The value a run writes back, computed from what it read. */
  function Written(a: Attempt): bv16
    requires ReadsValue(a.hold, a.readPolls)
  {
    NewValue(ReadValue(a.hold, a.readPolls), a.hold.bit, a.hold.enable)
  }

  /** The answers to the read carry the register. */
  ghost predicate ReadTruthfully(regs: Registers, a: Attempt)
  {
    PlaceOf(a) in regs && AnswersCarry(ReadRequest(a.hold), a.readPolls, regs[PlaceOf(a)])
  }

  /** The inverter answers the read with its register, and answers the write only if it got it. */
  ghost predicate Truthful(regs: Registers, a: Attempt)
  {
    && ReadTruthfully(regs, a)
    && (ReadsValue(a.hold, a.readPolls) ==>
         var write := WriteRequest(a.hold, Written(a));
         if a.delivered then AnswersCarry(write, a.writePolls, Written(a))
         else NeverAnswered(write, a.writePolls))
  }

  /** The write takes effect when it was sent and delivered. */
  predicate TakesEffect(a: Attempt)
  {
    ReadsValue(a.hold, a.readPolls) && a.delivered
  }

  /** The inverter's part: a packet that writes a single register changes that one, and nothing else
      changes anything. */
  function Served(regs: Registers, p: Packets.Packet): (r: Registers)
    ensures regs.Keys <= r.Keys
  {
    if p.Translated? && p.td.deviceFunction == WriteSingle && |p.td.values| == 2
    then regs[Place(p.td.datalog, p.td.register) := Word(p.td.values[0], p.td.values[1])]
    else regs
  }

  /** The write request has the inverter store the value; the read request changes nothing, and asks for
      one register. */
  lemma RequestsSay(regs: Registers, h: Hold, value: bv16)
    ensures Served(regs, WriteRequest(h, value)) == regs[Place(h.datalog, h.register) := value]
    ensures Value(WriteRequest(h, value)) == value && WriteRequest(h, value).td.inverter == h.inverter
    ensures Served(regs, ReadRequest(h)) == regs
    ensures var td := ReadRequest(h).td;
      && td.deviceFunction == ReadHold && td.datalog == h.datalog && td.inverter == h.inverter
      && td.register == h.register && |td.values| == 2 && Le16(td.values[0], td.values[1]) == 1
  {
    WordRoundTrip(value);
  }

  /** The registers after one run: the inverter serves the packet that was sent. */
  function RegistersAfter(regs: Registers, a: Attempt): Registers
  {
    if TakesEffect(a) then Served(regs, WriteRequest(a.hold, Written(a))) else regs
  }

  lemma EffectIsWritten(regs: Registers, a: Attempt)
    requires TakesEffect(a)
    ensures RegistersAfter(regs, a) == regs[PlaceOf(a) := Written(a)]
  {
    RequestsSay(regs, a.hold, Written(a));
  }

  function RegistersAfterAll(regs: Registers, attempts: seq<Attempt>): (r: Registers)
    ensures regs.Keys <= r.Keys
  {
    if attempts == [] then regs
    else
      var n := |attempts| - 1;
      RegistersAfter(RegistersAfterAll(regs, attempts[..n]), attempts[n])
  }

  ghost predicate AllTruthful(regs: Registers, attempts: seq<Attempt>)
  {
    forall n :: 0 <= n < |attempts| ==> Truthful(RegistersAfterAll(regs, attempts[..n]), attempts[n])
  }

  lemma TruthfulPrefix(regs: Registers, attempts: seq<Attempt>, n: nat)
    requires n <= |attempts| && AllTruthful(regs, attempts)
    ensures AllTruthful(regs, attempts[..n])
  {
    forall m | 0 <= m < n ensures Truthful(RegistersAfterAll(regs, attempts[..n][..m]), attempts[..n][m]) {
      assert attempts[..n][..m] == attempts[..m];
    }
  }

  /** The run reports success. */
  predicate Succeeds(a: Attempt)
  {
    Outcome(a.hold, a.readPolls, a.writePolls) == Done
  }

  lemma ReadsTheRegister(regs: Registers, a: Attempt)
    requires ReadTruthfully(regs, a) && ReadsValue(a.hold, a.readPolls)
    ensures ReadValue(a.hold, a.readPolls) == regs[PlaceOf(a)]
  {
    WaitAnswers(ReadRequest(a.hold), a.readPolls);
  }

  /** Answers of a truthful inverter always hold a value. */
  lemma ReadsIff(regs: Registers, a: Attempt)
    requires ReadTruthfully(regs, a)
    ensures ReadsValue(a.hold, a.readPolls) <==> Wait(ReadRequest(a.hold), a.readPolls).Reply?
  {
    WaitAnswers(ReadRequest(a.hold), a.readPolls);
  }

  /** A run that reports success has taken effect. */
  lemma SuccessIsEffect(regs: Registers, a: Attempt)
    requires Truthful(regs, a) && Succeeds(a)
    ensures TakesEffect(a)
  {
    WaitAnswers(WriteRequest(a.hold, Written(a)), a.writePolls);
  }

  /** Against a truthful inverter a run succeeds exactly when its write has got there and the inverter's
      answer to it arrives in time. */
  lemma SuccessIff(regs: Registers, a: Attempt)
    requires Truthful(regs, a)
    ensures Succeeds(a) <==> TakesEffect(a) && Wait(WriteRequest(a.hold, Written(a)), a.writePolls).Reply?
  {
    WaitAnswers(ReadRequest(a.hold), a.readPolls);
    if ReadsValue(a.hold, a.readPolls) {
      WaitAnswers(WriteRequest(a.hold, Written(a)), a.writePolls);
    }
  }

  /** How a run ends otherwise: with what ended a wait, or with an answer that brings another value than
      the wanted one. */
  lemma EndsWith(a: Attempt)
    ensures var first := Wait(ReadRequest(a.hold), a.readPolls);
      !first.Reply? ==> Outcome(a.hold, a.readPolls, a.writePolls) == NotAnswered(first)
    ensures ReadsValue(a.hold, a.readPolls) ==>
      var second := Wait(WriteRequest(a.hold, Written(a)), a.writePolls);
      && (!second.Reply? ==> Outcome(a.hold, a.readPolls, a.writePolls) == NotAnswered(second))
      && forall got, wanted :: Outcome(a.hold, a.readPolls, a.writePolls) == NotApplied(got, wanted) ==>
           && second.Reply? && second.packet.Translated? && 2 <= |second.packet.td.values|
           && got == Value(second.packet) && wanted == Written(a) && got != wanted
  {}

  predicate IsSet(reg: bv16, bit: RegisterBit)
  {
    KeepBits(reg, Mask(bit)) != 0
  }

  const OTHER_BITS: bv16 := 0xF37F

  /** The thirteen bits that no request names. */
  function Others(reg: bv16): bv16
  {
    KeepBits(reg, OTHER_BITS)
  }

  lemma SetApart(c: bv16, mask: bv16, keep: bv16)
    requires KeepBits(mask, keep) == 0
    ensures KeepBits(SetBits(c, mask), keep) == KeepBits(c, keep)
  {}

  lemma ClearApart(c: bv16, mask: bv16, keep: bv16)
    requires KeepBits(mask, keep) == 0
    ensures KeepBits(ClearBits(c, mask), keep) == KeepBits(c, keep)
  {}

  lemma SetOrClearItself(c: bv16, mask: bv16)
    ensures KeepBits(SetBits(c, mask), mask) == mask
    ensures KeepBits(ClearBits(c, mask), mask) == 0
  {}

  lemma MasksApart(bit: RegisterBit, other: RegisterBit)
    ensures Mask(bit) != 0 && KeepBits(Mask(bit), OTHER_BITS) == 0
    ensures bit != other ==> KeepBits(Mask(bit), Mask(other)) == 0
  {}

  lemma NewValueApart(c: bv16, bit: RegisterBit, enable: bool, keep: bv16)
    requires KeepBits(Mask(bit), keep) == 0
    ensures KeepBits(NewValue(c, bit, enable), keep) == KeepBits(c, keep)
  {
    if enable {
      SetApart(c, Mask(bit), keep);
    } else {
      ClearApart(c, Mask(bit), keep);
    }
  }

  lemma ChangesOneBit(reg: bv16, bit: RegisterBit, enable: bool, other: RegisterBit)
    ensures IsSet(NewValue(reg, bit, enable), other) == if other == bit then enable else IsSet(reg, other)
    ensures Others(NewValue(reg, bit, enable)) == Others(reg)
  {
    MasksApart(bit, other);
    NewValueApart(reg, bit, enable, OTHER_BITS);
    if other == bit {
      SetOrClearItself(reg, Mask(bit));
    } else {
      NewValueApart(reg, bit, enable, Mask(other));
    }
  }

  // What a switch shows.

  /** Register 21 as it is published, bit by bit. */
  datatype Register21Bits = Register21Bits(
    epsEn: bool, ovfLoadDerateEn: bool, drmsEn: bool, lvrtEn: bool,
    antiIslandEn: bool, neutralDetectEn: bool, gridOnPowerSsEn: bool, acChargeEn: bool,
    swSeamlessEn: bool, setToStandby: bool, forcedDischargeEn: bool, chargePriorityEn: bool,
    isoEn: bool, gfciEn: bool, dciEn: bool, feedInGridEn: bool)

  function IsBitSet(data: bv16, bit: bv16): bool
  {
    KeepBits(data, bit) == bit
  }

  function BitsOf(data: bv16): Register21Bits
  {
    Register21Bits(
      IsBitSet(data, 0x0001), IsBitSet(data, 0x0002), IsBitSet(data, 0x0004), IsBitSet(data, 0x0008),
      IsBitSet(data, 0x0010), IsBitSet(data, 0x0020), IsBitSet(data, 0x0040), IsBitSet(data, 0x0080),
      IsBitSet(data, 0x0100), IsBitSet(data, 0x0200), IsBitSet(data, 0x0400), IsBitSet(data, 0x0800),
      IsBitSet(data, 0x1000), IsBitSet(data, 0x2000), IsBitSet(data, 0x4000), IsBitSet(data, 0x8000))
  }

  function Flag(on: bool, bit: bv16): bv16
  {
    if on then bit else 0
  }

  function FourFlags(a: bool, b: bool, c: bool, d: bool, unit: bv16): bv16
  {
    Flag(a, unit) | Flag(b, 2 * unit) | Flag(c, 4 * unit) | Flag(d, 8 * unit)
  }

  lemma Nibble0(reg: bv16)
    ensures FourFlags(IsBitSet(reg, 0x0001), IsBitSet(reg, 0x0002), IsBitSet(reg, 0x0004), IsBitSet(reg, 0x0008), 0x0001)
      == KeepBits(reg, 0x000F)
  {}

  lemma Nibble1(reg: bv16)
    ensures FourFlags(IsBitSet(reg, 0x0010), IsBitSet(reg, 0x0020), IsBitSet(reg, 0x0040), IsBitSet(reg, 0x0080), 0x0010)
      == KeepBits(reg, 0x00F0)
  {}

  lemma Nibble2(reg: bv16)
    ensures FourFlags(IsBitSet(reg, 0x0100), IsBitSet(reg, 0x0200), IsBitSet(reg, 0x0400), IsBitSet(reg, 0x0800), 0x0100)
      == KeepBits(reg, 0x0F00)
  {}

  lemma Nibble3(reg: bv16)
    ensures FourFlags(IsBitSet(reg, 0x1000), IsBitSet(reg, 0x2000), IsBitSet(reg, 0x4000), IsBitSet(reg, 0x8000), 0x1000)
      == KeepBits(reg, 0xF000)
  {}

  /** The published fields are the binary digits of the register, four at a time. */
  lemma BitsAreDigits(reg: bv16)
    ensures var b := BitsOf(reg);
      && FourFlags(b.epsEn, b.ovfLoadDerateEn, b.drmsEn, b.lvrtEn, 0x0001) == KeepBits(reg, 0x000F)
      && FourFlags(b.antiIslandEn, b.neutralDetectEn, b.gridOnPowerSsEn, b.acChargeEn, 0x0010) == KeepBits(reg, 0x00F0)
      && FourFlags(b.swSeamlessEn, b.setToStandby, b.forcedDischargeEn, b.chargePriorityEn, 0x0100)
         == KeepBits(reg, 0x0F00)
      && FourFlags(b.isoEn, b.gfciEn, b.dciEn, b.feedInGridEn, 0x1000) == KeepBits(reg, 0xF000)
  {
    Nibble0(reg);
    Nibble1(reg);
    Nibble2(reg);
    Nibble3(reg);
  }

  lemma OthersShow(reg: bv16, bit: RegisterBit, enable: bool, now: bv16, other: bv16)
    requires KeepBits(Mask(bit), other) == 0 && now == NewValue(reg, bit, enable)
    ensures IsBitSet(now, other) == IsBitSet(reg, other)
  {
    NewValueApart(reg, bit, enable, other);
  }

  lemma OwnShows(reg: bv16, bit: RegisterBit, enable: bool, now: bv16)
    requires now == NewValue(reg, bit, enable)
    ensures IsBitSet(now, Mask(bit)) == enable
  {
    SetOrClearItself(reg, Mask(bit));
    MasksApart(bit, bit);
  }

  lemma UnnamedShow(reg: bv16, bit: RegisterBit, enable: bool, now: bv16)
    requires now == NewValue(reg, bit, enable)
    ensures forall other: bv16 | other in UNNAMED :: IsBitSet(now, other) == IsBitSet(reg, other)
  {
    forall other: bv16 | other in UNNAMED ensures IsBitSet(now, other) == IsBitSet(reg, other) {
      OthersShow(reg, bit, enable, now, other);
    }
  }

  const UNNAMED: set<bv16> := {
    0x0001, 0x0002, 0x0004, 0x0008, 0x0010, 0x0020, 0x0040, 0x0100, 0x0200, 0x1000, 0x2000, 0x4000, 0x8000}

  lemma NamedShow(reg: bv16, bit: RegisterBit, enable: bool, now: bv16, other: RegisterBit)
    requires now == NewValue(reg, bit, enable)
    ensures IsBitSet(now, Mask(other)) == if other == bit then enable else IsBitSet(reg, Mask(other))
  {
    if other == bit {
      OwnShows(reg, bit, enable, now);
    } else {
      MasksApart(bit, other);
      OthersShow(reg, bit, enable, now, Mask(other));
    }
  }

  lemma FlagsMakeBits(reg: bv16, now: bv16)
    requires forall other: bv16 | other in UNNAMED :: IsBitSet(now, other) == IsBitSet(reg, other)
    ensures BitsOf(now) == BitsOf(reg).(
      acChargeEn := IsBitSet(now, 0x0080),
      forcedDischargeEn := IsBitSet(now, 0x0400),
      chargePriorityEn := IsBitSet(now, 0x0800))
  {}

  /** Switching a bit shows in the published field of its name, and in no other. */
  lemma SwitchShows(reg: bv16, bit: RegisterBit, enable: bool, now: bv16)
    requires now == NewValue(reg, bit, enable)
    ensures BitsOf(now) == match bit
      case AcChargeEnable => BitsOf(reg).(acChargeEn := enable)
      case ForcedDischargeEnable => BitsOf(reg).(forcedDischargeEn := enable)
      case ChargePriorityEnable => BitsOf(reg).(chargePriorityEn := enable)
  {
    UnnamedShow(reg, bit, enable, now);
    FlagsMakeBits(reg, now);
    NamedShow(reg, bit, enable, now, AcChargeEnable);
    NamedShow(reg, bit, enable, now, ForcedDischargeEnable);
    NamedShow(reg, bit, enable, now, ChargePriorityEnable);
  }

  /** What the last request for a bit that took effect asked for, or what the bit was at first. */
  function LastAsked(initial: bool, attempts: seq<Attempt>, place: Place, bit: RegisterBit): bool
  {
    if attempts == [] then initial
    else
      var n := |attempts| - 1;
      if TakesEffect(attempts[n]) && PlaceOf(attempts[n]) == place && attempts[n].hold.bit == bit
      then attempts[n].hold.enable
      else LastAsked(initial, attempts[..n], place, bit)
  }

  lemma OneToggle(regs: Registers, a: Attempt, place: Place, bit: RegisterBit)
    requires Truthful(regs, a) && place in regs
    ensures var after := RegistersAfter(regs, a)[place];
      var changes := TakesEffect(a) && PlaceOf(a) == place && a.hold.bit == bit;
      && IsSet(after, bit) == (if changes then a.hold.enable else IsSet(regs[place], bit))
      && Others(after) == Others(regs[place])
      && (PlaceOf(a) != place ==> after == regs[place])
  {
    if TakesEffect(a) {
      ReadsTheRegister(regs, a);
      EffectIsWritten(regs, a);
    }
    ChangesOneBit(regs[place], a.hold.bit, a.hold.enable, bit);
  }

  /** After any sequence of runs on any registers, failed runs included, each of the three bits of each
      register is what the last effective request for it asked for, and the other thirteen bits are
      as they were. */
  lemma {:induction false} TogglesArePrecise(regs: Registers, attempts: seq<Attempt>, place: Place, bit: RegisterBit)
    requires AllTruthful(regs, attempts) && place in regs
    ensures var final := RegistersAfterAll(regs, attempts)[place];
      && IsSet(final, bit) == LastAsked(IsSet(regs[place], bit), attempts, place, bit)
      && Others(final) == Others(regs[place])
  {
    if attempts != [] {
      var n := |attempts| - 1;
      TruthfulPrefix(regs, attempts, n);
      TogglesArePrecise(regs, attempts[..n], place, bit);
      OneToggle(RegistersAfterAll(regs, attempts[..n]), attempts[n], place, bit);
    }
  }

  /** A register that no run names stays as it was. */
  lemma {:induction false} OtherRegistersUntouched(regs: Registers, attempts: seq<Attempt>, place: Place)
    requires place in regs && forall n :: 0 <= n < |attempts| ==> PlaceOf(attempts[n]) != place
    ensures RegistersAfterAll(regs, attempts)[place] == regs[place]
  {
    if attempts != [] {
      var n := |attempts| - 1;
      OtherRegistersUntouched(regs, attempts[..n], place);
      if TakesEffect(attempts[n]) {
        EffectIsWritten(RegistersAfterAll(regs, attempts[..n]), attempts[n]);
      }
    }
  }

  function LastRequested(initial: bool, attempts: seq<Attempt>, place: Place, bit: RegisterBit): bool
  {
    if attempts == [] then initial
    else
      var n := |attempts| - 1;
      if PlaceOf(attempts[n]) == place && attempts[n].hold.bit == bit then attempts[n].hold.enable
      else LastRequested(initial, attempts[..n], place, bit)
  }

  lemma {:induction false} AllEffective(
    regs: Registers, attempts: seq<Attempt>, initial: bool, place: Place, bit: RegisterBit)
    requires AllTruthful(regs, attempts)
    requires forall n :: 0 <= n < |attempts| ==> Succeeds(attempts[n])
    ensures LastAsked(initial, attempts, place, bit) == LastRequested(initial, attempts, place, bit)
  {
    if attempts != [] {
      var n := |attempts| - 1;
      var prefix := attempts[..n];
      TruthfulPrefix(regs, attempts, n);
      AllEffective(regs, prefix, initial, place, bit);
      SuccessIsEffect(RegistersAfterAll(regs, prefix), attempts[n]);
    }
  }

  /** After any sequence of successful runs amid any unrelated traffic, bits 7, 10 and 11 of each
      register are as last requested, or as they were, and no other bit has changed. */
  lemma SuccessfulRuns(regs: Registers, attempts: seq<Attempt>, place: Place, bit: RegisterBit)
    requires AllTruthful(regs, attempts) && place in regs
    requires forall n :: 0 <= n < |attempts| ==> Succeeds(attempts[n])
    ensures var final := RegistersAfterAll(regs, attempts)[place];
      && IsSet(final, bit) == LastRequested(IsSet(regs[place], bit), attempts, place, bit)
      && Others(final) == Others(regs[place])
  {
    TogglesArePrecise(regs, attempts, place, bit);
    AllEffective(regs, attempts, IsSet(regs[place], bit), place, bit);
  }

  // Other writers: a run reads at one time and its write lands at another.

  datatype Event =
    | Reads(run: Attempt)
    | Lands(run: Attempt)
    | Foreign(place: Place, value: bv16)

  /** What an event does to the registers. A run that read nothing has nothing to write. */
  function After(regs: Registers, e: Event): Registers
  {
    match e
    case Reads(_) => regs
    case Lands(run) =>
      if ReadsValue(run.hold, run.readPolls) then Served(regs, WriteRequest(run.hold, Written(run))) else regs
    case Foreign(place, value) => regs[place := value]
  }

  function AfterAll(regs: Registers, events: seq<Event>): (r: Registers)
    ensures regs.Keys <= r.Keys
  {
    if events == [] then regs
    else After(AfterAll(regs, events[..|events| - 1]), events[|events| - 1])
  }

  function OtherFifteen(bit: RegisterBit): bv16
  {
    match bit
    case AcChargeEnable => 0xFF7F
    case ForcedDischargeEnable => 0xFBFF
    case ChargePriorityEnable => 0xF7FF
  }

  /** The register but for one bit. */
  function Rest(reg: bv16, bit: RegisterBit): bv16
  {
    KeepBits(reg, OtherFifteen(bit))
  }

  lemma Sixteen(c: bv16, d: bv16, bit: RegisterBit)
    requires Rest(c, bit) == Rest(d, bit) && KeepBits(c, Mask(bit)) == KeepBits(d, Mask(bit))
    ensures c == d
  {}

  lemma FifteenApart(bit: RegisterBit)
    ensures KeepBits(Mask(bit), OtherFifteen(bit)) == 0
  {}

  lemma NewValueParts(c: bv16, bit: RegisterBit, enable: bool)
    ensures Rest(NewValue(c, bit, enable), bit) == Rest(c, bit)
    ensures KeepBits(NewValue(c, bit, enable), Mask(bit)) == if enable then Mask(bit) else 0
  {
    FifteenApart(bit);
    NewValueApart(c, bit, enable, OtherFifteen(bit));
    SetOrClearItself(c, Mask(bit));
  }

  lemma SameWhenRestSame(c: bv16, d: bv16, x: bv16, y: bv16, bit: RegisterBit)
    requires Rest(x, bit) == Rest(c, bit) && Rest(y, bit) == Rest(d, bit)
    requires KeepBits(x, Mask(bit)) == KeepBits(y, Mask(bit))
    ensures x == y <==> Rest(c, bit) == Rest(d, bit)
  {
    if Rest(c, bit) == Rest(d, bit) {
      Sixteen(x, y, bit);
    }
  }

  /** Of what a register held, a new value keeps the other fifteen bits and nothing else. */
  lemma NewValueIff(c: bv16, d: bv16, bit: RegisterBit, enable: bool)
    ensures NewValue(c, bit, enable) == NewValue(d, bit, enable) <==> Rest(c, bit) == Rest(d, bit)
  {
    NewValueParts(c, bit, enable);
    NewValueParts(d, bit, enable);
    SameWhenRestSame(c, d, NewValue(c, bit, enable), NewValue(d, bit, enable), bit);
  }

  lemma AfterSpan(regs: Registers, run: Attempt, between: seq<Event>)
    requires ReadTruthfully(regs, run) && ReadsValue(run.hold, run.readPolls)
    ensures AfterAll(regs, between + [Lands(run)])
      == AfterAll(regs, between)[PlaceOf(run) := NewValue(regs[PlaceOf(run)], run.hold.bit, run.hold.enable)]
  {
    var events := between + [Lands(run)];
    assert events[..|events| - 1] == between;
    ReadsTheRegister(regs, run);
    RequestsSay(AfterAll(regs, between), run.hold, Written(run));
  }

  /** Whatever lands between a run's read and its write, the run's own bit ends up as asked. The run
      has the effect it would have had by itself after all that if and only if all that has left the
      other fifteen bits of the register as the run read them. */
  lemma AtomicIff(regs: Registers, run: Attempt, between: seq<Event>)
    requires ReadTruthfully(regs, run) && ReadsValue(run.hold, run.readPolls)
    ensures var place, hold := PlaceOf(run), run.hold;
      var left, final := AfterAll(regs, between), AfterAll(regs, between + [Lands(run)]);
      && IsSet(final[place], hold.bit) == hold.enable
      && (final == left[place := NewValue(left[place], hold.bit, hold.enable)]
          <==> Rest(left[place], hold.bit) == Rest(regs[place], hold.bit))
  {
    var place, hold := PlaceOf(run), run.hold;
    var left, final := AfterAll(regs, between), AfterAll(regs, between + [Lands(run)]);
    AfterSpan(regs, run, between);
    ChangesOneBit(regs[place], hold.bit, hold.enable, hold.bit);
    NewValueIff(left[place], regs[place], hold.bit, hold.enable);
    var alone := left[place := NewValue(left[place], hold.bit, hold.enable)];
    assert final == alone ==> final[place] == alone[place];
  }

  /** Every run reads what its register holds at that time. */
  ghost predicate ReadsTruthful(regs: Registers, events: seq<Event>)
  {
    forall i :: 0 <= i < |events| && events[i].Reads? ==>
      ReadTruthfully(AfterAll(regs, events[..i]), events[i].run)
  }

  /** Two runs on one register that both read before either write lands, in whatever order. */
  function Interleaved(early: Attempt, late: Attempt, earlyReadsFirst: bool): seq<Event>
  {
    (if earlyReadsFirst then [Reads(early), Reads(late)] else [Reads(late), Reads(early)])
      + [Lands(early), Lands(late)]
  }

  lemma BothReadFirst(regs: Registers, early: Attempt, late: Attempt, earlyReadsFirst: bool)
    requires ReadsTruthful(regs, Interleaved(early, late, earlyReadsFirst))
    ensures ReadTruthfully(regs, early) && ReadTruthfully(regs, late)
    ensures AfterAll(regs, Interleaved(early, late, earlyReadsFirst)) == After(After(regs, Lands(early)), Lands(late))
  {
    var events := Interleaved(early, late, earlyReadsFirst);
    assert events[..0] == [] && events[..1][..0] == [] && events[..2][..1] == events[..1];
    assert AfterAll(regs, events[..1]) == regs && AfterAll(regs, events[..2]) == regs;
    assert events[0].Reads? && events[1].Reads?;
    assert events[..3][..2] == events[..2] && events[..3][2] == Lands(early);
    assert events[..|events| - 1] == events[..3];
  }

  /** The write that lands last overwrites the other: both requests hold afterwards if and only if they
      agree on the same bit, or the other's bit was as requested from the start. */
  lemma InterleavedRunsLoseUpdate(regs: Registers, early: Attempt, late: Attempt, earlyReadsFirst: bool)
    requires ReadsTruthful(regs, Interleaved(early, late, earlyReadsFirst))
    requires PlaceOf(early) == PlaceOf(late)
    requires ReadsValue(early.hold, early.readPolls) && ReadsValue(late.hold, late.readPolls)
    ensures PlaceOf(late) in regs
    ensures var reg, final :=
        regs[PlaceOf(late)], AfterAll(regs, Interleaved(early, late, earlyReadsFirst))[PlaceOf(late)];
      var e, l := early.hold, late.hold;
      IsSet(final, e.bit) == e.enable && IsSet(final, l.bit) == l.enable
      <==> if e.bit == l.bit then e.enable == l.enable else IsSet(reg, e.bit) == e.enable
  {
    BothReadFirst(regs, early, late, earlyReadsFirst);
    ReadsTheRegister(regs, late);
    RequestsSay(After(regs, Lands(early)), late.hold, Written(late));
    var reg, l := regs[PlaceOf(late)], late.hold;
    ChangesOneBit(reg, l.bit, l.enable, early.hold.bit);
    ChangesOneBit(reg, l.bit, l.enable, l.bit);
  }
}
