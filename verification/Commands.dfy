/** From a command topic to the packet it makes the coordinator send. */
module Commands {
  import opened Bytes
  import opened Numbers
  import opened Texts
  import opened Wrappers
  import Packets
  import Sweep
  import Topics
  import UpdateHold

  /** The inverter a command is for, its configured block size, and whether it or the whole bridge is
      read-only. */
  datatype Target = Target(datalog: Serial, serial: Serial, blockSize: u16, readOnly: bool)

  /** How the coordinator starts on a command; the rest of the commands are not modelled. */
  datatype Start =
    | Sends(packet: Packets.Packet)
    | Switches(hold: UpdateHold.Hold)
    | Blocked
    | Elsewhere

  const REGISTER_21: u16 := 21

  function Read(t: Target, f: Packets.DeviceFunction, register: u16, count: u16): Start
  {
    Sends(Packets.Translated(Packets.TranslatedData(
      t.datalog, f, t.serial, register, [(count % 0x100) as byte, 0])))
  }

  function Switch(t: Target, bit: UpdateHold.RegisterBit, enable: bool): Start
  {
    Switches(UpdateHold.Hold(t.datalog, t.serial, REGISTER_21, bit, enable))
  }

  /** The write commands check for read-only, the switches do not. */
  function Process(c: Topics.Command, t: Target): Start
  {
    match c
    case ReadInputs(_, block) => Read(t, Packets.ReadInput, block * 40 % 0x1_0000, t.blockSize)
    case ReadInput(_, register, count) => Read(t, Packets.ReadInput, register, count)
    case ReadHold(_, register, count) => Read(t, Packets.ReadHold, register, count)
    case ReadParam(_, register) => Sends(Packets.ReadParam(t.datalog, register, []))
    case SetHold(_, register, value) =>
      if t.readOnly then Blocked
      else Sends(Packets.Translated(Packets.TranslatedData(
        t.datalog, Packets.WriteSingle, t.serial, register, LeBytes(value))))
    case WriteParam(_, register, value) =>
      if t.readOnly then Blocked else Sends(Packets.WriteParam(t.datalog, register, LeBytes(value)))
    case AcCharge(_, enable) => Switch(t, UpdateHold.AcChargeEnable, enable)
    case ChargePriority(_, enable) => Switch(t, UpdateHold.ChargePriorityEnable, enable)
    case ForcedDischarge(_, enable) => Switch(t, UpdateHold.ForcedDischargeEnable, enable)
    case _ => Elsewhere
  }

  function Run(parts: seq<string>, p: Topics.Payload, inverter: Topics.Inverter, t: Target): Option<Start>
  {
    match Topics.CommandOf(parts, p, inverter)
    case Success(c) => Some(Process(c, t))
    case Failure(_) => None
  }

  /** Setting a holding register stores the number of the payload in the register of the topic, and in
      no other, unless the inverter is read-only. */
  lemma SetHoldStores(
    register: u16, value: u16, json: Option<(string, string)>, inverter: Topics.Inverter, t: Target,
    regs: UpdateHold.Registers)
    ensures var start := Run(["set", "hold", Print(register)], Topics.Payload(Print(value), json), inverter, t);
      if t.readOnly then start == Some(Blocked)
      else
        && start.Some? && start.value.Sends?
        && UpdateHold.Served(regs, start.value.packet)
           == regs[UpdateHold.Place(t.datalog, register) := Word(LeBytes(value)[0], LeBytes(value)[1])]
  {
    ParsePrint(register);
    ParsePrint(value);
    var made := Topics.CommandOf(["set", "hold", Print(register)], Topics.Payload(Print(value), json), inverter);
    assert made == Success(Topics.SetHold(inverter, register, value));
  }

  /** Reading registers asks for those of the topic, as many as the payload says modulo 256, with the
      function of the topic; read-only or not. */
  lemma ReadAsks(
    hold: bool, register: u16, count: u16, json: Option<(string, string)>, inverter: Topics.Inverter, t: Target)
    ensures var what := if hold then "hold" else "input";
      var start := Run(["read", what, Print(register)], Topics.Payload(Print(count), json), inverter, t);
      && start.Some? && start.value.Sends? && start.value.packet.Translated?
      && var td := start.value.packet.td;
      && td.deviceFunction == (if hold then Packets.ReadHold else Packets.ReadInput)
      && td.datalog == t.datalog && td.inverter == t.serial && td.register == register
      && |td.values| == 2 && Le16(td.values[0], td.values[1]) == count % 256
  {
    var what := if hold then "hold" else "input";
    ParsePrint(register);
    ParsePrint(count);
    ByteRoundTrip(count % 256);
    var made := Topics.CommandOf(["read", what, Print(register)], Topics.Payload(Print(count), json), inverter);
    assert made == Success(if hold then Topics.ReadHold(inverter, register, count)
                           else Topics.ReadInput(inverter, register, count));
  }

  /** Parameters are asked for by number, and set to the number of the payload. */
  lemma ParamsAsk(
    register: u16, value: u16, json: Option<(string, string)>, inverter: Topics.Inverter, t: Target)
    ensures var p := Topics.Payload(Print(value), json);
      && Run(["read", "param", Print(register)], p, inverter, t)
         == Some(Sends(Packets.ReadParam(t.datalog, register, [])))
      && var start := Run(["set", "param", Print(register)], p, inverter, t);
      t.readOnly || (
        && start.Some? && start.value.Sends? && start.value.packet.WriteParam?
        && start.value.packet.datalog == t.datalog && start.value.packet.register == register
        && var v := start.value.packet.values;
        |v| == 2 && Le16(v[0], v[1]) == value)
  {
    ParsePrint(register);
    ParsePrint(value);
    LeRoundTrip(value);
    var p := Topics.Payload(Print(value), json);
    assert Topics.CommandOf(["read", "param", Print(register)], p, inverter)
      == Success(Topics.ReadParam(inverter, register));
    assert Topics.CommandOf(["set", "param", Print(register)], p, inverter)
      == Success(Topics.WriteParam(inverter, register, value));
  }

  /** A switch topic switches the bit of register 21 that is published under the same name, as the payload
      says; read-only or not. */
  lemma SwitchesItsBit(
    what: string, p: Topics.Payload, inverter: Topics.Inverter, t: Target, reg: bv16)
    requires what in ["ac_charge", "charge_priority", "forced_discharge"]
    ensures var start := Run(["set", what], p, inverter, t);
      && start.Some? && start.value.Switches?
      && var h := start.value.hold;
      var enable := Topics.PayloadBool(p);
      && h.datalog == t.datalog && h.inverter == t.serial && h.register == 21
      && UpdateHold.BitsOf(UpdateHold.NewValue(reg, h.bit, h.enable))
         == if what == "ac_charge" then UpdateHold.BitsOf(reg).(acChargeEn := enable)
            else if what == "charge_priority" then UpdateHold.BitsOf(reg).(chargePriorityEn := enable)
            else UpdateHold.BitsOf(reg).(forcedDischargeEn := enable)
  {
    var h := Run(["set", what], p, inverter, t).value.hold;
    UpdateHold.SwitchShows(reg, h.bit, h.enable, UpdateHold.NewValue(reg, h.bit, h.enable));
  }

  /** Read-only stops the two commands that set a number, and none of the others modelled here. */
  lemma BlockedIff(c: Topics.Command, t: Target)
    ensures Process(c, t) == Blocked <==> t.readOnly && (c.SetHold? || c.WriteParam?)
  {}

  /** The command for a block of inputs sends the request that is off by one. */
  lemma ReadInputsSends(inverter: Topics.Inverter, n: u16, t: Target)
    ensures Process(Topics.ReadInputs(inverter, n), t)
      == Sends(Sweep.ReadInputsRequest(Sweep.Inverter(t.datalog, t.serial), n, t.blockSize))
  {}
}
