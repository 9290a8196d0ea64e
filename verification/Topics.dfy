/** Command topics: what a message asks for, and the topic that answers it. */
module Topics {
  import opened Bytes
  import opened Numbers
  import opened Texts
  import opened Wrappers

  datatype Error = BadTopic | BadSerial | BadNumber | BadPayload | Unhandled

  /** An inverter that has not told its datalog yet has none. */
  datatype Inverter = Inverter(datalog: Option<string>)

  datatype Command =
    | ReadInputs(inverter: Inverter, block: u16)
    | ReadInput(inverter: Inverter, register: u16, count: u16)
    | ReadHold(inverter: Inverter, register: u16, count: u16)
    | ReadParam(inverter: Inverter, register: u16)
    | ReadAcChargeTime(inverter: Inverter, num: u16)
    | ReadAcFirstTime(inverter: Inverter, num: u16)
    | ReadChargePriorityTime(inverter: Inverter, num: u16)
    | ReadForcedDischargeTime(inverter: Inverter, num: u16)
    | SetHold(inverter: Inverter, register: u16, value: u16)
    | WriteParam(inverter: Inverter, register: u16, value: u16)
    | SetAcChargeTime(inverter: Inverter, num: u16, times: seq<nat>)
    | SetAcFirstTime(inverter: Inverter, num: u16, times: seq<nat>)
    | SetChargePriorityTime(inverter: Inverter, num: u16, times: seq<nat>)
    | SetForcedDischargeTime(inverter: Inverter, num: u16, times: seq<nat>)
    | ChargeRate(inverter: Inverter, value: u16)
    | DischargeRate(inverter: Inverter, value: u16)
    | AcCharge(inverter: Inverter, enable: bool)
    | ChargePriority(inverter: Inverter, enable: bool)
    | ForcedDischarge(inverter: Inverter, enable: bool)
    | AcChargeRate(inverter: Inverter, value: u16)
    | AcChargeSocLimit(inverter: Inverter, value: u16)
    | DischargeCutoffSocLimit(inverter: Inverter, value: u16)

  /** A payload, and the start and end it holds when it is the JSON of a time slot. */
  datatype Payload = Payload(text: string, startEnd: Option<(string, string)>)

  datatype Message = Message(topic: string, payload: Payload)

  datatype TargetInverter = All | Serial(datalog: string)

  // Reading a topic.

  function SplitCmdTopic(topic: string): Result<(TargetInverter, seq<string>), Error>
  {
    var parts := Split(topic, '/');
    if |parts| < 2 then Failure(BadTopic)
    else if parts[1] == "all" then Success((All, parts[2..]))
    else if |parts[1]| == 10 then Success((Serial(parts[1]), parts[2..]))
    else Failure(BadSerial)
  }

  function ToLower(s: string): string
  {
    seq(|s|, i requires 0 <= i < |s| =>
      if 'A' <= s[i] <= 'Z' then (s[i] as int - 'A' as int + 'a' as int) as char else s[i])
  }

  function PayloadBool(p: Payload): bool
  {
    ToLower(p.text) in ["1", "t", "true", "on", "y", "yes"]
  }

  function PayloadInt(p: Payload): Option<u16>
  {
    ParseU16(p.text, 10)
  }

  function PayloadIntOr1(p: Payload): u16
  {
    match PayloadInt(p) case Some(n) => n case None => 1
  }

  function PayloadStartEndTime(p: Payload): Option<seq<nat>>
  {
    if p.startEnd.None? then None
    else
      var start, end := Split(p.startEnd.value.0, ':'), Split(p.startEnd.value.1, ':');
      if |start| != 2 || |end| != 2 then None
      else
        var a, b, c, d := ParseU8(start[0]), ParseU8(start[1]), ParseU8(end[0]), ParseU8(end[1]);
        if a.None? || b.None? || c.None? || d.None? then None else Some([a.value, b.value, c.value, d.value])
  }

  /** The number comes first: a bad one is reported whatever the payload. */
  function Numbered(text: string, make: u16 -> Result<Command, Error>): Result<Command, Error>
  {
    var n := ParseU16(text, 10);
    if n.None? then Failure(BadNumber) else make(n.value)
  }

  function WithInt(p: Payload, make: u16 -> Command): Result<Command, Error>
  {
    var n := PayloadInt(p);
    if n.None? then Failure(BadPayload) else Success(make(n.value))
  }

  function WithTimes(p: Payload, make: seq<nat> -> Command): Result<Command, Error>
  {
    var times := PayloadStartEndTime(p);
    if times.None? then Failure(BadPayload) else Success(make(times.value))
  }

  function ReadCommand(what: string, arg: string, p: Payload, inverter: Inverter): Result<Command, Error>
  {
    if what == "inputs" then
      if arg == "1" then Success(ReadInputs(inverter, 1))
      else if arg == "2" then Success(ReadInputs(inverter, 2))
      else if arg == "3" then Success(ReadInputs(inverter, 3))
      else if arg == "4" then Success(ReadInputs(inverter, 4))
      else if arg == "5" then Success(ReadInputs(inverter, 5))
      else if arg == "6" then Success(ReadInputs(inverter, 6))
      else Failure(Unhandled)
    else if what == "input" then
      Numbered(arg, (n: u16) => Success(ReadInput(inverter, n, PayloadIntOr1(p))))
    else if what == "hold" then
      Numbered(arg, (n: u16) => Success(ReadHold(inverter, n, PayloadIntOr1(p))))
    else if what == "param" then Numbered(arg, (n: u16) => Success(ReadParam(inverter, n)))
    else if what == "ac_charge" then Numbered(arg, (n: u16) => Success(ReadAcChargeTime(inverter, n)))
    else if what == "ac_first" then Numbered(arg, (n: u16) => Success(ReadAcFirstTime(inverter, n)))
    else if what == "charge_priority" then Numbered(arg, (n: u16) => Success(ReadChargePriorityTime(inverter, n)))
    else if what == "forced_discharge" then Numbered(arg, (n: u16) => Success(ReadForcedDischargeTime(inverter, n)))
    else Failure(Unhandled)
  }

  function SetNumberedCommand(what: string, arg: string, p: Payload, inverter: Inverter): Result<Command, Error>
  {
    if what == "hold" then Numbered(arg, (n: u16) => WithInt(p, (v: u16) => SetHold(inverter, n, v)))
    else if what == "param" then Numbered(arg, (n: u16) => WithInt(p, (v: u16) => WriteParam(inverter, n, v)))
    else if what == "ac_charge" then Numbered(arg, (n: u16) => WithTimes(p, (t: seq<nat>) => SetAcChargeTime(inverter, n, t)))
    else if what == "ac_first" then Numbered(arg, (n: u16) => WithTimes(p, (t: seq<nat>) => SetAcFirstTime(inverter, n, t)))
    else if what == "charge_priority" then
      Numbered(arg, (n: u16) => WithTimes(p, (t: seq<nat>) => SetChargePriorityTime(inverter, n, t)))
    else if what == "forced_discharge" then
      Numbered(arg, (n: u16) => WithTimes(p, (t: seq<nat>) => SetForcedDischargeTime(inverter, n, t)))
    else Failure(Unhandled)
  }

  function SetPercentage(what: string, p: Payload, inverter: Inverter): Result<Command, Error>
  {
    if what == "charge_rate_pct" then WithInt(p, (v: u16) => ChargeRate(inverter, v))
    else if what == "discharge_rate_pct" then WithInt(p, (v: u16) => DischargeRate(inverter, v))
    else if what == "ac_charge_rate_pct" then WithInt(p, (v: u16) => AcChargeRate(inverter, v))
    else if what == "ac_charge_soc_limit_pct" then WithInt(p, (v: u16) => AcChargeSocLimit(inverter, v))
    else if what == "discharge_cutoff_soc_limit_pct" then WithInt(p, (v: u16) => DischargeCutoffSocLimit(inverter, v))
    else Failure(Unhandled)
  }

  function SetCommand(what: string, p: Payload, inverter: Inverter): Result<Command, Error>
  {
    if what == "ac_charge" then Success(AcCharge(inverter, PayloadBool(p)))
    else if what == "charge_priority" then Success(ChargePriority(inverter, PayloadBool(p)))
    else if what == "forced_discharge" then Success(ForcedDischarge(inverter, PayloadBool(p)))
    else SetPercentage(what, p, inverter)
  }

  function CommandOf(parts: seq<string>, p: Payload, inverter: Inverter): Result<Command, Error>
  {
    if |parts| == 3 && parts[0] == "read" then ReadCommand(parts[1], parts[2], p, inverter)
    else if |parts| == 3 && parts[0] == "set" then SetNumberedCommand(parts[1], parts[2], p, inverter)
    else if |parts| == 2 && parts[0] == "set" then SetCommand(parts[1], p, inverter)
    else Failure(Unhandled)
  }

  function ToCommand(m: Message, inverter: Inverter): Result<Command, Error>
  {
    var split := SplitCmdTopic(m.topic);
    if split.Failure? then Failure(split.error) else CommandOf(split.value.1, m.payload, inverter)
  }

  // Printing the answer's topic.

  predicate Reads(c: Command)
  {
    || c.ReadInputs? || c.ReadInput? || c.ReadHold? || c.ReadParam?
    || c.ReadAcChargeTime? || c.ReadAcFirstTime? || c.ReadChargePriorityTime? || c.ReadForcedDischargeTime?
  }

  function Percentage(c: Command): string
  {
    match c
    case ChargeRate(_, _) => "charge_rate_pct"
    case DischargeRate(_, _) => "discharge_rate_pct"
    case AcChargeRate(_, _) => "ac_charge_rate_pct"
    case AcChargeSocLimit(_, _) => "ac_charge_soc_limit_pct"
    case DischargeCutoffSocLimit(_, _) => "discharge_cutoff_soc_limit_pct"
    case _ => ""
  }

  function What(c: Command): string
  {
    match c
    case ReadInputs(_, _) => "inputs"
    case ReadInput(_, _, _) => "input"
    case ReadHold(_, _, _) | SetHold(_, _, _) => "hold"
    case ReadParam(_, _) | WriteParam(_, _, _) => "param"
    case ReadAcChargeTime(_, _) | SetAcChargeTime(_, _, _) | AcCharge(_, _) => "ac_charge"
    case ReadAcFirstTime(_, _) | SetAcFirstTime(_, _, _) => "ac_first"
    case ReadChargePriorityTime(_, _) | SetChargePriorityTime(_, _, _) | ChargePriority(_, _) => "charge_priority"
    case ReadForcedDischargeTime(_, _) | SetForcedDischargeTime(_, _, _) | ForcedDischarge(_, _) =>
      "forced_discharge"
    case _ => Percentage(c)
  }

  /** The number in the topic, for the commands that have one. */
  function Arg(c: Command): Option<u16>
  {
    match c
    case ReadInputs(_, n) => Some(n)
    case ReadInput(_, n, _) => Some(n)
    case ReadHold(_, n, _) => Some(n)
    case ReadParam(_, n) => Some(n)
    case ReadAcChargeTime(_, n) => Some(n)
    case ReadAcFirstTime(_, n) => Some(n)
    case ReadChargePriorityTime(_, n) => Some(n)
    case ReadForcedDischargeTime(_, n) => Some(n)
    case SetHold(_, n, _) => Some(n)
    case WriteParam(_, n, _) => Some(n)
    case SetAcChargeTime(_, n, _) => Some(n)
    case SetAcFirstTime(_, n, _) => Some(n)
    case SetChargePriorityTime(_, n, _) => Some(n)
    case SetForcedDischargeTime(_, n, _) => Some(n)
    case _ => None
  }

  function Path(c: Command): seq<string>
  {
    [if Reads(c) then "read" else "set", What(c)] + (if Arg(c).Some? then [Print(Arg(c).value)] else [])
  }

  function DatalogText(inverter: Inverter): string
  {
    match inverter.datalog case Some(d) => d case None => ""
  }

  function ToResultTopic(c: Command): string
  {
    Join(["result", DatalogText(c.inverter)] + Path(c), '/')
  }

  /** The number in a path, where there is one, is in plain decimal. */
  predicate PlainNumber(parts: seq<string>)
  {
    |parts| == 3 ==> Canonical(parts[2])
  }

  lemma ReadPath(what: string, arg: string, p: Payload, inverter: Inverter)
    requires ReadCommand(what, arg, p, inverter).Success?
    ensures var c := ReadCommand(what, arg, p, inverter).value;
      c.inverter == inverter && Reads(c) && What(c) == what && Arg(c) == ParseU16(arg, 10) && Arg(c).Some?
  {
    var c := ReadCommand(what, arg, p, inverter).value;
    if what == "inputs" {
      assert arg == Print(c.block);
      ParsePrint(c.block);
    }
  }

  lemma SetNumberedPath(what: string, arg: string, p: Payload, inverter: Inverter)
    requires SetNumberedCommand(what, arg, p, inverter).Success?
    ensures var c := SetNumberedCommand(what, arg, p, inverter).value;
      c.inverter == inverter && !Reads(c) && What(c) == what && Arg(c) == ParseU16(arg, 10) && Arg(c).Some?
  {}

  lemma SetPercentagePath(what: string, p: Payload, inverter: Inverter)
    requires SetPercentage(what, p, inverter).Success?
    ensures var c := SetPercentage(what, p, inverter).value;
      && c.inverter == inverter && Percentage(c) == what
      && (c.ChargeRate? || c.DischargeRate? || c.AcChargeRate? || c.AcChargeSocLimit? || c.DischargeCutoffSocLimit?)
  {
    var c := SetPercentage(what, p, inverter).value;
    match c
    case ChargeRate(_, _) => assert what == "charge_rate_pct";
    case DischargeRate(_, _) => assert what == "discharge_rate_pct";
    case AcChargeRate(_, _) => assert what == "ac_charge_rate_pct";
    case AcChargeSocLimit(_, _) => assert what == "ac_charge_soc_limit_pct";
    case DischargeCutoffSocLimit(_, _) => assert what == "discharge_cutoff_soc_limit_pct";
    case _ => assert false;
  }

  lemma SetPath(what: string, p: Payload, inverter: Inverter)
    requires SetCommand(what, p, inverter).Success?
    ensures var c := SetCommand(what, p, inverter).value;
      c.inverter == inverter && !Reads(c) && What(c) == what && Arg(c).None?
  {
    if SetCommand(what, p, inverter) == SetPercentage(what, p, inverter) {
      SetPercentagePath(what, p, inverter);
    }
  }

  /** A command's path is the path it was read from, exactly when that is written plainly. */
  lemma PathMirrors(parts: seq<string>, p: Payload, inverter: Inverter)
    requires CommandOf(parts, p, inverter).Success?
    ensures var c := CommandOf(parts, p, inverter).value;
      c.inverter == inverter && (Path(c) == parts <==> PlainNumber(parts))
  {
    if |parts| == 2 {
      SetPath(parts[1], p, inverter);
      assert parts == ["set", parts[1]] + [];
    } else {
      assert parts == [parts[0], parts[1]] + [parts[2]];
      if parts[0] == "read" {
        ReadPath(parts[1], parts[2], p, inverter);
      } else {
        SetNumberedPath(parts[1], parts[2], p, inverter);
      }
      PrintParse(parts[2]);
    }
  }

  lemma PercentageHasNoSlash(c: Command)
    ensures '/' !in Percentage(c)
  {}

  lemma PathHasNoSlash(c: Command)
    ensures Path(c) != [] && forall part :: part in Path(c) ==> '/' !in part
  {
    PercentageHasNoSlash(c);
  }

  lemma SplitTopic(head: string, target: string, rest: string)
    requires '/' !in head && '/' !in target
    ensures Split(head + "/" + target + "/" + rest, '/') == [head, target] + Split(rest, '/')
  {
    var tail := target + ['/'] + rest;
    assert head + "/" + target + "/" + rest == head + ['/'] + tail;
    SplitPart(head, tail, '/');
    SplitPart(target, rest, '/');
  }

  lemma SplitShortTopic(head: string, target: string)
    requires '/' !in head && '/' !in target
    ensures Split(head, '/') == [head] && Split(head + "/" + target, '/') == [head, target]
  {
    assert head + "/" + target == head + ['/'] + target;
    SplitPart(head, target, '/');
    SplitPart(target, "", '/');
  }

  function TargetOf(target: string, rest: seq<string>): Result<(TargetInverter, seq<string>), Error>
  {
    if target == "all" then Success((All, rest))
    else if |target| == 10 then Success((Serial(target), rest))
    else Failure(BadSerial)
  }

  /** Whom a topic is for: behind its first part, whatever that is, all inverters or a datalog of ten
      characters, and the rest of the parts, if any. */
  lemma WhomFor(head: string, target: string, rest: string)
    requires '/' !in head && '/' !in target
    ensures SplitCmdTopic(head) == Failure(BadTopic)
    ensures SplitCmdTopic(head + "/" + target) == TargetOf(target, [])
    ensures SplitCmdTopic(head + "/" + target + "/" + rest) == TargetOf(target, Split(rest, '/'))
  {
    SplitShortTopic(head, target);
    SplitTopic(head, target, rest);
    assert [head, target][2..] == [];
    assert ([head, target] + Split(rest, '/'))[2..] == Split(rest, '/');
  }

  lemma JoinThree(a: string, b: string, parts: seq<string>)
    requires parts != []
    ensures Join([a, b] + parts, '/') == a + "/" + b + "/" + Join(parts, '/')
  {
    var all := [a, b] + parts;
    assert all[1..] == [b] + parts;
    assert all[1..][1..] == parts;
  }

  lemma SameTail(prefix: string, x: string, y: string)
    ensures prefix + x == prefix + y <==> x == y
  {
    assert (prefix + x)[|prefix|..] == x && (prefix + y)[|prefix|..] == y;
  }

  lemma JoinIs(parts: seq<string>, s: string)
    requires parts != [] && forall part :: part in parts ==> '/' !in part
    ensures Join(parts, '/') == s <==> parts == Split(s, '/')
  {
    JoinSplit(s, '/');
    SplitJoin(parts, '/');
  }

  function ResultTopicFor(inverter: Inverter, rest: string): string
  {
    "result" + "/" + DatalogText(inverter) + "/" + rest
  }

  lemma ResultTopicOf(c: Command)
    ensures ToResultTopic(c) == ResultTopicFor(c.inverter, Join(Path(c), '/'))
  {
    PathHasNoSlash(c);
    JoinThree("result", DatalogText(c.inverter), Path(c));
  }

  /** The answer to an accepted topic head/target/rest goes to result/datalog/rest, if and only if
      the number in rest, if any, has neither sign nor needless zeros. */
  lemma ResultMirrorsCommand(head: string, target: string, rest: string, p: Payload, inverter: Inverter)
    requires '/' !in head && '/' !in target
    requires ToCommand(Message(head + "/" + target + "/" + rest, p), inverter).Success?
    ensures var c := ToCommand(Message(head + "/" + target + "/" + rest, p), inverter).value;
      ToResultTopic(c) == ResultTopicFor(inverter, rest) <==> PlainNumber(Split(rest, '/'))
  {
    var parts := Split(rest, '/');
    var c := ToCommand(Message(head + "/" + target + "/" + rest, p), inverter).value;
    SplitTopic(head, target, rest);
    assert ([head, target] + parts)[2..] == parts;
    assert CommandOf(parts, p, inverter) == Success(c);
    PathMirrors(parts, p, inverter);
    PathHasNoSlash(c);
    ResultTopicOf(c);
    JoinIs(Path(c), rest);
    SameTail("result" + "/" + DatalogText(inverter) + "/", Join(Path(c), '/'), rest);
  }

  // What a payload becomes.

  function ValueOf(c: Command): Option<u16>
  {
    match c
    case SetHold(_, _, v) => Some(v)
    case WriteParam(_, _, v) => Some(v)
    case ChargeRate(_, v) => Some(v)
    case DischargeRate(_, v) => Some(v)
    case AcChargeRate(_, v) => Some(v)
    case AcChargeSocLimit(_, v) => Some(v)
    case DischargeCutoffSocLimit(_, v) => Some(v)
    case _ => None
  }

  function CountOf(c: Command): Option<u16>
  {
    match c
    case ReadInput(_, _, count) => Some(count)
    case ReadHold(_, _, count) => Some(count)
    case _ => None
  }

  function TimesOf(c: Command): Option<seq<nat>>
  {
    match c
    case SetAcChargeTime(_, _, t) => Some(t)
    case SetAcFirstTime(_, _, t) => Some(t)
    case SetChargePriorityTime(_, _, t) => Some(t)
    case SetForcedDischargeTime(_, _, t) => Some(t)
    case _ => None
  }

  function SwitchOf(c: Command): Option<bool>
  {
    match c
    case AcCharge(_, enable) => Some(enable)
    case ChargePriority(_, enable) => Some(enable)
    case ForcedDischarge(_, enable) => Some(enable)
    case _ => None
  }

  /** A command's value, count, times and switch are those of the payload. */
  predicate FromPayload(c: Command, p: Payload)
  {
    && (ValueOf(c).Some? ==> ValueOf(c) == ParseU16(p.text, 10))
    && (CountOf(c).Some? ==> CountOf(c) == if ParseU16(p.text, 10).Some? then ParseU16(p.text, 10) else Some(1))
    && (TimesOf(c).Some? ==> TimesOf(c) == PayloadStartEndTime(p))
    && (SwitchOf(c).Some? ==> SwitchOf(c) == Some(PayloadBool(p)))
  }

  lemma ReadPayload(what: string, arg: string, p: Payload, inverter: Inverter)
    requires ReadCommand(what, arg, p, inverter).Success?
    ensures FromPayload(ReadCommand(what, arg, p, inverter).value, p)
  {}

  lemma SetNumberedPayload(what: string, arg: string, p: Payload, inverter: Inverter)
    requires SetNumberedCommand(what, arg, p, inverter).Success?
    ensures FromPayload(SetNumberedCommand(what, arg, p, inverter).value, p)
  {}

  lemma SetPayload(what: string, p: Payload, inverter: Inverter)
    requires SetCommand(what, p, inverter).Success?
    ensures FromPayload(SetCommand(what, p, inverter).value, p)
  {
    if SetCommand(what, p, inverter) == SetPercentage(what, p, inverter) {
      SetPercentagePayload(what, p, inverter);
    }
  }

  lemma SetPercentagePayload(what: string, p: Payload, inverter: Inverter)
    requires SetPercentage(what, p, inverter).Success?
    ensures FromPayload(SetPercentage(what, p, inverter).value, p)
  {}

  /** The payload decides what the topic leaves open: a number to set, or how many registers to read, one
      if it is no number; a time slot; a switch. */
  lemma PayloadDecides(parts: seq<string>, p: Payload, inverter: Inverter)
    requires CommandOf(parts, p, inverter).Success?
    ensures FromPayload(CommandOf(parts, p, inverter).value, p)
  {
    if |parts| == 2 {
      SetPayload(parts[1], p, inverter);
    } else if parts[0] == "read" {
      ReadPayload(parts[1], parts[2], p, inverter);
    } else {
      SetNumberedPayload(parts[1], parts[2], p, inverter);
    }
  }

  /** Hours and minutes, written with a colon between, come out in order. */
  lemma TimesRoundTrip(text: string, a: u16, b: u16, c: u16, d: u16)
    requires a <= 255 && b <= 255 && c <= 255 && d <= 255
    ensures PayloadStartEndTime(Payload(text, Some((Print(a) + ":" + Print(b), Print(c) + ":" + Print(d)))))
      == Some([a, b, c, d])
  {
    TimeSplits(a, b);
    TimeSplits(c, d);
    ParseU8Print(a);
    ParseU8Print(b);
    ParseU8Print(c);
    ParseU8Print(d);
  }

  lemma TimeSplits(a: u16, b: u16)
    ensures Split(Print(a) + ":" + Print(b), ':') == [Print(a), Print(b)]
  {
    SplitPart(Print(a), Print(b), ':');
    SplitPart(Print(b), "", ':');
  }

  /** Capitals make no difference to a switch. */
  lemma SwitchIgnoresCase(text: string, json: Option<(string, string)>)
    ensures PayloadBool(Payload(Upper(text), json)) == PayloadBool(Payload(text, json))
  {
    assert ToLower(Upper(text)) == ToLower(text);
  }

  /** Six words switch on, and everything else switches off. */
  lemma SixWords(text: string, json: Option<(string, string)>)
    ensures PayloadBool(Payload(text, json))
      <==> || (|text| == 1 && text[0] in {'1', 't', 'T', 'y', 'Y'})
           || ToLower(text) == "on" || ToLower(text) == "yes" || ToLower(text) == "true"
  {
    var lower := ToLower(text);
    if |text| == 1 {
      assert lower == [lower[0]];
      assert lower == "1" <==> lower[0] == '1';
      assert lower == "t" <==> lower[0] == 't';
      assert lower == "y" <==> lower[0] == 'y';
    }
  }
}
