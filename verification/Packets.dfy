/** The packets of the inverter protocol, as values. */
module Packets {
  import opened Bytes
  import opened Wrappers

  datatype DeviceFunction =
    | ReadHold
    | ReadInput
    | WriteSingle
    | WriteMulti
    | UpdatePrepare
    | UpdateSendData
    | UpdateReset
    | ReadHoldError
    | ReadInputError
    | WriteSingleError
    | WriteMultiError

  function FunctionCode(f: DeviceFunction): byte
  {
    match f
    case ReadHold => 0x03
    case ReadInput => 0x04
    case WriteSingle => 0x06
    case WriteMulti => 0x10
    case UpdatePrepare => 0x21
    case UpdateSendData => 0x22
    case UpdateReset => 0x23
    case ReadHoldError => 0x83
    case ReadInputError => 0x84
    case WriteSingleError => 0x86
    case WriteMultiError => 0x90
  }

  function FunctionOf(code: byte): (f: Option<DeviceFunction>)
    ensures f.Some? ==> FunctionCode(f.value) == code
    ensures f.None? ==> forall g :: FunctionCode(g) != code
  {
    if code == 0x03 then Some(ReadHold)
    else if code == 0x04 then Some(ReadInput)
    else if code == 0x06 then Some(WriteSingle)
    else if code == 0x10 then Some(WriteMulti)
    else if code == 0x21 then Some(UpdatePrepare)
    else if code == 0x22 then Some(UpdateSendData)
    else if code == 0x23 then Some(UpdateReset)
    else if code == 0x83 then Some(ReadHoldError)
    else if code == 0x84 then Some(ReadInputError)
    else if code == 0x86 then Some(WriteSingleError)
    else if code == 0x90 then Some(WriteMultiError)
    else None
  }

  /** The values stay undecoded: their width depends on the register. */
  datatype TranslatedData = TranslatedData(
    datalog: Serial,
    deviceFunction: DeviceFunction,
    inverter: Serial,
    register: u16,
    values: seq<byte>)

  datatype Packet =
    | Heartbeat(datalog: Serial)
    | Translated(td: TranslatedData)
    | ReadParam(datalog: Serial, register: u16, values: seq<byte>)
    | WriteParam(datalog: Serial, register: u16, values: seq<byte>)
  {
    function Datalog(): Serial
    {
      if Translated? then td.datalog else datalog
    }
  }

  /** Register numbers are 16 bits wide and wrap. */
  function RegisterAt(register: u16, i: nat): u16
  {
    (register + i) % 0x1_0000
  }

  /** The values read as little-endian words, each with its register. */
  function Pairs(register: u16, values: seq<byte>): (pairs: seq<(u16, bv16)>)
    requires |values| % 2 == 0
    ensures |pairs| == |values| / 2
  {
    seq(|values| / 2, i requires 0 <= i < |values| / 2 =>
      (RegisterAt(register, i), Word(values[2 * i], values[2 * i + 1])))
  }

  /** Two bytes at a time; a single byte at the end has no second one to read, which aborts. */
  method ComputePairs(register: u16, values: seq<byte>) returns (pairs: Option<seq<(u16, bv16)>>)
    ensures pairs == if |values| % 2 == 0 then Some(Pairs(register, values)) else None
  {
    var found: seq<(u16, bv16)> := [];
    var at := 0;
    while at < |values|
      invariant at == 2 * |found| && at <= |values|
      invariant forall i :: 0 <= i < |found| ==>
        found[i] == (RegisterAt(register, i), Word(values[2 * i], values[2 * i + 1]))
    {
      if at + 1 == |values| {
        return None;
      }
      found := found + [(RegisterAt(register, |found|), Word(values[at], values[at + 1]))];
      at := at + 2;
    }
    assert found == Pairs(register, values);
    return Some(found);
  }

  /** The words of a list of pairs, back in wire order. */
  function FlattenPairs(pairs: seq<(u16, bv16)>): seq<byte>
  {
    if pairs == [] then [] else WordBytes(pairs[0].1) + FlattenPairs(pairs[1..])
  }

  lemma PairsTail(register: u16, values: seq<byte>)
    requires |values| % 2 == 0 && values != []
    ensures Pairs(register, values)[1..] == Pairs(RegisterAt(register, 1), values[2..])
  {
    var next := RegisterAt(register, 1);
    forall i | 0 <= i < |values| / 2 - 1
      ensures Pairs(register, values)[1..][i] == Pairs(next, values[2..])[i]
    {
      assert RegisterAt(register, i + 1) == RegisterAt(next, i);
    }
  }

  /** Reading values as pairs loses no byte. */
  lemma {:induction false} FlattenRestores(register: u16, values: seq<byte>)
    requires |values| % 2 == 0
    ensures FlattenPairs(Pairs(register, values)) == values
    decreases |values|
  {
    if values != [] {
      PairsTail(register, values);
      FlattenRestores(RegisterAt(register, 1), values[2..]);
      WordBytesOfWord(values[0], values[1]);
      assert values == [values[0], values[1]] + values[2..];
    }
  }

  /** The first pair is for the given register, and each further one for the next; behind the last
      register comes the first. */
  lemma PairsNumbered(register: u16, values: seq<byte>, i: nat)
    requires |values| % 2 == 0 && i < |values| / 2
    ensures var pairs := Pairs(register, values);
      && (i == 0 ==> pairs[i].0 == register)
      && (i > 0 ==> pairs[i].0 == if pairs[i - 1].0 == 0xFFFF then 0 else pairs[i - 1].0 + 1)
  {}

  /** The codes of the MODBUS functions, and those of the firmware update behind each other; the code of
      an error reply is that of its request with the top bit set. */
  lemma Codes()
    ensures FunctionOf(3) == Some(ReadHold) && FunctionOf(4) == Some(ReadInput)
    ensures FunctionOf(6) == Some(WriteSingle) && FunctionOf(16) == Some(WriteMulti)
    ensures FunctionOf(33) == Some(UpdatePrepare)
    ensures FunctionCode(UpdateSendData) == FunctionCode(UpdatePrepare) + 1
    ensures FunctionCode(UpdateReset) == FunctionCode(UpdatePrepare) + 2
    ensures FunctionCode(ReadHoldError) == FunctionCode(ReadHold) + 0x80
    ensures FunctionCode(ReadInputError) == FunctionCode(ReadInput) + 0x80
    ensures FunctionCode(WriteSingleError) == FunctionCode(WriteSingle) + 0x80
    ensures FunctionCode(WriteMultiError) == FunctionCode(WriteMulti) + 0x80
  {}
}
