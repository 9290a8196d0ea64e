/**
 The six blocks of input registers and the row assembled from them. A block keeps the fields that
 derivation and validation look at; `others` stands for everything that is copied along unread.
 Powers are in watts, frequencies in hundredths of a hertz, voltages in tenths of a volt and
 energies in tenths of a kilowatt-hour, as they travel.
 */
module Inputs {
  import opened Bytes
  import opened Packets
  import opened Wrappers

  type i8 = n: int | -128 <= n < 128
  type u32 = n: nat | n < 0x1_0000_0000

  datatype Block1 = Block1(
    soc: i8, soh: i8,
    pPv: u16, pPv1: u16, pPv2: u16, pPv3: u16,
    pBattery: int, pCharge: u16, pDischarge: u16,
    fAc: u16, fEps: u16,
    pGrid: int, pToGrid: u16, pToUser: u16,
    ePvDay: nat, ePvDay1: u16, ePvDay2: u16, ePvDay3: u16,
    datalog: Serial, others: nat)

  datatype Block2 = Block2(
    ePvAll: nat, ePvAll1: u32, ePvAll2: u32, ePvAll3: u32,
    datalog: Serial, others: nat)

  datatype Block3 = Block3(datalog: Serial, others: nat)

  datatype Block4 = Block4(vGen: u16, fGen: u16, pGen: u16, datalog: Serial, others: nat)

  datatype Block5 = Block5(datalog: Serial, others: nat)

  datatype Block6 = Block6(registers: seq<bv16>, datalog: Serial)

  datatype Row = Row(
    soc: i8, soh: i8,
    pPv: u16, pPv1: u16, pPv2: u16, pPv3: u16,
    pBattery: int, pCharge: u16, pDischarge: u16,
    fAc: u16, fEps: u16,
    pGrid: int, pToGrid: u16, pToUser: u16,
    ePvDay: nat, ePvDay1: u16, ePvDay2: u16, ePvDay3: u16,
    ePvAll: nat, ePvAll1: u32, ePvAll2: u32, ePvAll3: u32,
    vGen: u16, fGen: u16, pGen: u16,
    genPowerFactor: u16, genCurrent: u16, vBusHalf: u16,
    datalog: Serial,
    others1: nat, others2: nat, others3: nat, others4: nat, others5: nat, registers6: seq<bv16>)

  /** A decoded reading: the whole row at once, or one block of it. */
  datatype Input =
    | All(row: Row)
    | One(b1: Block1)
    | Two(b2: Block2)
    | Three(b3: Block3)
    | Four(b4: Block4)
    | Five(b5: Block5)
    | Six(b6: Block6)
  {
    function Kind(): (k: nat)
      ensures k <= 6
    {
      match this
      case All(_) => 0
      case One(_) => 1
      case Two(_) => 2
      case Three(_) => 3
      case Four(_) => 4
      case Five(_) => 5
      case Six(_) => 6
    }

    function Datalog(): Serial
    {
      match this
      case All(r) => r.datalog
      case One(b) => b.datalog
      case Two(b) => b.datalog
      case Three(b) => b.datalog
      case Four(b) => b.datalog
      case Five(b) => b.datalog
      case Six(b) => b.datalog
    }
  }

  /** Addition in 16 bits that reports overflow. */
  function CheckedAdd(a: u16, b: u16): Option<u16>
  {
    if a + b < 0x1_0000 then Some(a + b) else None
  }

  function CheckedSum3(a: u16, b: u16, c: u16): (r: Option<u16>)
    ensures r == if a + b + c < 0x1_0000 then Some(a + b + c) else None
  {
    var ab := CheckedAdd(a, b);
    if ab.None? then None else CheckedAdd(ab.value, c)
  }

  // Accepting what the block layouts produce: derived fields are filled in, or the block is refused.

  function AcceptAll(raw: Row, datalog: Serial): Option<Row>
  {
    var sum := CheckedSum3(raw.pPv1, raw.pPv2, raw.pPv3);
    if sum.None? then None
    else Some(raw.(
      pPv := sum.value,
      pGrid := raw.pToUser - raw.pToGrid,
      pBattery := raw.pCharge - raw.pDischarge,
      ePvDay := raw.ePvDay1 + raw.ePvDay2 + raw.ePvDay3,
      ePvAll := raw.ePvAll1 + raw.ePvAll2 + raw.ePvAll3,
      datalog := datalog))
  }

  function AcceptOne(raw: Block1, datalog: Serial): Option<Block1>
  {
    var sum := CheckedSum3(raw.pPv1, raw.pPv2, raw.pPv3);
    if sum.None? then None
    else Some(raw.(
      pPv := sum.value,
      pGrid := raw.pToUser - raw.pToGrid,
      pBattery := raw.pCharge - raw.pDischarge,
      ePvDay := raw.ePvDay1 + raw.ePvDay2 + raw.ePvDay3,
      datalog := datalog))
  }

  function AcceptTwo(raw: Block2, datalog: Serial): Block2
  {
    raw.(ePvAll := raw.ePvAll1 + raw.ePvAll2 + raw.ePvAll3, datalog := datalog)
  }

  /** The byte layouts of the blocks, each of which may refuse its bytes. Block 6 has none: it is
      read register by register. */
  datatype Layouts = Layouts(
    all: seq<byte> -> Option<Row>,
    one: seq<byte> -> Option<Block1>,
    two: seq<byte> -> Option<Block2>,
    three: seq<byte> -> Option<Block3>,
    four: seq<byte> -> Option<Block4>,
    five: seq<byte> -> Option<Block5>)

  const SIX_REGISTERS := 20

  function SixRegisters(values: seq<byte>): (registers: seq<bv16>)
    ensures |registers| == SIX_REGISTERS
  {
    seq(SIX_REGISTERS, i requires 0 <= i < SIX_REGISTERS =>
      if 2 * i + 1 < |values| then Word(values[2 * i], values[2 * i + 1]) else 0)
  }

  /** Block 6 is filled field by field from the register pairs; missing registers stay zero and
      surplus ones are ignored. Without pairs it aborts. */
  method ReadInput6(td: TranslatedData) returns (block: Option<Block6>)
    ensures block == if |td.values| % 2 == 0 then Some(Block6(SixRegisters(td.values), td.datalog)) else None
  {
    var input: seq<bv16> := seq(SIX_REGISTERS, _ => 0);
    var computed := ComputePairs(td.register, td.values);
    if computed.None? {
      return None;
    }
    var pairs := computed.value;
    for i := 0 to |pairs|
      invariant |input| == SIX_REGISTERS
      invariant forall k :: 0 <= k < SIX_REGISTERS ==> input[k] == if k < i then pairs[k].1 else 0
    {
      if i < SIX_REGISTERS {
        input := input[i := pairs[i].1];
      }
    }
    assert input == SixRegisters(td.values);
    block := Some(Block6(input, td.datalog));
  }

  /** Reading block 6 from an odd number of bytes runs off their end and aborts. */
  predicate Aborts(td: TranslatedData)
  {
    td.register == 200 && 2 <= |td.values| <= 80 && |td.values| % 2 == 1
  }

  /** Which block a reply is, by first register and length. */
  function ReadInput(td: TranslatedData, layouts: Layouts): (r: Option<Input>)
    requires !Aborts(td)
  {
    var values, datalog, n := td.values, td.datalog, |td.values|;
    if n < 2 then None
    else if td.register == 0 && n == 254 then
      var raw := layouts.all(values);
      if raw.None? then None
      else
        var row := AcceptAll(raw.value, datalog);
        if row.None? then None else Some(All(row.value))
    else if n > 80 then None
    else if td.register == 0 then
      var raw := layouts.one(values);
      if raw.None? then None
      else
        var block := AcceptOne(raw.value, datalog);
        if block.None? then None else Some(One(block.value))
    else if td.register == 40 then
      if n < 80 then None
      else
        var raw := layouts.two(values);
        if raw.None? then None else Some(Two(AcceptTwo(raw.value, datalog)))
    else if td.register == 80 then
      var raw := layouts.three(values);
      if raw.None? then None else Some(Three(raw.value.(datalog := datalog)))
    else if td.register == 120 then
      var raw := layouts.four(values);
      if raw.None? then None else Some(Four(raw.value.(datalog := datalog)))
    else if td.register == 160 then
      var raw := layouts.five(values);
      if raw.None? then None else Some(Five(raw.value.(datalog := datalog)))
    else if td.register == 200 then Some(Six(Block6(SixRegisters(values), datalog)))
    else None
  }

  datatype Parsed = Read(input: Input) | Refused | Aborted

  method ParseInput(td: TranslatedData, layouts: Layouts) returns (r: Parsed)
    ensures r.Aborted? <==> Aborts(td)
    ensures !Aborts(td) ==> match ReadInput(td, layouts)
      case Some(input) => r == Read(input)
      case None => r == Refused
  {
    if td.register == 200 && 2 <= |td.values| <= 80 {
      var block := ReadInput6(td);
      return if block.Some? then Read(Six(block.value)) else Aborted;
    }
    var input := ReadInput(td, layouts);
    return if input.Some? then Read(input.value) else Refused;
  }

  /** What acceptance guarantees: the derived fields are those of the fields they derive from. */
  predicate Accepted(i: Input)
  {
    match i
    case All(r) =>
      && r.pPv == r.pPv1 + r.pPv2 + r.pPv3
      && r.pGrid == r.pToUser - r.pToGrid
      && r.pBattery == r.pCharge - r.pDischarge
      && r.ePvDay == r.ePvDay1 + r.ePvDay2 + r.ePvDay3
      && r.ePvAll == r.ePvAll1 + r.ePvAll2 + r.ePvAll3
    case One(b) =>
      && b.pPv == b.pPv1 + b.pPv2 + b.pPv3
      && b.pGrid == b.pToUser - b.pToGrid
      && b.pBattery == b.pCharge - b.pDischarge
      && b.ePvDay == b.ePvDay1 + b.ePvDay2 + b.ePvDay3
    case Two(b) => b.ePvAll == b.ePvAll1 + b.ePvAll2 + b.ePvAll3
    case _ => true
  }

  /** Every reading is accepted and bears the datalog of the packet it came in. */
  lemma ReadInputAccepted(td: TranslatedData, layouts: Layouts)
    requires !Aborts(td) && ReadInput(td, layouts).Some?
    ensures Accepted(ReadInput(td, layouts).value)
    ensures ReadInput(td, layouts).value.Datalog() == td.datalog
  {}

  /** Which bytes make which reading: the first register and the number of bytes choose the layout, which
      must take the bytes; power must not overflow; and besides the fields that are derived and the
      datalog, everything is as the layout has it. */
  predicate ReadsAs(td: TranslatedData, layouts: Layouts, i: Input)
  {
    var v, n := td.values, |td.values|;
    && i.Datalog() == td.datalog && Accepted(i)
    && match i
       case All(r) =>
         && td.register == 0 && n == 254 && layouts.all(v).Some?
         && var raw := layouts.all(v).value;
         && raw.pPv1 + raw.pPv2 + raw.pPv3 <= 65535
         && r.(pPv := raw.pPv, pGrid := raw.pGrid, pBattery := raw.pBattery,
               ePvDay := raw.ePvDay, ePvAll := raw.ePvAll, datalog := raw.datalog) == raw
       case One(b) =>
         && td.register == 0 && 2 <= n <= 80 && layouts.one(v).Some?
         && var raw := layouts.one(v).value;
         && raw.pPv1 + raw.pPv2 + raw.pPv3 <= 65535
         && b.(pPv := raw.pPv, pGrid := raw.pGrid, pBattery := raw.pBattery,
               ePvDay := raw.ePvDay, datalog := raw.datalog) == raw
       case Two(b) =>
         && td.register == 40 && n == 80 && layouts.two(v).Some?
         && var raw := layouts.two(v).value;
         b.(ePvAll := raw.ePvAll, datalog := raw.datalog) == raw
       case Three(b) =>
         && td.register == 80 && 2 <= n <= 80 && layouts.three(v).Some?
         && b.others == layouts.three(v).value.others
       case Four(b) =>
         && td.register == 120 && 2 <= n <= 80 && layouts.four(v).Some?
         && b.(datalog := layouts.four(v).value.datalog) == layouts.four(v).value
       case Five(b) =>
         && td.register == 160 && 2 <= n <= 80 && layouts.five(v).Some?
         && b.others == layouts.five(v).value.others
       case Six(b) =>
         && td.register == 200 && 2 <= n <= 80 && n % 2 == 0
         && b.registers == (seq(n / 2, k requires 0 <= k < n / 2 => Word(v[2 * k], v[2 * k + 1]))
                            + seq(20, _ => 0 as bv16))[..20]
  }

  lemma ReadInputIff(td: TranslatedData, layouts: Layouts, i: Input)
    requires !Aborts(td)
    ensures ReadInput(td, layouts) == Some(i) <==> ReadsAs(td, layouts, i)
  {
    if td.register == 200 && 2 <= |td.values| <= 80 {
      SixAreTheWords(td.values);
    }
  }

  lemma SixAreTheWords(v: seq<byte>)
    requires |v| % 2 == 0
    ensures SixRegisters(v)
      == (seq(|v| / 2, k requires 0 <= k < |v| / 2 => Word(v[2 * k], v[2 * k + 1])) + seq(20, _ => 0 as bv16))[..20]
  {}

  // Assembling, deriving, validating.

  datatype Slots = Slots(
    r1: Option<Block1>, r2: Option<Block2>, r3: Option<Block3>,
    r4: Option<Block4>, r5: Option<Block5>, r6: Option<Block6>)
  {
    predicate Full()
    {
      r1.Some? && r2.Some? && r3.Some? && r4.Some? && r5.Some? && r6.Some?
    }
  }

  const EMPTY := Slots(None, None, None, None, None, None)

  /** The row as copied from the blocks. Generator settings and the bus voltage have no source. */
  function Assemble(s: Slots): Row
    requires s.Full()
  {
    var b1, b2, b4 := s.r1.value, s.r2.value, s.r4.value;
    Row(b1.soc, b1.soh, b1.pPv, b1.pPv1, b1.pPv2, b1.pPv3, b1.pBattery, b1.pCharge, b1.pDischarge,
        b1.fAc, b1.fEps, b1.pGrid, b1.pToGrid, b1.pToUser,
        b1.ePvDay, b1.ePvDay1, b1.ePvDay2, b1.ePvDay3,
        b2.ePvAll, b2.ePvAll1, b2.ePvAll2, b2.ePvAll3,
        b4.vGen, b4.fGen, b4.pGen, 0, 0, 0, b1.datalog,
        b1.others, b2.others, s.r3.value.others, b4.others, s.r5.value.others, s.r6.value.registers)
  }

  function Derive(row: Row): Option<Row>
  {
    var sum := CheckedSum3(row.pPv1, row.pPv2, row.pPv3);
    if sum.None? then None
    else Some(row.(
      pPv := sum.value,
      pBattery := row.pCharge - row.pDischarge,
      pGrid := row.pToUser - row.pToGrid,
      ePvDay := row.ePvDay1 + row.ePvDay2 + row.ePvDay3,
      ePvAll := row.ePvAll1 + row.ePvAll2 + row.ePvAll3))
  }

  predicate Valid(row: Row)
  {
    && 0 <= row.soc <= 100
    && 0 <= row.soh <= 100
    && row.pPv1 <= 10000 && row.pPv2 <= 10000 && row.pPv3 <= 10000
    && 4500 <= row.fAc <= 6500
    && 4500 <= row.fEps <= 6500
    && (row.vGen > 0 ==> 1800 <= row.vGen <= 2700)
    && (row.fGen > 0 ==> 4500 <= row.fGen <= 6500)
    && row.pGen <= 10000
    && row.genPowerFactor <= 1000
    && row.genCurrent <= 100
    && row.vBusHalf <= 10000
  }

  function ToInputAll(s: Slots): Option<Row>
  {
    if !s.Full() then None
    else
      var row := Derive(Assemble(s));
      if row.None? || !Valid(row.value) then None else row
  }

  predicate SlotsAccepted(s: Slots)
  {
    && (s.r1.Some? ==> Accepted(One(s.r1.value)))
    && (s.r2.Some? ==> Accepted(Two(s.r2.value)))
  }

  /** On accepted blocks derivation cannot fail and changes nothing, so a full set without a row
      means that validation refused it, and a row's powers add up and stay below 30 kW. */
  lemma DerivationIsIdle(s: Slots)
    requires s.Full() && SlotsAccepted(s)
    ensures Derive(Assemble(s)) == Some(Assemble(s))
    ensures ToInputAll(s) == if Valid(Assemble(s)) then Some(Assemble(s)) else None
    ensures ToInputAll(s).Some? ==>
      var row := ToInputAll(s).value;
      && row.pPv == row.pPv1 + row.pPv2 + row.pPv3 <= 30000
      && row.datalog == s.r1.value.datalog
      && Accepted(All(row))
  {}

  /** The bounds in the units of the original readings: hertz, volts and percent. */
  lemma ValidInUnits(row: Row)
    ensures Valid(row) <==>
      && 0 <= row.soc <= 100 && 0 <= row.soh <= 100
      && (forall p :: p in [row.pPv1, row.pPv2, row.pPv3, row.pGen] ==> p as int <= 10_000)
      && (forall f :: f in [row.fAc, row.fEps] ==> 45.0 <= f as real / 100.0 <= 65.0)
      && (row.vGen == 0 || 180.0 <= row.vGen as real / 10.0 <= 270.0)
      && (row.fGen == 0 || 45.0 <= row.fGen as real / 100.0 <= 65.0)
      && row.genPowerFactor as int <= 1000 && row.genCurrent as int <= 100
      && row.vBusHalf as real / 10.0 <= 1000.0
  {
    assert row.pPv1 in [row.pPv1, row.pPv2, row.pPv3, row.pGen];
    assert row.pPv2 in [row.pPv1, row.pPv2, row.pPv3, row.pGen];
    assert row.pPv3 in [row.pPv1, row.pPv2, row.pPv3, row.pGen];
    assert row.pGen in [row.pPv1, row.pPv2, row.pPv3, row.pGen];
    assert row.fAc in [row.fAc, row.fEps] && row.fEps in [row.fAc, row.fEps];
  }

  // Blocks, read back from a row by the names of its fields.

  function BlockOne(row: Row): Block1
  {
    Block1(
      soc := row.soc, soh := row.soh,
      pPv := row.pPv, pPv1 := row.pPv1, pPv2 := row.pPv2, pPv3 := row.pPv3,
      pBattery := row.pBattery, pCharge := row.pCharge, pDischarge := row.pDischarge,
      fAc := row.fAc, fEps := row.fEps,
      pGrid := row.pGrid, pToGrid := row.pToGrid, pToUser := row.pToUser,
      ePvDay := row.ePvDay, ePvDay1 := row.ePvDay1, ePvDay2 := row.ePvDay2, ePvDay3 := row.ePvDay3,
      datalog := row.datalog, others := row.others1)
  }

  function BlockTwo(row: Row): Block2
  {
    Block2(
      ePvAll := row.ePvAll, ePvAll1 := row.ePvAll1, ePvAll2 := row.ePvAll2, ePvAll3 := row.ePvAll3,
      datalog := row.datalog, others := row.others2)
  }

  function BlockFour(row: Row): Block4
  {
    Block4(vGen := row.vGen, fGen := row.fGen, pGen := row.pGen, datalog := row.datalog, others := row.others4)
  }

  /** What a row says about one kind of reading. */
  function ReadingFrom(row: Row, kind: nat): (i: Input)
    requires 1 <= kind <= 6
    ensures i.Kind() == kind
  {
    if kind == 1 then One(BlockOne(row))
    else if kind == 2 then Two(BlockTwo(row))
    else if kind == 3 then Three(Block3(datalog := row.datalog, others := row.others3))
    else if kind == 4 then Four(BlockFour(row))
    else if kind == 5 then Five(Block5(datalog := row.datalog, others := row.others5))
    else Six(Block6(registers := row.registers6, datalog := row.datalog))
  }

  /** The reading in a slot. */
  function InSlot(s: Slots, kind: nat): (i: Input)
    requires s.Full() && 1 <= kind <= 6
    ensures i.Kind() == kind
  {
    if kind == 1 then One(s.r1.value)
    else if kind == 2 then Two(s.r2.value)
    else if kind == 3 then Three(s.r3.value)
    else if kind == 4 then Four(s.r4.value)
    else if kind == 5 then Five(s.r5.value)
    else Six(s.r6.value)
  }

  /** From a row assembled of the blocks of one datalog each block can be read back; what no block
      supplies is zero. */
  lemma AssembledReadsBack(s: Slots, kind: nat)
    requires s.Full() && 1 <= kind <= 6 && InSlot(s, kind).Datalog() == s.r1.value.datalog
    ensures ReadingFrom(Assemble(s), kind) == InSlot(s, kind)
    ensures Assemble(s).genPowerFactor == 0 && Assemble(s).genCurrent == 0 && Assemble(s).vBusHalf == 0
  {}
}
