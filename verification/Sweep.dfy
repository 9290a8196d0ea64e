/** Reading all input registers in blocks of 40, and what may be read in one request. */
module Sweep {
  import opened Aggregation
  import opened AggregationRuns
  import opened Bytes
  import opened Inputs
  import opened Wrappers
  import opened Replies
  import Packets

  const BLOCK_SIZE := 40

  // Block boundaries.

  datatype Refusal = CrossesBoundary | ExceedsBlock

  /** Sums of registers are 16 bits wide and wrap, as does the step back from 0. */
  function ValidateRegisterBlockBoundary(register: u16, count: u16): Option<Refusal>
  {
    var startBlock := register / BLOCK_SIZE;
    var endRegister := ((register + count) % 0x1_0000 + 0xFFFF) % 0x1_0000;
    if startBlock != endRegister / BLOCK_SIZE then Some(CrossesBoundary)
    else if count > BLOCK_SIZE - register % BLOCK_SIZE then Some(ExceedsBlock)
    else None
  }

  predicate InBlock(r: nat, block: nat)
  {
    r < 0x1_0000 && r / BLOCK_SIZE == block
  }

  /** A read of at least one register passes exactly when all its registers exist and lie in the
      block of the first, wrapping sums notwithstanding; a read of none passes except at the start
      of a block. */
  lemma BoundaryIff(register: u16, count: u16)
    ensures ValidateRegisterBlockBoundary(register, count).None?
      <==> if count == 0 then register % BLOCK_SIZE != 0
           else forall r :: register <= r < register + count ==> InBlock(r, register / BLOCK_SIZE)
  {
    if count == 0 {
      NoneAtStart(register);
    } else {
      PastTheBlock(register, count);
      if register % BLOCK_SIZE + count <= BLOCK_SIZE && register + count <= 0x1_0000 {
        forall r | register <= r < register + count ensures InBlock(r, register / BLOCK_SIZE) {
          SameBlock(register, r);
        }
      } else if register + count > 0x1_0000 {
        assert !InBlock(0x1_0000, register / BLOCK_SIZE);
      } else {
        var next := register + (BLOCK_SIZE - register % BLOCK_SIZE);
        assert next / BLOCK_SIZE == register / BLOCK_SIZE + 1;
        assert !InBlock(next, register / BLOCK_SIZE);
      }
    }
  }

  lemma SameBlock(register: nat, r: nat)
    requires register <= r < register + (BLOCK_SIZE - register % BLOCK_SIZE)
    ensures r / BLOCK_SIZE == register / BLOCK_SIZE
  {
    var offset := register % BLOCK_SIZE + (r - register);
    assert r == BLOCK_SIZE * (register / BLOCK_SIZE) + offset;
  }

  lemma NoneAtStart(register: u16)
    ensures ValidateRegisterBlockBoundary(register, 0).None? <==> register % BLOCK_SIZE != 0
  {
    if register > 0 {
      assert (register + 0xFFFF) % 0x1_0000 == register - 1;
    }
  }

  lemma PastTheBlock(register: u16, count: u16)
    requires count > 0
    ensures ValidateRegisterBlockBoundary(register, count).None?
      <==> register % BLOCK_SIZE + count <= BLOCK_SIZE && register + count <= 0x1_0000
  {
    if register + count <= 0x1_0000 {
      assert ((register + count) % 0x1_0000 + 0xFFFF) % 0x1_0000 == register + count - 1;
      if register % BLOCK_SIZE + count <= BLOCK_SIZE {
        SameBlock(register, register + count - 1);
      }
    } else {
      var end := ((register + count) % 0x1_0000 + 0xFFFF) % 0x1_0000;
      assert end == register + count - 0x1_0001;
      if count <= BLOCK_SIZE {
        assert register / BLOCK_SIZE >= 1000 && end / BLOCK_SIZE < 1;
      }
    }
  }

  // The sweep.

  datatype Inverter = Inverter(datalog: Serial, serial: Serial)

  /** The count travels in one byte. */
  function Request(inverter: Inverter, register: u16, count: u16): Packets.Packet
  {
    Packets.Translated(Packets.TranslatedData(
      inverter.datalog, Packets.ReadInput, inverter.serial, register, [(count % 0x100) as byte, 0]))
  }

  function SweepRequests(inverter: Inverter): (requests: seq<Packets.Packet>)
    ensures |requests| == 6
  {
    seq(6, k requires 0 <= k < 6 => Request(inverter, BLOCK_SIZE * k, BLOCK_SIZE))
  }

  /** Blocks are asked for until one is not answered; answered(k) says whether the k-th is. */
  method ReadInputRegisters(inverter: Inverter, answered: nat -> bool)
    returns (sent: seq<Packets.Packet>, ok: bool)
    ensures sent <= SweepRequests(inverter)
    ensures forall k :: 0 <= k < |sent| - 1 ==> answered(k)
    ensures ok <==> |sent| == 6 && answered(5)
    ensures !ok ==> sent != [] && !answered(|sent| - 1)
  {
    sent := [];
    var startRegister := 0;
    while startRegister <= 200
      invariant startRegister == BLOCK_SIZE * |sent| && |sent| <= 6
      invariant sent == SweepRequests(inverter)[..|sent|]
      invariant forall k :: 0 <= k < |sent| ==> answered(k)
    {
      sent := sent + [Request(inverter, startRegister, BLOCK_SIZE)];
      if !answered(|sent| - 1) {
        return sent, false;
      }
      startRegister := startRegister + BLOCK_SIZE;
    }
    ok := true;
  }

  predicate Asks(request: Packets.Packet, register: nat)
  {
    && request.Translated? && request.td.deviceFunction == Packets.ReadInput && |request.td.values| == 2
    && request.td.register <= register < request.td.register + Le16(request.td.values[0], request.td.values[1])
  }

  /** Each of the 240 input registers is asked for by exactly one request of the sweep, no other
      register is, and every request stays within a block. */
  lemma SweepCoversOnce(inverter: Inverter, register: nat)
    ensures var requests := SweepRequests(inverter);
      && (forall k :: 0 <= k < 6 ==> (Asks(requests[k], register) <==> register / BLOCK_SIZE == k))
      && (forall k :: 0 <= k < 6 ==> ValidateRegisterBlockBoundary(requests[k].td.register, BLOCK_SIZE).None?)
      && (forall k :: 0 <= k < 6 ==>
            requests[k].td.datalog == inverter.datalog && requests[k].td.inverter == inverter.serial)
  {
    forall k | 0 <= k < 6
      ensures Asks(SweepRequests(inverter)[k], register) <==> register / BLOCK_SIZE == k
    {
      assert (BLOCK_SIZE % 0x100) as byte as nat == BLOCK_SIZE;
    }
  }

  // What the answers are.

  /** A full answer to the k-th request of a sweep is a reading of kind k + 1, or is refused. */
  lemma KindOfAnswer(inverter: Inverter, k: nat, td: Packets.TranslatedData, layouts: Layouts)
    requires k < 6 && Answers(SweepRequests(inverter)[k], Packets.Translated(td))
    requires |td.values| == 2 * BLOCK_SIZE
    ensures ReadInput(td, layouts).Some? ==> ReadInput(td, layouts).value.Kind() == k + 1
  {}

  /** What the command to read block n sends; the count is the configured block size. */
  function ReadInputsRequest(inverter: Inverter, n: u16, blockSize: u16): Packets.Packet
  {
    Request(inverter, n * BLOCK_SIZE % 0x1_0000, blockSize)
  }

  /** The command asks from register 40 n on, which is block n + 1: no answer to it is ever a reading
      of kind n, and for n = 6 none is a reading at all. */
  lemma ReadInputsCommandIsOffByOne(
    inverter: Inverter, n: u16, blockSize: u16, td: Packets.TranslatedData, layouts: Layouts)
    requires 1 <= n <= 6 && Answers(ReadInputsRequest(inverter, n, blockSize), Packets.Translated(td))
    requires !Aborts(td)
    ensures ReadInput(td, layouts).Some? ==> n < 6 && ReadInput(td, layouts).value.Kind() == n + 1
  {}

  // One sweep, one row.

  function ArrivalsOf(d: Serial, inputs: seq<Input>): seq<Arrival>
  {
    seq(|inputs|, k requires 0 <= k < |inputs| => Arrival(d, inputs[k]))
  }

  ghost predicate InOrder(inputs: seq<Input>)
  {
    |inputs| <= 6 && forall k :: 0 <= k < |inputs| ==> inputs[k].Kind() == k + 1
  }

  lemma NoRowYet(h: seq<Arrival>, d: Serial, w: seq<Input>, i: Input)
    requires Window(h, d) == w && InOrder(w + [i]) && |w| < 5
    ensures Window(h + [Arrival(d, i)], d) == w + [i]
    ensures Rows(h + [Arrival(d, i)]) == Rows(h)
  {
    var v := w + [i];
    assert v[|w|] == i;
    assert !Has(v, 6);
    FullIffAllSix(v);
    WindowStep(h, Arrival(d, i), d);
    RowsStep(h, Arrival(d, i));
  }

  lemma ArrivalsOfStep(h: seq<Arrival>, d: Serial, inputs: seq<Input>)
    requires inputs != []
    ensures var n := |inputs| - 1;
      && h + ArrivalsOf(d, inputs) == (h + ArrivalsOf(d, inputs[..n])) + [Arrival(d, inputs[n])]
      && inputs[..n] + [inputs[n]] == inputs
  {}

  lemma {:induction false} PartialSweep(h: seq<Arrival>, d: Serial, inputs: seq<Input>)
    requires Window(h, d) == [] && InOrder(inputs) && |inputs| < 6
    ensures Window(h + ArrivalsOf(d, inputs), d) == inputs
    ensures Rows(h + ArrivalsOf(d, inputs)) == Rows(h)
  {
    if inputs == [] {
      assert h + [] == h;
    } else {
      var n := |inputs| - 1;
      PartialSweep(h, d, inputs[..n]);
      ArrivalsOfStep(h, d, inputs);
      NoRowYet(h + ArrivalsOf(d, inputs[..n]), d, inputs[..n], inputs[n]);
    }
  }

  function RowOfSweep(inputs: seq<Input>): Row
    requires InOrder(inputs) && |inputs| == 6
  {
    Assemble(Slots(Some(inputs[0].b1), Some(inputs[1].b2), Some(inputs[2].b3),
                   Some(inputs[3].b4), Some(inputs[4].b5), Some(inputs[5].b6)))
  }

  /** The six blocks of a sweep that starts with nothing pending make exactly one row, from those very
      blocks, unless validation refuses it; then they all stay. */
  lemma SweepMakesRow(h: seq<Arrival>, d: Serial, inputs: seq<Input>)
    requires Window(h, d) == [] && InOrder(inputs) && |inputs| == 6 && AllAccepted(inputs, d)
    ensures var row, after := RowOfSweep(inputs), h + ArrivalsOf(d, inputs);
      && Rows(after) == (if Valid(row) then Rows(h) + [row] else Rows(h))
      && Window(after, d) == (if Valid(row) then [] else inputs)
      && forall k :: 0 <= k < 6 ==> ReadingFrom(row, k + 1) == inputs[k]
  {
    forall k | 0 <= k < 6 ensures ReadingFrom(RowOfSweep(inputs), k + 1) == inputs[k] {
      BlockOfSweep(inputs, d, k);
    }
    var before, last := h + ArrivalsOf(d, inputs[..5]), Arrival(d, inputs[5]);
    PartialSweep(h, d, inputs[..5]);
    ArrivalsOfStep(h, d, inputs);
    YieldOfSweep(inputs, d);
    WindowStep(before, last, d);
    RowsStep(before, last);
  }

  lemma BlockOfSweep(inputs: seq<Input>, d: Serial, k: nat)
    requires InOrder(inputs) && |inputs| == 6 && AllAccepted(inputs, d) && k < 6
    ensures ReadingFrom(RowOfSweep(inputs), k + 1) == inputs[k]
  {
    var s := Slots(Some(inputs[0].b1), Some(inputs[1].b2), Some(inputs[2].b3),
                   Some(inputs[3].b4), Some(inputs[4].b5), Some(inputs[5].b6));
    assert inputs[k].Kind() == k + 1;
    AssembledReadsBack(s, k + 1);
  }

  lemma YieldOfSweep(inputs: seq<Input>, d: Serial)
    requires InOrder(inputs) && |inputs| == 6 && AllAccepted(inputs, d)
    ensures Yield(inputs[..5], inputs[5])
         == if Valid(RowOfSweep(inputs)) then Some(RowOfSweep(inputs)) else None
  {
    assert inputs[..5] + [inputs[5]] == inputs;
    LatestOfSweep(inputs);
    LatestSlotsAccepted(inputs, d);
    DerivationIsIdle(LatestSlots(inputs));
  }

  lemma LatestOfSweep(inputs: seq<Input>)
    requires InOrder(inputs) && |inputs| == 6
    ensures LatestSlots(inputs)
      == Slots(Some(inputs[0].b1), Some(inputs[1].b2), Some(inputs[2].b3),
               Some(inputs[3].b4), Some(inputs[4].b5), Some(inputs[5].b6))
  {
    forall kind | 1 <= kind <= 6 ensures Latest(inputs, kind) == Some(inputs[kind - 1]) {
      assert inputs[kind - 1].Kind() == kind;
      var j := LatestFinds(inputs, kind);
    }
  }
}
