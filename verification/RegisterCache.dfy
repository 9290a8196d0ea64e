/** The 512 cached registers, and the messages that fill them. */
module RegisterCache {
  import opened Bytes
  import opened Packets
  import opened Wrappers

  const REGISTER_COUNT := 512

  datatype Message =
    | RegisterData(register: u16, value: bv16)
    | ReadRegister(register: u16)
    | Shutdown

  /** The setter runs until it is told to stop. Setter and getter share one task, so a register
      beyond the array, written or read, ends both. */
  datatype Status = Running | Stopped | Panicked

  datatype CacheState = CacheState(cells: seq<bv16>, status: Status)

  function Store(s: CacheState, m: Message): CacheState
    requires |s.cells| == REGISTER_COUNT
  {
    if s.status != Running then s
    else match m
      case RegisterData(register, value) =>
        if register < REGISTER_COUNT then s.(cells := s.cells[register := value])
        else s.(status := Panicked)
      case ReadRegister(_) => s
      case Shutdown => s.(status := Stopped)
  }

  function StoreAll(start: CacheState, messages: seq<Message>): (s: CacheState)
    requires |start.cells| == REGISTER_COUNT
    ensures |s.cells| == REGISTER_COUNT
  {
    if messages == [] then start
    else Store(StoreAll(start, messages[..|messages| - 1]), messages[|messages| - 1])
  }

  const BLANK: CacheState := CacheState(seq(REGISTER_COUNT, _ => 0), Running)

  class Cache {
    const registerData: array<bv16>
    var status: Status

    constructor ()
      ensures fresh(registerData) && registerData.Length == REGISTER_COUNT
      ensures State() == BLANK
    {
      registerData := new bv16[REGISTER_COUNT](_ => 0);
      status := Running;
    }

    function State(): CacheState
      reads this, registerData
    {
      CacheState(registerData[..], status)
    }

    method CacheSetter(messages: seq<Message>)
      requires registerData.Length == REGISTER_COUNT
      modifies this, registerData
      ensures State() == StoreAll(old(State()), messages)
    {
      for i := 0 to |messages|
        invariant State() == StoreAll(old(State()), messages[..i])
      {
        assert messages[..i + 1][..i] == messages[..i];
        if status == Running {
          match messages[i] {
            case RegisterData(register, value) =>
              if register < REGISTER_COUNT {
                registerData[register] := value;
              } else {
                status := Panicked;
              }
            case ReadRegister(_) =>
            case Shutdown => status := Stopped;
          }
        }
      }
      assert messages[..|messages|] == messages;
    }

    /** None means that nobody answers. */
    method CacheGetter(register: u16) returns (value: Option<bv16>)
      requires registerData.Length == REGISTER_COUNT
      modifies this
      ensures registerData[..] == old(registerData[..])
      ensures value.Some? <==> old(status) != Panicked && register < REGISTER_COUNT
      ensures value.Some? ==> value.value == registerData[register] && status == old(status)
      ensures value.None? ==> status == Panicked
    {
      if status != Panicked && register < REGISTER_COUNT {
        return Some(registerData[register]);
      }
      status := Panicked;
      value := None;
    }
  }

  // What the coordinator sends.

  /** Two bytes make a value; a last odd byte stands for itself. */
  function Messages(register: u16, values: seq<byte>): seq<Message>
  {
    seq((|values| + 1) / 2, i requires 0 <= i < (|values| + 1) / 2 =>
      RegisterData(RegisterAt(register, i),
        if 2 * i + 1 < |values| then Word(values[2 * i], values[2 * i + 1]) else Widen(values[2 * i])))
  }

  method CacheRegister(register: u16, values: seq<byte>) returns (sent: seq<Message>)
    ensures sent == Messages(register, values)
  {
    var words: seq<bv16> := [];
    var at := 0;
    while at < |values|
      invariant at == 2 * |words| || (at == |values| && at == 2 * |words| - 1)
      invariant at <= |values|
      invariant forall i :: 0 <= i < |words| ==> words[i] == Messages(register, values)[i].value
    {
      if at + 2 <= |values| {
        words := words + [Word(values[at], values[at + 1])];
        at := at + 2;
      } else {
        words := words + [Widen(values[at])];
        at := at + 1;
      }
    }
    sent := [];
    for i := 0 to |words|
      invariant sent == Messages(register, values)[..i]
    {
      sent := sent + [RegisterData(RegisterAt(register, i), words[i])];
    }
  }

  // The cache against the pairs of the packets.

  datatype Load = Load(register: u16, values: seq<byte>)

  ghost predicate Even(loads: seq<Load>)
  {
    forall i :: 0 <= i < |loads| ==> |loads[i].values| % 2 == 0
  }

  function AllPairs(loads: seq<Load>): seq<(u16, bv16)>
    requires Even(loads)
  {
    if loads == [] then []
    else
      var last := loads[|loads| - 1];
      AllPairs(loads[..|loads| - 1]) + Pairs(last.register, last.values)
  }

  function AllMessages(loads: seq<Load>): seq<Message>
  {
    if loads == [] then []
    else
      var last := loads[|loads| - 1];
      AllMessages(loads[..|loads| - 1]) + Messages(last.register, last.values)
  }

  function MessagesOf(pairs: seq<(u16, bv16)>): (m: seq<Message>)
    ensures |m| == |pairs|
  {
    seq(|pairs|, i requires 0 <= i < |pairs| => RegisterData(pairs[i].0, pairs[i].1))
  }

  lemma MessagesOfAppend(a: seq<(u16, bv16)>, b: seq<(u16, bv16)>)
    ensures MessagesOf(a + b) == MessagesOf(a) + MessagesOf(b)
  {}

  lemma MessagesOfPairs(register: u16, values: seq<byte>)
    requires |values| % 2 == 0
    ensures Messages(register, values) == MessagesOf(Pairs(register, values))
  {}

  lemma {:induction false} MessagesArePairs(loads: seq<Load>)
    requires Even(loads)
    ensures AllMessages(loads) == MessagesOf(AllPairs(loads))
  {
    if loads != [] {
      var before, last := loads[..|loads| - 1], loads[|loads| - 1];
      MessagesArePairs(before);
      MessagesOfPairs(last.register, last.values);
      MessagesOfAppend(AllPairs(before), Pairs(last.register, last.values));
    }
  }

  /** The last value a list of pairs gives a register. */
  function LastValue(pairs: seq<(u16, bv16)>, register: nat): Option<bv16>
  {
    if pairs == [] then None
    else if pairs[|pairs| - 1].0 == register then Some(pairs[|pairs| - 1].1)
    else LastValue(pairs[..|pairs| - 1], register)
  }

  ghost predicate InRange(pairs: seq<(u16, bv16)>)
  {
    forall i :: 0 <= i < |pairs| ==> pairs[i].0 < REGISTER_COUNT
  }

  lemma {:induction false} StoredPairs(pairs: seq<(u16, bv16)>, register: nat)
    requires InRange(pairs) && register < REGISTER_COUNT
    ensures var s := StoreAll(BLANK, MessagesOf(pairs));
      && s.status == Running
      && s.cells[register] == match LastValue(pairs, register) { case Some(v) => v case None => 0 }
  {
    if pairs != [] {
      var before := pairs[..|pairs| - 1];
      StoredPairs(before, register);
      var m := MessagesOf(pairs);
      assert m[..|m| - 1] == MessagesOf(before);
    }
  }

  /** After any run of loads whose registers fit, each cached register holds the last value that the
      pairs of the packets give it, or zero. */
  lemma CacheAgreesWithPairs(loads: seq<Load>, register: nat)
    requires Even(loads) && InRange(AllPairs(loads)) && register < REGISTER_COUNT
    ensures var s := StoreAll(BLANK, AllMessages(loads));
      && s.status == Running
      && s.cells[register]
         == match LastValue(AllPairs(loads), register) { case Some(v) => v case None => 0 }
  {
    MessagesArePairs(loads);
    StoredPairs(AllPairs(loads), register);
  }

  /** The setter outlives a run of loads exactly when every register fits. */
  lemma {:induction false} SurvivesIff(pairs: seq<(u16, bv16)>)
    ensures StoreAll(BLANK, MessagesOf(pairs)).status == (if InRange(pairs) then Running else Panicked)
  {
    if pairs != [] {
      var before := pairs[..|pairs| - 1];
      SurvivesIff(before);
      var m := MessagesOf(pairs);
      assert m[..|m| - 1] == MessagesOf(before);
      assert InRange(pairs) <==> InRange(before) && pairs[|pairs| - 1].0 < REGISTER_COUNT;
    }
  }

  /** The array holds registers 0 to 511. */
  lemma FiveHundredTwelve(register: u16, value: bv16)
    ensures Store(BLANK, RegisterData(register, value)).status == (if register <= 511 then Running else Panicked)
    ensures register <= 511 ==> Store(BLANK, RegisterData(register, value)).cells[register] == value
  {}

  /** An odd byte at the end is cached as if a zero byte followed it. */
  lemma OddIsPadded(register: u16, values: seq<byte>)
    requires |values| % 2 == 1
    ensures Messages(register, values) == Messages(register, values + [0])
  {
    var last := values[|values| - 1];
    WordIsSum(last, 0);
    WidenIsWord(last);
  }

  lemma WidenIsWord(b: byte)
    ensures Word(b, 0) == Widen(b)
  {}

  /** What comes behind a shutdown is not stored. */
  lemma {:induction false} NothingAfterShutdown(before: seq<Message>, behind: seq<Message>)
    requires StoreAll(BLANK, before).status == Running
    ensures StoreAll(BLANK, before + [Shutdown] + behind)
      == CacheState(StoreAll(BLANK, before).cells, Stopped)
  {
    var all := before + [Shutdown] + behind;
    if behind == [] {
      assert all[..|all| - 1] == before;
    } else {
      NothingAfterShutdown(before, behind[..|behind| - 1]);
      assert all[..|all| - 1] == before + [Shutdown] + behind[..|behind| - 1];
    }
  }
}
