/**
 The store that collects six blocks per datalog and turns them into rows, and the history it
 stands for.
 */
module Aggregation {
  import opened Bytes
  import opened Inputs
  import opened Wrappers

  datatype Arrival = Arrival(datalog: Serial, input: Input)

  // The store as a value.

  function Put(s: Slots, i: Input): Slots
  {
    match i
    case All(_) => s
    case One(b) => s.(r1 := Some(b))
    case Two(b) => s.(r2 := Some(b))
    case Three(b) => s.(r3 := Some(b))
    case Four(b) => s.(r4 := Some(b))
    case Five(b) => s.(r5 := Some(b))
    case Six(b) => s.(r6 := Some(b))
  }

  function SlotsAt(store: map<Serial, Slots>, d: Serial): Slots
  {
    if d in store then store[d] else EMPTY
  }

  datatype Db = Db(store: map<Serial, Slots>, rows: seq<Row>)

  const START := Db(map[], [])

  function RowFor(s: Slots, i: Input): Option<Row>
  {
    if i.All? then Some(i.row) else ToInputAll(Put(s, i))
  }

  function Deliver(db: Db, a: Arrival): Db
  {
    var s := SlotsAt(db.store, a.datalog);
    match RowFor(s, a.input)
    case Some(row) => Db(db.store - {a.datalog}, db.rows + [row])
    case None => Db(db.store[a.datalog := Put(s, a.input)], db.rows)
  }

  function DeliverAll(h: seq<Arrival>): Db
  {
    if h == [] then START else Deliver(DeliverAll(h[..|h| - 1]), h[|h| - 1])
  }

  // The store in place.

  class ReadInputs {
    var readInput1: Option<Block1>
    var readInput2: Option<Block2>
    var readInput3: Option<Block3>
    var readInput4: Option<Block4>
    var readInput5: Option<Block5>
    var readInput6: Option<Block6>

    constructor ()
      ensures Contents() == EMPTY
    {
      readInput1, readInput2, readInput3 := None, None, None;
      readInput4, readInput5, readInput6 := None, None, None;
    }

    function Contents(): Slots
      reads this
    {
      Slots(readInput1, readInput2, readInput3, readInput4, readInput5, readInput6)
    }

    method SetReadInput(i: Input)
      requires !i.All?
      modifies this
      ensures Contents() == Put(old(Contents()), i)
    {
      match i {
        case One(b) => readInput1 := Some(b);
        case Two(b) => readInput2 := Some(b);
        case Three(b) => readInput3 := Some(b);
        case Four(b) => readInput4 := Some(b);
        case Five(b) => readInput5 := Some(b);
        case Six(b) => readInput6 := Some(b);
      }
    }
  }

  class InputsStore {
    var entries: map<Serial, ReadInputs>
    /** The rows sent to the database channel. */
    var toDatabase: seq<Row>

    /** Every datalog has an entry of its own. */
    ghost predicate Valid()
      reads this
    {
      forall d, e :: d in entries && e in entries && d != e ==> entries[d] != entries[e]
    }

    ghost function State(): Db
      reads this, entries.Values
    {
      Db(map d | d in entries :: entries[d].Contents(), toDatabase)
    }

    constructor ()
      ensures Valid() && State() == START && entries == map[]
    {
      entries := map[];
      toDatabase := [];
    }

    /** The entry of a datalog, made on first use. */
    method EntryOf(datalog: Serial) returns (entry: ReadInputs)
      requires Valid()
      modifies this`entries
      ensures Valid() && datalog in entries && entry == entries[datalog]
      ensures fresh(entries.Values - old(entries.Values))
      ensures State().store == old(State()).store[datalog := SlotsAt(old(State()).store, datalog)]
    {
      if datalog !in entries {
        var made := new ReadInputs();
        entries := entries[datalog := made];
      }
      entry := entries[datalog];
    }

    method UpdateInputsStore(datalog: Serial, i: Input) returns (row: Option<Row>)
      requires Valid() && !i.All?
      modifies this`entries, entries.Values
      ensures Valid() && toDatabase == old(toDatabase)
      ensures fresh(entries.Values - old(entries.Values))
      ensures var s := Put(SlotsAt(old(State()).store, datalog), i);
        && State().store == old(State()).store[datalog := s]
        && row == ToInputAll(s)
    {
      var entry := EntryOf(datalog);
      ghost var found, s := State().store, SlotsAt(old(State()).store, datalog);
      assert entry.Contents() == found[datalog] == s;
      entry.SetReadInput(i);
      assert State().store == found[datalog := Put(s, i)] == old(State()).store[datalog := Put(s, i)];
      row := ToInputAll(entry.Contents());
    }

    /** Clear the entry, then hand the row to the database. */
    method Emit(datalog: Serial, row: Row)
      requires Valid()
      modifies this
      ensures Valid() && entries.Values <= old(entries.Values)
      ensures State() == Db(old(State()).store - {datalog}, old(toDatabase) + [row])
    {
      entries := entries - {datalog};
      toDatabase := toDatabase + [row];
    }

    method SendToDatabase(a: Arrival)
      requires Valid()
      modifies this, entries.Values
      ensures Valid() && fresh(entries.Values - old(entries.Values))
      ensures State() == Deliver(old(State()), a)
    {
      if a.input.All? {
        Emit(a.datalog, a.input.row);
      } else {
        var row := UpdateInputsStore(a.datalog, a.input);
        if row.Some? {
          ghost var updated := State().store;
          Emit(a.datalog, row.value);
          assert updated - {a.datalog} == old(State()).store - {a.datalog};
        }
      }
    }
  }

  // The history the store stands for.

  /** The readings of one datalog since its last row. */
  function Window(h: seq<Arrival>, d: Serial): seq<Input>
  {
    if h == [] then []
    else
      var w, last := Window(h[..|h| - 1], d), h[|h| - 1];
      if last.datalog != d then w
      else if Yield(w, last.input).Some? then []
      else w + [last.input]
  }

  /** The latest reading of a kind. */
  function Latest(w: seq<Input>, kind: nat): Option<Input>
  {
    if w == [] then None
    else if w[|w| - 1].Kind() == kind then Some(w[|w| - 1])
    else Latest(w[..|w| - 1], kind)
  }

  /** The row that one more reading completes: a whole row at once, or the latest of each of the six
      kinds once all have arrived and the row they make is valid. */
  function Yield(w: seq<Input>, i: Input): Option<Row>
  {
    if i.All? then Some(i.row)
    else
      var s := LatestSlots(w + [i]);
      if s.Full() && Derive(Assemble(s)).Some? && Valid(Derive(Assemble(s)).value)
      then Derive(Assemble(s)) else None
  }

  function LatestSlots(w: seq<Input>): Slots
  {
    Slots(
      if Latest(w, 1).Some? then Some(LatestOf(w, 1).b1) else None,
      if Latest(w, 2).Some? then Some(LatestOf(w, 2).b2) else None,
      if Latest(w, 3).Some? then Some(LatestOf(w, 3).b3) else None,
      if Latest(w, 4).Some? then Some(LatestOf(w, 4).b4) else None,
      if Latest(w, 5).Some? then Some(LatestOf(w, 5).b5) else None,
      if Latest(w, 6).Some? then Some(LatestOf(w, 6).b6) else None)
  }

  function LatestOf(w: seq<Input>, kind: nat): (i: Input)
    requires Latest(w, kind).Some?
    ensures i.Kind() == kind
  {
    LatestIsOfKind(w, kind);
    Latest(w, kind).value
  }

  lemma {:induction false} LatestIsOfKind(w: seq<Input>, kind: nat)
    ensures Latest(w, kind).Some? ==> Latest(w, kind).value.Kind() == kind
  {
    if w != [] && w[|w| - 1].Kind() != kind {
      LatestIsOfKind(w[..|w| - 1], kind);
    }
  }

  /** The rows a history gives rise to, in order. */
  function Rows(h: seq<Arrival>): seq<Row>
  {
    if h == [] then []
    else
      var before, last := h[..|h| - 1], h[|h| - 1];
      var row := Yield(Window(before, last.datalog), last.input);
      Rows(before) + if row.Some? then [row.value] else []
  }

  lemma PutLatest(w: seq<Input>, i: Input)
    requires !i.All?
    ensures LatestSlots(w + [i]) == Put(LatestSlots(w), i)
  {
    var v := w + [i];
    assert v[..|v| - 1] == w && v[|v| - 1] == i;
    assert forall k: nat :: Latest(v, k) == if i.Kind() == k then Some(i) else Latest(w, k);
  }

  lemma YieldIsRowFor(w: seq<Input>, i: Input)
    ensures Yield(w, i) == RowFor(LatestSlots(w), i)
  {
    if !i.All? {
      PutLatest(w, i);
    }
  }

  /** After any history the store holds, for each datalog, the latest block of each kind since its
      last row, and the database has seen exactly the rows the history gives rise to. */
  lemma {:induction false} StoreRefinesHistory(h: seq<Arrival>, d: Serial)
    ensures DeliverAll(h).rows == Rows(h)
    ensures SlotsAt(DeliverAll(h).store, d) == LatestSlots(Window(h, d))
    ensures d in DeliverAll(h).store <==> Window(h, d) != []
  {
    if h != [] {
      var before, last := h[..|h| - 1], h[|h| - 1];
      StoreRefinesHistory(before, d);
      StoreRefinesHistory(before, last.datalog);
      YieldIsRowFor(Window(before, last.datalog), last.input);
      if !last.input.All? {
        PutLatest(Window(before, last.datalog), last.input);
      }
    }
  }
}
