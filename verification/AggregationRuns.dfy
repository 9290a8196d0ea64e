/** Whole runs of the block store: when rows appear, whose they are, and what they are made of. */
module AggregationRuns {
  import opened Aggregation
  import opened Bytes
  import opened Inputs
  import opened Wrappers

  /** A run of readings as the packet reader produces them. */
  ghost predicate Authentic(h: seq<Arrival>)
  {
    forall i :: 0 <= i < |h| ==> h[i].input.Datalog() == h[i].datalog && Accepted(h[i].input)
  }

  // The latest of a kind.

  ghost predicate Has(w: seq<Input>, kind: nat)
  {
    exists j :: 0 <= j < |w| && w[j].Kind() == kind
  }

  lemma HasAppend(w: seq<Input>, i: Input, kind: nat)
    ensures Has(w + [i], kind) <==> Has(w, kind) || i.Kind() == kind
  {
    var v := w + [i];
    if Has(w, kind) {
      var j :| 0 <= j < |w| && w[j].Kind() == kind;
      assert v[j].Kind() == kind;
    }
    if i.Kind() == kind {
      assert v[|w|].Kind() == kind;
    }
    if Has(v, kind) {
      var j :| 0 <= j < |v| && v[j].Kind() == kind;
      assert j < |w| ==> w[j].Kind() == kind;
    }
  }

  /** Latest finds the last reading of the kind, and finds one exactly when there is one. */
  lemma {:induction false} LatestFinds(w: seq<Input>, kind: nat) returns (j: int)
    ensures Latest(w, kind).Some? <==> Has(w, kind)
    ensures Latest(w, kind).Some? ==>
      && 0 <= j < |w| && w[j] == Latest(w, kind).value && w[j].Kind() == kind
      && forall k :: j < k < |w| ==> w[k].Kind() != kind
  {
    j := |w| - 1;
    if w != [] && w[j].Kind() != kind {
      var prefix := w[..j];
      j := LatestFinds(prefix, kind);
      if Has(w, kind) {
        var k :| 0 <= k < |w| && w[k].Kind() == kind;
        assert prefix[k].Kind() == kind;
      }
      if Has(prefix, kind) {
        var k :| 0 <= k < |prefix| && prefix[k].Kind() == kind;
        assert w[k].Kind() == kind;
      }
    }
  }

  // When a row appears.

  ghost predicate AllAccepted(w: seq<Input>, d: Serial)
  {
    forall i :: 0 <= i < |w| ==> Accepted(w[i]) && w[i].Datalog() == d
  }

  ghost predicate HasAllSix(w: seq<Input>)
  {
    Has(w, 1) && Has(w, 2) && Has(w, 3) && Has(w, 4) && Has(w, 5) && Has(w, 6)
  }

  lemma FullIffAllSix(w: seq<Input>)
    ensures LatestSlots(w).Full() <==> HasAllSix(w)
  {
    var j1 := LatestFinds(w, 1);
    var j2 := LatestFinds(w, 2);
    var j3 := LatestFinds(w, 3);
    var j4 := LatestFinds(w, 4);
    var j5 := LatestFinds(w, 5);
    var j6 := LatestFinds(w, 6);
  }

  /** The six latest blocks make a row that passes validation. */
  ghost predicate MakesValidRow(w: seq<Input>)
  {
    LatestSlots(w).Full() && Valid(Assemble(LatestSlots(w)))
  }

  lemma LatestSlotsAccepted(w: seq<Input>, d: Serial)
    requires AllAccepted(w, d)
    ensures SlotsAccepted(LatestSlots(w))
    ensures LatestSlots(w).r1.Some? ==> LatestSlots(w).r1.value.datalog == d
  {
    var j1 := LatestFinds(w, 1);
    var j2 := LatestFinds(w, 2);
  }

  /** One more reading completes a row exactly when it is a whole row, or when with it all six kinds
      are there and the row they make passes validation. Its datalog is that of its blocks. */
  lemma YieldIff(w: seq<Input>, i: Input, d: Serial)
    requires AllAccepted(w + [i], d)
    ensures Yield(w, i).Some?
      <==> i.All? || (HasAllSix(w + [i]) && MakesValidRow(w + [i]))
    ensures Yield(w, i).Some? ==>
      && Yield(w, i).value.datalog == d
      && (!i.All? ==> MakesValidRow(w + [i]) && Yield(w, i).value == Assemble(LatestSlots(w + [i])))
  {
    var v := w + [i];
    assert v[|w|] == i;
    FullIffAllSix(v);
    LatestSlotsAccepted(v, d);
    if LatestSlots(v).Full() {
      DerivationIsIdle(LatestSlots(v));
    }
  }

  lemma {:induction false} WindowAccepted(h: seq<Arrival>, d: Serial)
    requires Authentic(h)
    ensures AllAccepted(Window(h, d), d)
  {
    if h != [] {
      WindowAccepted(h[..|h| - 1], d);
    }
  }

  /** The same at the end of a run: the store emits for the last reading exactly when since the
      datalog's last row all six blocks have come and are valid; otherwise it keeps them all. */
  lemma EmissionIff(before: seq<Arrival>, last: Arrival)
    requires Authentic(before + [last])
    ensures var h, d := before + [last], last.datalog;
      var since := Window(before, d) + [last.input];
      var emits := last.input.All? || (HasAllSix(since) && MakesValidRow(since));
      && |DeliverAll(h).rows| == |DeliverAll(before).rows| + (if emits then 1 else 0)
      && DeliverAll(before).rows <= DeliverAll(h).rows
      && (emits ==> Window(h, d) == [] && d !in DeliverAll(h).store)
      && (!emits ==> Window(h, d) == since && SlotsAt(DeliverAll(h).store, d) == LatestSlots(since))
  {
    var h, d := before + [last], last.datalog;
    assert h[..|h| - 1] == before && h[|h| - 1] == last;
    assert forall i :: 0 <= i < |before| ==> before[i] == h[i];
    WindowAccepted(before, d);
    YieldIff(Window(before, d), last.input, d);
    StoreRefinesHistory(before, d);
    StoreRefinesHistory(h, d);
  }

  // Non-interference.

  /** The readings of one datalog. */
  function Only(h: seq<Arrival>, d: Serial): seq<Arrival>
  {
    if h == [] then []
    else Only(h[..|h| - 1], d) + (if h[|h| - 1].datalog == d then [h[|h| - 1]] else [])
  }

  /** The rows that bear one datalog. */
  function RowsOf(rows: seq<Row>, d: Serial): seq<Row>
  {
    if rows == [] then []
    else RowsOf(rows[..|rows| - 1], d) + (if rows[|rows| - 1].datalog == d then [rows[|rows| - 1]] else [])
  }

  lemma OnlyStep(before: seq<Arrival>, last: Arrival, d: Serial)
    ensures Only(before + [last], d) == if last.datalog == d then Only(before, d) + [last] else Only(before, d)
  {
    var h := before + [last];
    assert h[..|h| - 1] == before && h[|h| - 1] == last;
  }

  lemma RowsOfStep(rows: seq<Row>, row: Row, d: Serial)
    ensures RowsOf(rows + [row], d) == if row.datalog == d then RowsOf(rows, d) + [row] else RowsOf(rows, d)
  {
    var all := rows + [row];
    assert all[..|all| - 1] == rows && all[|all| - 1] == row;
  }

  lemma WindowStep(before: seq<Arrival>, last: Arrival, d: Serial)
    ensures Window(before + [last], d)
      == if last.datalog != d then Window(before, d)
         else if Yield(Window(before, d), last.input).Some? then []
         else Window(before, d) + [last.input]
  {
    var h := before + [last];
    assert h[..|h| - 1] == before && h[|h| - 1] == last;
  }

  lemma RowsStep(before: seq<Arrival>, last: Arrival)
    ensures var row := Yield(Window(before, last.datalog), last.input);
      Rows(before + [last]) == if row.Some? then Rows(before) + [row.value] else Rows(before)
  {
    var h := before + [last];
    assert h[..|h| - 1] == before && h[|h| - 1] == last;
  }

  lemma {:induction false} WindowOnly(h: seq<Arrival>, d: Serial)
    ensures Window(Only(h, d), d) == Window(h, d)
  {
    if h != [] {
      var before, last := h[..|h| - 1], h[|h| - 1];
      assert h == before + [last];
      WindowOnly(before, d);
      OnlyStep(before, last, d);
      if last.datalog == d {
        WindowStep(Only(before, d), last, d);
      }
    }
  }

  /** The rows of one inverter do not depend on what the others send, or when. */
  lemma {:induction false} NonInterference(h: seq<Arrival>, d: Serial)
    requires Authentic(h)
    ensures RowsOf(Rows(h), d) == Rows(Only(h, d))
  {
    if h != [] {
      var before, last := h[..|h| - 1], h[|h| - 1];
      var w := Window(before, last.datalog);
      assert h == before + [last];
      NonInterference(before, d);
      OnlyStep(before, last, d);
      RowsStep(before, last);
      WindowAccepted(before, last.datalog);
      YieldIff(w, last.input, last.datalog);
      var row := Yield(w, last.input);
      if row.Some? {
        RowsOfStep(Rows(before), row.value, d);
      }
      if last.datalog == d {
        WindowOnly(before, d);
        RowsStep(Only(before, d), last);
      }
    }
  }

  // No block is used twice.

  function InputsFor(h: seq<Arrival>, d: Serial): seq<Input>
  {
    if h == [] then []
    else InputsFor(h[..|h| - 1], d) + (if h[|h| - 1].datalog == d then [h[|h| - 1].input] else [])
  }

  /** The position just after the datalog's last row. */
  function Start(h: seq<Arrival>, d: Serial): (n: nat)
    ensures n <= |h|
  {
    if h == [] then 0
    else
      var before, last := h[..|h| - 1], h[|h| - 1];
      if last.datalog == d && Yield(Window(before, d), last.input).Some? then |h| else Start(before, d)
  }

  /** What the store holds for a datalog is what has come for it since its last row. */
  lemma {:induction false} WindowIsSinceStart(h: seq<Arrival>, d: Serial)
    ensures Window(h, d) == InputsFor(h[Start(h, d)..], d)
  {
    if h != [] {
      var before, last := h[..|h| - 1], h[|h| - 1];
      WindowIsSinceStart(before, d);
      if Start(h, d) < |h| {
        var since := h[Start(h, d)..];
        assert since[..|since| - 1] == before[Start(before, d)..];
      }
    }
  }

  ghost predicate EmitsAt(h: seq<Arrival>, n: nat)
  {
    n < |h| && Yield(Window(h[..n], h[n].datalog), h[n].input).Some?
  }

  lemma {:induction false} StartAfterRow(h: seq<Arrival>, m: nat)
    requires EmitsAt(h, m)
    ensures m < Start(h, h[m].datalog)
  {
    var n := |h| - 1;
    if m < n {
      assert h[..n][..m] == h[..m];
      StartAfterRow(h[..n], m);
    }
  }

  lemma WindowAt(h: seq<Arrival>, n: nat)
    requires n < |h|
    ensures var d := h[n].datalog;
      var from := Start(h[..n], d);
      Window(h[..n], d) + [h[n].input] == InputsFor(h[..n + 1][from..], d)
  {
    var d := h[n].datalog;
    var from := Start(h[..n], d);
    var since := h[..n + 1][from..];
    WindowIsSinceStart(h[..n], d);
    assert since[..|since| - 1] == h[..n][from..];
  }

  /** Where the latest reading of a kind from a datalog stands, from a position on. */
  function LatestAt(h: seq<Arrival>, from: nat, d: Serial, kind: nat): (p: Option<nat>)
    ensures p.Some? ==>
      from <= p.value < |h| && h[p.value].datalog == d && h[p.value].input.Kind() == kind
  {
    if |h| <= from then None
    else
      var n := |h| - 1;
      if h[n].datalog == d && h[n].input.Kind() == kind then Some(n) else LatestAt(h[..n], from, d, kind)
  }

  lemma InputsForStep(before: seq<Arrival>, last: Arrival, d: Serial)
    ensures InputsFor(before + [last], d)
      == if last.datalog == d then InputsFor(before, d) + [last.input] else InputsFor(before, d)
  {
    var h := before + [last];
    assert h[..|h| - 1] == before && h[|h| - 1] == last;
    assert InputsFor(before, d) + [] == InputsFor(before, d);
  }

  lemma LatestStep(w: seq<Input>, i: Input, kind: nat)
    ensures Latest(w + [i], kind) == if i.Kind() == kind then Some(i) else Latest(w, kind)
  {
    var v := w + [i];
    assert v[..|v| - 1] == w && v[|v| - 1] == i;
  }

  lemma {:induction false} LatestAtIsLatest(h: seq<Arrival>, from: nat, d: Serial, kind: nat)
    requires from <= |h|
    ensures var p := LatestAt(h, from, d, kind);
      Latest(InputsFor(h[from..], d), kind) == if p.Some? then Some(h[p.value].input) else None
  {
    if from == |h| {
      assert h[from..] == [];
    } else {
      var n := |h| - 1;
      LatestAtIsLatest(h[..n], from, d, kind);
      assert h[from..] == h[..n][from..] + [h[n]];
      InputsForStep(h[..n][from..], h[n], d);
      LatestStep(InputsFor(h[..n][from..], d), h[n].input, kind);
    }
  }

  /** The reading at p is part of the row that the reading at n completes: it is that reading itself,
      or the latest of its kind since the datalog's row before. */
  predicate IsSource(h: seq<Arrival>, n: nat, p: nat)
    requires n < |h|
  {
    var d := h[n].datalog;
    && p <= n && h[p].datalog == d
    && if h[n].input.All? then p == n
       else !h[p].input.All? && LatestAt(h[..n + 1], Start(h[..n], d), d, h[p].input.Kind()) == Some(p)
  }

  function Sources(h: seq<Arrival>, n: nat): set<nat>
    requires n < |h|
  {
    set p | 0 <= p <= n && IsSource(h, n, p)
  }

  /** Those are the readings an assembled row is made of, one of each kind. */
  lemma RowIsMadeOfSources(h: seq<Arrival>, n: nat, kind: nat) returns (p: nat)
    requires EmitsAt(h, n) && !h[n].input.All? && 1 <= kind <= 6
    ensures p in Sources(h, n) && h[p].input.Kind() == kind
    ensures forall q :: q in Sources(h, n) && h[q].input.Kind() == kind ==> q == p
    ensures var slots := LatestSlots(Window(h[..n], h[n].datalog) + [h[n].input]);
      && Yield(Window(h[..n], h[n].datalog), h[n].input) == Derive(Assemble(slots))
      && Latest(Window(h[..n], h[n].datalog) + [h[n].input], kind) == Some(h[p].input)
  {
    var d := h[n].datalog;
    var from, w := Start(h[..n], d), Window(h[..n], d) + [h[n].input];
    WindowAt(h, n);
    LatestAtIsLatest(h[..n + 1], from, d, kind);
    FullIffAllSix(w);
    var j := LatestFinds(w, kind);
    p := LatestAt(h[..n + 1], from, d, kind).value;
  }

  lemma SlotIsLatest(w: seq<Input>, kind: nat)
    requires LatestSlots(w).Full() && 1 <= kind <= 6
    ensures Latest(w, kind) == Some(InSlot(LatestSlots(w), kind))
  {
    LatestIsOfKind(w, kind);
  }

  /** The block of each kind that can be read from an assembled row is its source reading, unaltered. */
  lemma RowReadsBack(h: seq<Arrival>, n: nat, kind: nat) returns (p: nat)
    requires Authentic(h) && EmitsAt(h, n) && !h[n].input.All? && 1 <= kind <= 6
    ensures p in Sources(h, n) && h[p].input.Kind() == kind
    ensures var row := Yield(Window(h[..n], h[n].datalog), h[n].input).value;
      ReadingFrom(row, kind) == h[p].input && Valid(row)
  {
    var d := h[n].datalog;
    var w := Window(h[..n], d) + [h[n].input];
    var slots := LatestSlots(w);
    p := RowIsMadeOfSources(h, n, kind);
    var first := RowIsMadeOfSources(h, n, 1);
    SlotIsLatest(w, kind);
    SlotIsLatest(w, 1);
    AssembledReadsBack(slots, kind);
    WindowAccepted(h[..n], d);
    YieldIff(Window(h[..n], d), h[n].input, d);
  }

  /** No reading is part of two rows, whosever they are. */
  lemma NoReuse(h: seq<Arrival>, m: nat, n: nat)
    requires m < n && EmitsAt(h, m) && EmitsAt(h, n)
    ensures Sources(h, m) !! Sources(h, n)
  {
    var d := h[n].datalog;
    if h[m].datalog == d {
      assert h[..n][..m] == h[..m];
      StartAfterRow(h[..n], m);
    }
  }

  /** The number of readings of one kind from one datalog. */
  function CountKind(h: seq<Arrival>, d: Serial, kind: nat): nat
  {
    if h == [] then 0
    else
      var last := h[|h| - 1];
      CountKind(h[..|h| - 1], d, kind)
        + (if last.datalog == d && last.input.Kind() == kind then 1 else 0)
  }

  /** The number of rows assembled from blocks for one datalog. */
  function AssembledRows(h: seq<Arrival>, d: Serial): nat
  {
    if h == [] then 0
    else
      var before, last := h[..|h| - 1], h[|h| - 1];
      AssembledRows(before, d)
        + (if last.datalog == d && !last.input.All? && Yield(Window(before, d), last.input).Some?
           then 1 else 0)
  }

  /** Conservation of blocks: every assembled row has used up one block of each kind, and one more is
      accounted for while it waits in the store. */
  lemma {:induction false} RowsBoundedByBlocks(h: seq<Arrival>, d: Serial, kind: nat)
    requires 1 <= kind <= 6
    ensures AssembledRows(h, d) + (if Has(Window(h, d), kind) then 1 else 0) <= CountKind(h, d, kind)
  {
    if h != [] {
      var before, last := h[..|h| - 1], h[|h| - 1];
      var w := Window(before, d);
      RowsBoundedByBlocks(before, d, kind);
      if last.datalog == d {
        var v := w + [last.input];
        FullIffAllSix(v);
        HasAppend(w, last.input, kind);
      }
    }
  }
}
