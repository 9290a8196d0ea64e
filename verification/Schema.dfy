/** The register schema: loading it without duplicates, and naming raw register values by it. */
module Schema {
  import opened Bytes
  import opened Numbers
  import opened Wrappers

  datatype Register = Register(
    number: u16, name: string, shortname: string, dataType: string, scaling: real)
  {
    /** The name under which values are stored. */
    function Field(): string
    {
      if shortname != "" then shortname else name
    }

    function DecodeValue(hex: string): real
    {
      var raw := match ParseU16(hex, 16) { case Some(v) => v case None => 0 };
      if dataType == "float" then raw as real * scaling else raw as real
    }
  }

  datatype RegisterType = RegisterType(registerType: string, registerMap: seq<Register>)

  datatype Duplicate =
    | DuplicateNumber(registerType: string, number: u16)
    | DuplicateField(field: string)

  datatype Parser = Parser(registers: map<u16, Register>)

  // Loading.

  function NumbersOf(registers: seq<Register>): set<u16>
  {
    set r | r in registers :: r.number
  }

  function FieldsOf(registers: seq<Register>): set<string>
  {
    set r | r in registers :: r.Field()
  }

  /** What there is to complain about in one more register of a type. */
  function Complaints(
    registerType: string, before: seq<Register>, r: Register, earlier: seq<Register>): seq<Duplicate>
  {
    (if r.number in NumbersOf(before) then [DuplicateNumber(registerType, r.number)] else [])
      + (if r.Field() in FieldsOf(earlier + before) then [DuplicateField(r.Field())] else [])
  }

  /** The complaints about one type, given the registers of the types before it. */
  function DuplicatesIn(registerType: string, registers: seq<Register>, earlier: seq<Register>): seq<Duplicate>
  {
    if registers == [] then []
    else
      var before, last := registers[..|registers| - 1], registers[|registers| - 1];
      DuplicatesIn(registerType, before, earlier) + Complaints(registerType, before, last, earlier)
  }

  function AllRegisters(types: seq<RegisterType>): seq<Register>
  {
    if types == [] then []
    else AllRegisters(types[..|types| - 1]) + types[|types| - 1].registerMap
  }

  function Duplicates(types: seq<RegisterType>): seq<Duplicate>
  {
    if types == [] then []
    else
      var before, last := types[..|types| - 1], types[|types| - 1];
      Duplicates(before) + DuplicatesIn(last.registerType, last.registerMap, AllRegisters(before))
  }

  /** Within a type the first definition of a number is kept. */
  function TypeRegisters(registers: seq<Register>): map<u16, Register>
  {
    if registers == [] then map[]
    else
      var before, last := TypeRegisters(registers[..|registers| - 1]), registers[|registers| - 1];
      if last.number in before then before else before[last.number := last]
  }

  /** Among the types the last one to define a number wins. */
  function Merged(types: seq<RegisterType>): map<u16, Register>
  {
    if types == [] then map[]
    else Merged(types[..|types| - 1]) + TypeRegisters(types[|types| - 1].registerMap)
  }

  method CheckRegister(registerType: string, r: Register, typeRegisters: map<u16, Register>, names: set<string>)
    returns (complaints: seq<Duplicate>, registers: map<u16, Register>, shortnames: set<string>)
    ensures complaints == (if r.number in typeRegisters then [DuplicateNumber(registerType, r.number)] else [])
                          + (if r.Field() in names then [DuplicateField(r.Field())] else [])
    ensures registers == if r.number in typeRegisters then typeRegisters else typeRegisters[r.number := r]
    ensures shortnames == names + {r.Field()}
  {
    complaints, registers, shortnames := [], typeRegisters, names;
    if r.number in typeRegisters {
      complaints := complaints + [DuplicateNumber(registerType, r.number)];
    } else {
      registers := registers[r.number := r];
    }
    if r.Field() in names {
      complaints := complaints + [DuplicateField(r.Field())];
    } else {
      shortnames := shortnames + {r.Field()};
    }
  }

  method CheckType(t: RegisterType, shortnames: set<string>, ghost earlier: seq<Register>)
    returns (typeRegisters: map<u16, Register>, names: set<string>, duplicates: seq<Duplicate>)
    requires shortnames == FieldsOf(earlier)
    ensures typeRegisters == TypeRegisters(t.registerMap)
    ensures names == FieldsOf(earlier + t.registerMap)
    ensures duplicates == DuplicatesIn(t.registerType, t.registerMap, earlier)
  {
    typeRegisters, names, duplicates := map[], shortnames, [];
    ghost var done: seq<Register> := [];
    assert earlier + done == earlier;
    for i := 0 to |t.registerMap|
      invariant done == t.registerMap[..i]
      invariant CheckedSoFar(t.registerType, done, earlier, typeRegisters, names, duplicates)
    {
      var register := t.registerMap[i];
      var complaints, registers, shortnames := CheckRegister(t.registerType, register, typeRegisters, names);
      CheckedOneMore(t.registerType, done, register, earlier, typeRegisters, names, duplicates);
      typeRegisters, names, duplicates := registers, shortnames, duplicates + complaints;
      done := done + [register];
    }
    assert done == t.registerMap;
  }

  ghost predicate CheckedSoFar(
    registerType: string, done: seq<Register>, earlier: seq<Register>,
    typeRegisters: map<u16, Register>, names: set<string>, duplicates: seq<Duplicate>)
  {
    && typeRegisters == TypeRegisters(done) && typeRegisters.Keys == NumbersOf(done)
    && names == FieldsOf(earlier + done)
    && duplicates == DuplicatesIn(registerType, done, earlier)
  }

  lemma CheckedOneMore(
    registerType: string, done: seq<Register>, r: Register, earlier: seq<Register>,
    typeRegisters: map<u16, Register>, names: set<string>, duplicates: seq<Duplicate>)
    requires CheckedSoFar(registerType, done, earlier, typeRegisters, names, duplicates)
    ensures CheckedSoFar(registerType, done + [r], earlier,
      if r.number in typeRegisters then typeRegisters else typeRegisters[r.number := r],
      names + {r.Field()},
      duplicates + ((if r.number in typeRegisters then [DuplicateNumber(registerType, r.number)] else [])
                    + (if r.Field() in names then [DuplicateField(r.Field())] else [])))
  {
    CheckStep(registerType, done, r, earlier);
    assert (if r.number in typeRegisters then typeRegisters else typeRegisters[r.number := r]).Keys
      == typeRegisters.Keys + {r.number};
  }

  lemma CheckStep(registerType: string, done: seq<Register>, r: Register, earlier: seq<Register>)
    ensures NumbersOf(done + [r]) == NumbersOf(done) + {r.number}
    ensures FieldsOf(earlier + (done + [r])) == FieldsOf(earlier + done) + {r.Field()}
    ensures TypeRegisters(done + [r])
         == if r.number in TypeRegisters(done) then TypeRegisters(done) else TypeRegisters(done)[r.number := r]
    ensures DuplicatesIn(registerType, done + [r], earlier)
         == DuplicatesIn(registerType, done, earlier)
            + ((if r.number in NumbersOf(done) then [DuplicateNumber(registerType, r.number)] else [])
               + (if r.Field() in FieldsOf(earlier + done) then [DuplicateField(r.Field())] else []))
  {
    var all := done + [r];
    assert all[..|all| - 1] == done && all[|all| - 1] == r;
    assert earlier + all == (earlier + done) + [r];
    NumbersAppend(done, r);
    FieldsAppend(earlier + done, r);
  }

  lemma FieldsAppend(registers: seq<Register>, r: Register)
    ensures FieldsOf(registers + [r]) == FieldsOf(registers) + {r.Field()}
  {
    var all := registers + [r];
    assert all[|registers|] == r;
    forall q | q in registers ensures q in all { }
    assert forall q :: q in all <==> q in registers || q == r;
  }

  lemma NumbersAppend(registers: seq<Register>, r: Register)
    ensures NumbersOf(registers + [r]) == NumbersOf(registers) + {r.number}
  {
    var all := registers + [r];
    assert all[|registers|] == r;
    assert forall q :: q in all <==> q in registers || q == r;
  }

  method New(types: seq<RegisterType>) returns (r: Result<Parser, seq<Duplicate>>)
    ensures r == if Duplicates(types) == [] then Success(Parser(Merged(types))) else Failure(Duplicates(types))
  {
    var registers: map<u16, Register>, shortnames: set<string>, duplicates: seq<Duplicate> := map[], {}, [];
    for i := 0 to |types|
      invariant registers == Merged(types[..i])
      invariant shortnames == FieldsOf(AllRegisters(types[..i]))
      invariant duplicates == Duplicates(types[..i])
    {
      ghost var now := types[..i + 1];
      assert now[..|now| - 1] == types[..i];
      var typeRegisters, names, more := CheckType(types[i], shortnames, AllRegisters(types[..i]));
      registers, shortnames, duplicates := registers + typeRegisters, names, duplicates + more;
    }
    assert types[..|types|] == types;
    r := if duplicates != [] then Failure(duplicates) else Success(Parser(registers));
  }

  // When loading succeeds.

  ghost predicate DistinctNumbers(registers: seq<Register>)
  {
    forall i, j :: 0 <= i < j < |registers| ==> registers[i].number != registers[j].number
  }

  ghost predicate DistinctFields(registers: seq<Register>)
  {
    forall i, j :: 0 <= i < j < |registers| ==> registers[i].Field() != registers[j].Field()
  }

  ghost predicate DistinctWithinTypes(types: seq<RegisterType>)
  {
    forall t :: 0 <= t < |types| ==> DistinctNumbers(types[t].registerMap)
  }

  lemma DistinctNumbersStep(registers: seq<Register>, r: Register)
    ensures DistinctNumbers(registers + [r]) <==> DistinctNumbers(registers) && r.number !in NumbersOf(registers)
  {
    var all := registers + [r];
    assert forall i :: 0 <= i < |registers| ==> all[i] == registers[i];
    if r.number in NumbersOf(registers) {
      var i :| 0 <= i < |registers| && registers[i].number == r.number;
      assert all[i].number == all[|registers|].number;
    }
  }

  lemma DistinctFieldsStep(registers: seq<Register>, r: Register)
    ensures DistinctFields(registers + [r]) <==> DistinctFields(registers) && r.Field() !in FieldsOf(registers)
  {
    var all := registers + [r];
    assert forall i :: 0 <= i < |registers| ==> all[i] == registers[i];
    if r.Field() in FieldsOf(registers) {
      var i :| 0 <= i < |registers| && registers[i].Field() == r.Field();
      assert all[i].Field() == all[|registers|].Field();
    }
  }

  lemma {:induction false} TypeAcceptedIff(registerType: string, registers: seq<Register>, earlier: seq<Register>)
    requires DistinctFields(earlier)
    ensures DuplicatesIn(registerType, registers, earlier) == []
      <==> DistinctNumbers(registers) && DistinctFields(earlier + registers)
  {
    if registers == [] {
      assert earlier + registers == earlier;
    } else {
      var before, last := registers[..|registers| - 1], registers[|registers| - 1];
      assert registers == before + [last] && earlier + registers == (earlier + before) + [last];
      TypeAcceptedIff(registerType, before, earlier);
      DistinctNumbersStep(before, last);
      DistinctFieldsStep(earlier + before, last);
    }
  }

  /** A schema is accepted exactly when numbers are distinct within each type and field names are
      distinct across all of them. */
  lemma {:induction false} AcceptedIff(types: seq<RegisterType>)
    ensures Duplicates(types) == [] <==> DistinctWithinTypes(types) && DistinctFields(AllRegisters(types))
  {
    if types != [] {
      var before, last := types[..|types| - 1], types[|types| - 1];
      var earlier := AllRegisters(before);
      AcceptedIff(before);
      assert DistinctWithinTypes(types) <==> DistinctWithinTypes(before) && DistinctNumbers(last.registerMap) by {
        assert forall t :: 0 <= t < |before| ==> types[t] == before[t];
      }
      if DistinctFields(earlier) {
        TypeAcceptedIff(last.registerType, last.registerMap, earlier);
      } else {
        var i, j :| 0 <= i < j < |earlier| && earlier[i].Field() == earlier[j].Field();
        var all := AllRegisters(types);
        assert all[i].Field() == all[j].Field();
      }
    }
  }

  // What loading builds.

  lemma {:induction false} TypeRegistersHolds(registers: seq<Register>, n: u16)
    ensures n in TypeRegisters(registers) <==> n in NumbersOf(registers)
    ensures n in TypeRegisters(registers) ==>
      TypeRegisters(registers)[n] in registers && TypeRegisters(registers)[n].number == n
  {
    if registers != [] {
      var before, last := registers[..|registers| - 1], registers[|registers| - 1];
      assert registers == before + [last];
      NumbersAppend(before, last);
      TypeRegistersHolds(before, n);
    }
  }

  lemma {:induction false} MergedHolds(types: seq<RegisterType>, n: u16)
    ensures n in Merged(types) ==> Merged(types)[n] in AllRegisters(types) && Merged(types)[n].number == n
  {
    if types != [] {
      MergedHolds(types[..|types| - 1], n);
      TypeRegistersHolds(types[|types| - 1].registerMap, n);
    }
  }

  /** The last type to define a number settles what it means. */
  lemma {:induction false} LastTypeWins(types: seq<RegisterType>, t: nat, r: Register)
    requires DistinctWithinTypes(types) && t < |types| && r in types[t].registerMap
    requires forall u :: t < u < |types| ==> r.number !in NumbersOf(types[u].registerMap)
    ensures r.number in Merged(types) && Merged(types)[r.number] == r
  {
    var before, last := types[..|types| - 1], types[|types| - 1];
    TypeRegistersHolds(last.registerMap, r.number);
    if t < |before| {
      assert forall u :: 0 <= u < |before| ==> before[u] == types[u];
      assert r.number !in NumbersOf(types[|types| - 1].registerMap);
      LastTypeWins(before, t, r);
    } else {
      var i :| 0 <= i < |last.registerMap| && last.registerMap[i] == r;
      var j :| 0 <= j < |last.registerMap| && last.registerMap[j] == TypeRegisters(last.registerMap)[r.number];
      assert i == j;
    }
  }

  /** No two known registers share a field. */
  lemma FieldsApart(types: seq<RegisterType>, m: u16, n: u16)
    requires Duplicates(types) == [] && m in Merged(types) && n in Merged(types)
    requires Merged(types)[m].Field() == Merged(types)[n].Field()
    ensures m == n
  {
    AcceptedIff(types);
    MergedHolds(types, m);
    MergedHolds(types, n);
    var all := AllRegisters(types);
    var i :| 0 <= i < |all| && all[i] == Merged(types)[m];
    var j :| 0 <= j < |all| && all[j] == Merged(types)[n];
    assert i == j;
  }

  // Decoding.

  /** How unknown registers are handled, and what their fields start with. */
  datatype Naming = Naming(showUnknown: bool, registerType: string)

  function UnknownField(naming: Naming, n: u16): string
  {
    naming.registerType + "_unknown_" + Print(n)
  }

  /** The field that a raw entry goes to, if it is kept. */
  function Target(parser: Parser, naming: Naming, key: string): Option<string>
  {
    var n := ParseU16(key, 10);
    if n.None? then None
    else if n.value in parser.registers then Some(parser.registers[n.value].Field())
    else if naming.showUnknown then Some(UnknownField(naming, n.value))
    else None
  }

  function Decoded(parser: Parser, key: string, hex: string): real
  {
    var n := ParseU16(key, 10);
    if n.Some? && n.value in parser.registers then parser.registers[n.value].DecodeValue(hex)
    else match ParseU16(hex, 16) { case Some(v) => v as real case None => 0.0 }
  }

  /** Every field comes from an entry that goes there, and every entry that is kept has its field. */
  ghost predicate Decodes(parser: Parser, naming: Naming, raw: map<string, string>, decoded: map<string, real>)
  {
    && (forall f :: f in decoded ==> exists key :: Feeds(parser, naming, raw, key, f, decoded[f]))
    && (forall key :: key in raw && Target(parser, naming, key).Some? ==>
      Target(parser, naming, key).value in decoded)
  }

  predicate Feeds(parser: Parser, naming: Naming, raw: map<string, string>, key: string, field: string, value: real)
  {
    key in raw && Target(parser, naming, key) == Some(field) && Decoded(parser, key, raw[key]) == value
  }

  /** The entries come in no particular order. */
  method DecodeRegisters(parser: Parser, raw: map<string, string>, showUnknown: bool, registerType: string)
    returns (decoded: map<string, real>)
    ensures Decodes(parser, Naming(showUnknown, registerType), raw, decoded)
  {
    ghost var naming := Naming(showUnknown, registerType);
    decoded := map[];
    var left := raw.Keys;
    while left != {}
      invariant left <= raw.Keys
      invariant forall f :: f in decoded ==> exists key :: Feeds(parser, naming, raw, key, f, decoded[f])
      invariant forall key :: key in raw.Keys - left && Target(parser, naming, key).Some? ==>
        Target(parser, naming, key).value in decoded
      decreases |left|
    {
      var key :| key in left;
      left := left - {key};
      var n := ParseU16(key, 10);
      if n.Some? {
        if n.value in parser.registers {
          var register := parser.registers[n.value];
          var value := register.DecodeValue(raw[key]);
          assert Feeds(parser, naming, raw, key, register.Field(), value);
          decoded := decoded[register.Field() := value];
        } else if showUnknown {
          var value := match ParseU16(raw[key], 16) { case Some(v) => v as real case None => 0.0 };
          var field := registerType + "_unknown_" + Print(n.value);
          assert Feeds(parser, naming, raw, key, field, value);
          decoded := decoded[field := value];
        }
      }
    }
  }

  /** No two entries go to the same field, and every entry is kept. */
  ghost predicate Separates(parser: Parser, naming: Naming, raw: map<string, string>)
  {
    && (forall key :: key in raw ==> Target(parser, naming, key).Some?)
    && (forall j, k :: j in raw && k in raw && Target(parser, naming, j) == Target(parser, naming, k) ==> j == k)
  }

  /** When every entry has a field to itself, decoding keeps them all, and their order is irrelevant. */
  lemma SeparateEntriesKept(
    parser: Parser, naming: Naming, raw: map<string, string>, decoded: map<string, real>, key: string)
    requires Decodes(parser, naming, raw, decoded) && Separates(parser, naming, raw) && key in raw
    ensures var field := Target(parser, naming, key).value;
      field in decoded && decoded[field] == Decoded(parser, key, raw[key])
  {
    var field := Target(parser, naming, key).value;
    var other :| Feeds(parser, naming, raw, other, field, decoded[field]);
    assert other == key;
  }

  function FieldOf(parser: Parser, naming: Naming, key: string): string
  {
    match Target(parser, naming, key) case Some(field) => field case None => ""
  }

  function Kept(parser: Parser, naming: Naming, raw: map<string, string>): set<string>
  {
    set key | key in raw && Target(parser, naming, key).Some?
  }

  function FieldsFor(parser: Parser, naming: Naming, keys: set<string>): set<string>
  {
    set k | k in keys :: FieldOf(parser, naming, k)
  }

  ghost predicate Injective(parser: Parser, naming: Naming, keys: set<string>)
  {
    forall j, k :: j in keys && k in keys && FieldOf(parser, naming, j) == FieldOf(parser, naming, k) ==> j == k
  }

  lemma {:induction false} FieldsForSize(parser: Parser, naming: Naming, keys: set<string>)
    ensures |FieldsFor(parser, naming, keys)| <= |keys|
    ensures |FieldsFor(parser, naming, keys)| == |keys| <==> Injective(parser, naming, keys)
  {
    if keys != {} {
      var k :| k in keys;
      var rest, field := keys - {k}, FieldOf(parser, naming, k);
      FieldsForSize(parser, naming, rest);
      assert FieldsFor(parser, naming, keys) == FieldsFor(parser, naming, rest) + {field};
      if field in FieldsFor(parser, naming, rest) {
        var j :| j in rest && FieldOf(parser, naming, j) == field;
      }
    }
  }

  lemma DecodedFields(parser: Parser, naming: Naming, raw: map<string, string>, decoded: map<string, real>)
    requires Decodes(parser, naming, raw, decoded)
    ensures decoded.Keys == FieldsFor(parser, naming, Kept(parser, naming, raw))
  {
    var fields := FieldsFor(parser, naming, Kept(parser, naming, raw));
    forall field | field in decoded.Keys ensures field in fields {
      var key :| Feeds(parser, naming, raw, key, field, decoded[field]);
      assert key in Kept(parser, naming, raw);
    }
    forall field | field in fields ensures field in decoded.Keys {
      var key :| key in Kept(parser, naming, raw) && FieldOf(parser, naming, key) == field;
      assert key in raw && Target(parser, naming, key).Some?;
    }
  }

  lemma SeparatesIffInjective(parser: Parser, naming: Naming, raw: map<string, string>)
    ensures Separates(parser, naming, raw)
      <==> Kept(parser, naming, raw) == raw.Keys && Injective(parser, naming, raw.Keys)
  {
    if Separates(parser, naming, raw) {
      assert Kept(parser, naming, raw) == raw.Keys;
    } else if Kept(parser, naming, raw) == raw.Keys {
      assert forall key :: key in raw ==> key in Kept(parser, naming, raw);
      var j, k :| j in raw && k in raw && Target(parser, naming, j) == Target(parser, naming, k) && j != k;
      assert FieldOf(parser, naming, j) == FieldOf(parser, naming, k);
    }
  }

  /** Exactly as many fields come out as entries went in, if and only if every entry has a field to
      itself. */
  lemma LosslessIff(parser: Parser, naming: Naming, raw: map<string, string>, decoded: map<string, real>)
    requires Decodes(parser, naming, raw, decoded)
    ensures |decoded| <= |raw|
    ensures |decoded| == |raw| <==> Separates(parser, naming, raw)
  {
    var kept := Kept(parser, naming, raw);
    DecodedFields(parser, naming, raw, decoded);
    FieldsForSize(parser, naming, kept);
    SubsetSize(kept, raw.Keys);
    SeparatesIffInjective(parser, naming, raw);
    assert |decoded| == |decoded.Keys| && |raw| == |raw.Keys|;
  }

  lemma SubsetSize(small: set<string>, large: set<string>)
    requires small <= large
    ensures |small| <= |large|
    ensures |small| == |large| <==> small == large
  {
    assert large == small + (large - small);
  }

  /** Every key is a register number in plain decimal. */
  ghost predicate PlainKeys(raw: map<string, string>)
  {
    forall key :: key in raw ==> Canonical(key) && ParseU16(key, 10).Some?
  }

  predicate Known(parser: Parser, key: string)
  {
    var n := ParseU16(key, 10);
    n.Some? && n.value in parser.registers
  }

  /** The field of one of the known entries is spelled like that of one of the unknown ones. */
  ghost predicate FieldsClash(parser: Parser, naming: Naming, raw: map<string, string>)
  {
    exists j, k :: j in raw && k in raw && Known(parser, j) && !Known(parser, k)
      && Target(parser, naming, j) == Target(parser, naming, k)
  }

  lemma PlainKeysDiffer(types: seq<RegisterType>, naming: Naming, j: string, k: string)
    requires Duplicates(types) == []
    requires Canonical(j) && ParseU16(j, 10).Some? && Canonical(k) && ParseU16(k, 10).Some?
    requires var parser := Parser(Merged(types));
      && Known(parser, j) == Known(parser, k)
      && Target(parser, naming, j) == Target(parser, naming, k) && Target(parser, naming, j).Some?
    ensures j == k
  {
    var m, n := ParseU16(j, 10).value, ParseU16(k, 10).value;
    PrintParse(j);
    PrintParse(k);
    if m in Merged(types) {
      FieldsApart(types, m, n);
    } else {
      var prefix := naming.registerType + "_unknown_";
      assert (prefix + Print(m))[|prefix|..] == Print(m);
      assert (prefix + Print(n))[|prefix|..] == Print(n);
    }
  }

  predicate AllHaveField(parser: Parser, naming: Naming, raw: map<string, string>)
  {
    naming.showUnknown || forall key :: key in raw ==> Known(parser, key)
  }

  /** In an accepted schema, entries with plain keys each have a field to themselves if and only if
      unknown ones are shown where there are any, and none of those takes the field of a known one. */
  lemma PlainKeysSeparate(types: seq<RegisterType>, naming: Naming, raw: map<string, string>)
    requires Duplicates(types) == [] && PlainKeys(raw)
    ensures var parser := Parser(Merged(types));
      Separates(parser, naming, raw)
      <==> AllHaveField(parser, naming, raw) && !FieldsClash(parser, naming, raw)
  {
    var parser := Parser(Merged(types));
    if AllHaveField(parser, naming, raw) && !FieldsClash(parser, naming, raw) {
      forall j, k | j in raw && k in raw && Target(parser, naming, j) == Target(parser, naming, k)
        ensures j == k
      {
        PlainKeysDiffer(types, naming, j, k);
      }
    }
  }

  /** The field of a known entry holds the value of that very entry. */
  predicate KeepsEntry(parser: Parser, raw: map<string, string>, decoded: map<string, real>, key: string)
    requires key in raw
  {
    && Known(parser, key)
    && var register := parser.registers[ParseU16(key, 10).value];
    register.Field() in decoded && decoded[register.Field()] == register.DecodeValue(raw[key])
  }

  /** Lossless decoding: with an accepted schema, n known registers with plain keys give exactly n
      fields, each with the value of its own entry, whatever the order and the naming of unknown ones. */
  lemma KnownRegistersDecoded(
    types: seq<RegisterType>, naming: Naming, raw: map<string, string>, decoded: map<string, real>)
    requires Duplicates(types) == [] && PlainKeys(raw)
    requires forall key :: key in raw ==> Known(Parser(Merged(types)), key)
    requires Decodes(Parser(Merged(types)), naming, raw, decoded)
    ensures |decoded| == |raw|
    ensures forall key :: key in raw ==> KeepsEntry(Parser(Merged(types)), raw, decoded, key)
  {
    var parser := Parser(Merged(types));
    PlainKeysSeparate(types, naming, raw);
    LosslessIff(parser, naming, raw, decoded);
    forall key | key in raw ensures KeepsEntry(parser, raw, decoded, key) {
      KnownEntryKept(parser, naming, raw, decoded, key);
    }
  }

  lemma KnownEntryKept(
    parser: Parser, naming: Naming, raw: map<string, string>, decoded: map<string, real>, key: string)
    requires Decodes(parser, naming, raw, decoded) && Separates(parser, naming, raw)
    requires key in raw && Known(parser, key)
    ensures KeepsEntry(parser, raw, decoded, key)
  {
    SeparateEntriesKept(parser, naming, raw, decoded, key);
  }

  // Values and names.

  lemma ValueDecoded(register: Register, hex: string, n: u16)
    requires ParseU16(hex, 16) == Some(n)
    ensures register.DecodeValue(hex) == if register.dataType == "float" then n as real * register.scaling else n as real
  {}

  /** A raw value written in four hexadecimal digits decodes to itself, scaled for floats; what is no
      hexadecimal number decodes to zero. */
  lemma RawValueDecoded(register: Register, n: u16, garbage: string)
    ensures register.DecodeValue(Hex4(n)) == if register.dataType == "float" then n as real * register.scaling else n as real
    ensures ParseU16(garbage, 16).None? ==> register.DecodeValue(garbage) == 0.0
  {
    HexRoundTrip(n);
    ValueDecoded(register, Hex4(n), n);
  }

  /** An unknown register is stored, if at all, unscaled and under its number. */
  lemma UnknownDecoded(parser: Parser, naming: Naming, register: u16, n: u16)
    requires register !in parser.registers
    ensures Decoded(parser, Print(register), Hex4(n)) == n as real
    ensures Target(parser, naming, Print(register))
      == if naming.showUnknown then Some(naming.registerType + "_unknown_" + Print(register)) else None
  {
    ParsePrint(register);
    HexRoundTrip(n);
  }

  /** Shortnames go before names: where all have one, only those count, and where none has, only names. */
  lemma ShortnamesFirst(registers: seq<Register>)
    ensures (forall r :: r in registers ==> r.shortname != "") ==>
      (DistinctFields(registers)
       <==> forall i, j :: 0 <= i < j < |registers| ==> registers[i].shortname != registers[j].shortname)
    ensures (forall r :: r in registers ==> r.shortname == "") ==>
      (DistinctFields(registers)
       <==> forall i, j :: 0 <= i < j < |registers| ==> registers[i].name != registers[j].name)
  {}
}
