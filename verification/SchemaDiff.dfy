/** diff_schemas: comparing a live schema with an expected one, by name. */
module SchemaDiff {
  import opened Sorting
  import opened DdlParser

  // ---- sorted() on names ---------------------------------------------------------------

  predicate Less(a: string, b: string) {
    b != "" && (a == "" || a[0] < b[0] || (a[0] == b[0] && Less(a[1..], b[1..])))
  }

  lemma {:induction false} LessLaws(a: string, b: string, c: string)
    ensures !Less(a, a)
    ensures a != b ==> Less(a, b) || Less(b, a)
    ensures Less(a, b) ==> !Less(b, a)
    ensures Less(a, b) && Less(b, c) ==> Less(a, c)
    decreases |a|
  {
    if a != "" {
      LessLaws(a[1..], if b == "" then "" else b[1..], if c == "" then "" else c[1..]);
      assert a == [a[0]] + a[1..] && (b != "" ==> b == [b[0]] + b[1..]);
    }
  }

  function ByName(): (string, string) -> bool { (a, b) => Less(a, b) }

  lemma ByNameIsTotal()
    ensures StrictTotalOrder(ByName())
  {
    forall a, b, c
      ensures !Less(a, a) && (a != b ==> Less(a, b) || Less(b, a)) && (Less(a, b) ==> !Less(b, a))
              && (Less(a, b) && Less(b, c) ==> Less(a, c))
    {
      LessLaws(a, b, c);
    }
  }

  function SortNames(names: set<string>): seq<string> {
    ByNameIsTotal();
    Sort(names, ByName())
  }

  lemma SortNamesFacts(names: set<string>)
    ensures forall n :: n in SortNames(names) <==> n in names
    ensures |SortNames(names)| == |names|
    ensures SortNames(names) == [] <==> names == {}
  {
    ByNameIsTotal();
    SortFacts(names, ByName());
  }

  // ---- The diff ------------------------------------------------------------------------

  datatype TableDiff = TableDiff(
    table: string,
    missingColumns: seq<string>, extraColumns: seq<string>,
    missingIndexes: seq<string>, extraIndexes: seq<string>,
    missingConstraints: seq<string>, extraConstraints: seq<string>)

  datatype EnumDiff = EnumDiff(name: string, missingValues: seq<string>, extraValues: seq<string>)

  datatype SchemaDiff = SchemaDiff(
    revision: string,
    missingTables: seq<string>, extraTables: seq<string>,
    missingEnums: seq<string>, extraEnums: seq<string>,
    tableDiffs: seq<TableDiff>, enumDiffs: seq<EnumDiff>)

  predicate TableClean(d: TableDiff) {
    && d.missingColumns == [] && d.extraColumns == [] && d.missingIndexes == [] && d.extraIndexes == []
    && d.missingConstraints == [] && d.extraConstraints == []
  }

  predicate EnumClean(d: EnumDiff) { d.missingValues == [] && d.extraValues == [] }

  function DiffTable(name: string, live: Table, expected: Table): TableDiff {
    TableDiff(name,
      SortNames(expected.columns.Keys - live.columns.Keys), SortNames(live.columns.Keys - expected.columns.Keys),
      SortNames(expected.indexes - live.indexes), SortNames(live.indexes - expected.indexes),
      SortNames(expected.constraints - live.constraints), SortNames(live.constraints - expected.constraints))
  }

  /** tuple(v for v in values if v not in others), in declaration order. */
  function NotIn(values: seq<string>, others: seq<string>): seq<string> {
    if values == [] then [] else
      NotIn(values[..|values| - 1], others)
      + if values[|values| - 1] in others then [] else [values[|values| - 1]]
  }

  function DiffEnum(name: string, live: seq<string>, expected: seq<string>): EnumDiff {
    EnumDiff(name, NotIn(expected, live), NotIn(live, expected))
  }

  function TableDiffs(names: seq<string>, live: Snapshot, expected: Snapshot): seq<TableDiff> {
    if names == [] then [] else
      var d := DiffTable(names[|names| - 1], Get(live, names[|names| - 1]), Get(expected, names[|names| - 1]));
      TableDiffs(names[..|names| - 1], live, expected) + if TableClean(d) then [] else [d]
  }

  function EnumDiffs(names: seq<string>, live: Snapshot, expected: Snapshot): seq<EnumDiff> {
    if names == [] then [] else
      var d := DiffEnum(names[|names| - 1], Values(live, names[|names| - 1]), Values(expected, names[|names| - 1]));
      EnumDiffs(names[..|names| - 1], live, expected) + if EnumClean(d) then [] else [d]
  }

  function Diff(live: Snapshot, expected: Snapshot, revision: string): SchemaDiff {
    SchemaDiff(revision,
      SortNames(expected.tables.Keys - live.tables.Keys), SortNames(live.tables.Keys - expected.tables.Keys),
      SortNames(expected.enums.Keys - live.enums.Keys), SortNames(live.enums.Keys - expected.enums.Keys),
      TableDiffs(SortNames(live.tables.Keys * expected.tables.Keys), live, expected),
      EnumDiffs(SortNames(live.enums.Keys * expected.enums.Keys), live, expected))
  }

  method CompareTables(live: Snapshot, expected: Snapshot) returns (tableDiffs: seq<TableDiff>)
    ensures tableDiffs == TableDiffs(SortNames(live.tables.Keys * expected.tables.Keys), live, expected)
  {
    tableDiffs := [];
    var common := SortNames(live.tables.Keys * expected.tables.Keys);
    SortNamesFacts(live.tables.Keys * expected.tables.Keys);
    hide SortNames, DiffTable, TableClean;
    for i := 0 to |common|
      invariant tableDiffs == TableDiffs(common[..i], live, expected)
    {
      assert common[i] in common && common[..i + 1][..i] == common[..i];
      var td := DiffTable(common[i], live.tables[common[i]], expected.tables[common[i]]);
      if !TableClean(td) { tableDiffs := tableDiffs + [td]; }
    }
    assert common[..|common|] == common;
  }

  method CompareEnums(live: Snapshot, expected: Snapshot) returns (enumDiffs: seq<EnumDiff>)
    ensures enumDiffs == EnumDiffs(SortNames(live.enums.Keys * expected.enums.Keys), live, expected)
  {
    enumDiffs := [];
    var common := SortNames(live.enums.Keys * expected.enums.Keys);
    SortNamesFacts(live.enums.Keys * expected.enums.Keys);
    hide SortNames, DiffEnum, EnumClean;
    for i := 0 to |common|
      invariant enumDiffs == EnumDiffs(common[..i], live, expected)
    {
      assert common[i] in common && common[..i + 1][..i] == common[..i];
      var ed := DiffEnum(common[i], live.enums[common[i]], expected.enums[common[i]]);
      if !EnumClean(ed) { enumDiffs := enumDiffs + [ed]; }
    }
    assert common[..|common|] == common;
  }

  method DiffSchemas(live: Snapshot, expected: Snapshot, revision: string) returns (d: SchemaDiff)
    ensures d == Diff(live, expected, revision)
  {
    var tableDiffs := CompareTables(live, expected);
    var enumDiffs := CompareEnums(live, expected);
    hide SortNames, TableDiffs, EnumDiffs;
    d := SchemaDiff(revision,
      SortNames(expected.tables.Keys - live.tables.Keys), SortNames(live.tables.Keys - expected.tables.Keys),
      SortNames(expected.enums.Keys - live.enums.Keys), SortNames(live.enums.Keys - expected.enums.Keys),
      tableDiffs, enumDiffs);
  }

  // ---- What the diff says about a name ----------------------------------------------------

  /** The diff of one table, empty when the table is not listed. */
  function TableEntry(ds: seq<TableDiff>, t: string): TableDiff {
    if ds == [] then TableDiff(t, [], [], [], [], [], [])
    else if ds[|ds| - 1].table == t then ds[|ds| - 1] else TableEntry(ds[..|ds| - 1], t)
  }

  function EnumEntry(ds: seq<EnumDiff>, e: string): EnumDiff {
    if ds == [] then EnumDiff(e, [], [])
    else if ds[|ds| - 1].name == e then ds[|ds| - 1] else EnumEntry(ds[..|ds| - 1], e)
  }

  /** Listed as missing, a missing table or enum standing for all it contains. */
  predicate Missing(d: SchemaDiff, expected: Snapshot, n: Name) {
    match n
    case TableName(t) => t in d.missingTables
    case ColumnName(t, c) =>
      c in TableEntry(d.tableDiffs, t).missingColumns || (t in d.missingTables && Has(expected, n))
    case IndexName(t, i) =>
      i in TableEntry(d.tableDiffs, t).missingIndexes || (t in d.missingTables && Has(expected, n))
    case ConstraintName(t, c) =>
      c in TableEntry(d.tableDiffs, t).missingConstraints || (t in d.missingTables && Has(expected, n))
    case EnumName(e) => e in d.missingEnums
    case ValueName(e, v) => v in EnumEntry(d.enumDiffs, e).missingValues || (e in d.missingEnums && Has(expected, n))
  }

  /** Listed as extra, an extra table or enum standing for all it contains. */
  predicate Extra(d: SchemaDiff, n: Name) {
    match n
    case TableName(t) => t in d.extraTables
    case ColumnName(t, c) => c in TableEntry(d.tableDiffs, t).extraColumns || t in d.extraTables
    case IndexName(t, i) => i in TableEntry(d.tableDiffs, t).extraIndexes || t in d.extraTables
    case ConstraintName(t, c) => c in TableEntry(d.tableDiffs, t).extraConstraints || t in d.extraTables
    case EnumName(e) => e in d.extraEnums
    case ValueName(e, v) => v in EnumEntry(d.enumDiffs, e).extraValues || e in d.extraEnums
  }

  lemma {:induction false} NotInFacts(values: seq<string>, others: seq<string>)
    ensures forall v :: v in NotIn(values, others) <==> v in values && v !in others
  {
    if values != [] {
      NotInFacts(values[..|values| - 1], others);
      assert values == values[..|values| - 1] + [values[|values| - 1]];
    }
  }

  lemma DiffTableFacts(t: string, live: Table, expected: Table)
    ensures
      var d := DiffTable(t, live, expected);
      && d.table == t
      && (forall c :: c in d.missingColumns <==> c in expected.columns && c !in live.columns)
      && (forall c :: c in d.extraColumns <==> c in live.columns && c !in expected.columns)
      && (forall c :: c in d.missingIndexes <==> c in expected.indexes && c !in live.indexes)
      && (forall c :: c in d.extraIndexes <==> c in live.indexes && c !in expected.indexes)
      && (forall c :: c in d.missingConstraints <==> c in expected.constraints && c !in live.constraints)
      && (forall c :: c in d.extraConstraints <==> c in live.constraints && c !in expected.constraints)
  {
    SortNamesFacts(expected.columns.Keys - live.columns.Keys);
    SortNamesFacts(live.columns.Keys - expected.columns.Keys);
    SortNamesFacts(expected.indexes - live.indexes);
    SortNamesFacts(live.indexes - expected.indexes);
    SortNamesFacts(expected.constraints - live.constraints);
    SortNamesFacts(live.constraints - expected.constraints);
    hide SortNames;
  }

  lemma EntrySnoc(ds: seq<TableDiff>, d: TableDiff, es: seq<EnumDiff>, e: EnumDiff, name: string)
    ensures TableEntry(ds + [d], name) == if d.table == name then d else TableEntry(ds, name)
    ensures EnumEntry(es + [e], name) == if e.name == name then e else EnumEntry(es, name)
  {
    assert (ds + [d])[..|ds|] == ds && (es + [e])[..|es|] == es;
  }

  lemma {:induction false} EntryFacts(names: seq<string>, live: Snapshot, expected: Snapshot, n: string)
    ensures TableEntry(TableDiffs(names, live, expected), n)
            == if n in names then DiffTable(n, Get(live, n), Get(expected, n)) else TableDiff(n, [], [], [], [], [], [])
    ensures EnumEntry(EnumDiffs(names, live, expected), n)
            == if n in names then DiffEnum(n, Values(live, n), Values(expected, n)) else EnumDiff(n, [], [])
    decreases |names|
  {
    if names != [] {
      var init, last := names[..|names| - 1], names[|names| - 1];
      EntryFacts(init, live, expected, n);
      assert n in names <==> n in init || n == last;
      var d := DiffTable(last, Get(live, last), Get(expected, last));
      var e := DiffEnum(last, Values(live, last), Values(expected, last));
      var ds, es := TableDiffs(init, live, expected), EnumDiffs(init, live, expected);
      assert d.table == last && e.name == last;
      assert TableClean(d) ==> d == TableDiff(last, [], [], [], [], [], []);
      assert EnumClean(e) ==> e == EnumDiff(last, [], []);
      assert TableDiffs(names, live, expected) == if TableClean(d) then ds else ds + [d];
      assert EnumDiffs(names, live, expected) == if EnumClean(e) then es else es + [e];
      EntrySnoc(ds, d, es, e, n);
      hide *;
    }
  }

  /** What the diff says of one table that both sides have. */
  lemma TablePart(live: Snapshot, expected: Snapshot, t: string)
    ensures
      var d := TableEntry(TableDiffs(SortNames(live.tables.Keys * expected.tables.Keys), live, expected), t);
      var both := t in live.tables && t in expected.tables;
      && (forall c ::
          c in d.missingColumns <==> both && c in expected.tables[t].columns && c !in live.tables[t].columns)
      && (forall c :: c in d.extraColumns <==> both && c in live.tables[t].columns && c !in expected.tables[t].columns)
      && (forall c ::
          c in d.missingIndexes <==> both && c in expected.tables[t].indexes && c !in live.tables[t].indexes)
      && (forall c :: c in d.extraIndexes <==> both && c in live.tables[t].indexes && c !in expected.tables[t].indexes)
      && (forall c ::
          c in d.missingConstraints <==>
          both && c in expected.tables[t].constraints && c !in live.tables[t].constraints)
      && (forall c ::
          c in d.extraConstraints <==> both && c in live.tables[t].constraints && c !in expected.tables[t].constraints)
  {
    SortNamesFacts(live.tables.Keys * expected.tables.Keys);
    EntryFacts(SortNames(live.tables.Keys * expected.tables.Keys), live, expected, t);
    DiffTableFacts(t, Get(live, t), Get(expected, t));
    hide SortNames, DiffTable, TableDiffs, TableEntry;
  }

  lemma EnumPart(live: Snapshot, expected: Snapshot, e: string, v: string)
    ensures
      var d := EnumEntry(EnumDiffs(SortNames(live.enums.Keys * expected.enums.Keys), live, expected), e);
      var both := e in live.enums && e in expected.enums;
      && (v in d.missingValues <==> both && Has(expected, ValueName(e, v)) && !Has(live, ValueName(e, v)))
      && (v in d.extraValues <==> both && Has(live, ValueName(e, v)) && !Has(expected, ValueName(e, v)))
  {
    SortNamesFacts(live.enums.Keys * expected.enums.Keys);
    EntryFacts(SortNames(live.enums.Keys * expected.enums.Keys), live, expected, e);
    NotInFacts(Values(expected, e), Values(live, e));
    NotInFacts(Values(live, e), Values(expected, e));
    hide SortNames, NotIn, EnumDiffs, EnumEntry;
  }

  lemma DiffIsExactInTable(live: Snapshot, expected: Snapshot, revision: string, n: Name)
    requires !n.EnumName? && !n.ValueName?
    ensures Missing(Diff(live, expected, revision), expected, n) <==> Has(expected, n) && !Has(live, n)
    ensures Has(live, n) ==> (Extra(Diff(live, expected, revision), n) <==> !Has(expected, n))
  {
    SortNamesFacts(expected.tables.Keys - live.tables.Keys);
    SortNamesFacts(live.tables.Keys - expected.tables.Keys);
    TablePart(live, expected, n.t);
    hide SortNames, TableDiffs, EnumDiffs, EnumEntry, TableEntry;
    var d := Diff(live, expected, revision);
    assert n.t in d.missingTables <==> n.t in expected.tables.Keys - live.tables.Keys;
    var entry := TableEntry(d.tableDiffs, n.t);
    match n
    case TableName(_) =>
    case ColumnName(t, c) =>
      assert c in entry.missingColumns <==> Has(expected, n) && t in live.tables && !Has(live, n);
    case IndexName(t, i) => assert i in entry.missingIndexes <==> Has(expected, n) && t in live.tables && !Has(live, n);
    case ConstraintName(t, c) =>
      assert c in entry.missingConstraints <==> Has(expected, n) && t in live.tables && !Has(live, n);
  }

  lemma DiffIsExactInEnum(live: Snapshot, expected: Snapshot, revision: string, n: Name)
    requires n.EnumName? || n.ValueName?
    ensures Missing(Diff(live, expected, revision), expected, n) <==> Has(expected, n) && !Has(live, n)
    ensures Has(live, n) ==> (Extra(Diff(live, expected, revision), n) <==> !Has(expected, n))
  {
    SortNamesFacts(expected.enums.Keys - live.enums.Keys);
    SortNamesFacts(live.enums.Keys - expected.enums.Keys);
    assert Has(live, n) ==> n.e in live.enums;
    assert Has(expected, n) ==> n.e in expected.enums;
    if n.ValueName? {
      EnumPart(live, expected, n.e, n.v);
      hide SortNames, TableDiffs, EnumDiffs, EnumEntry, TableEntry, Has;
    }
  }

  /** The diff lists a name as missing or extra exactly when one side has it
      and the other does not. */
  lemma DiffIsExact(live: Snapshot, expected: Snapshot, revision: string, n: Name)
    ensures Missing(Diff(live, expected, revision), expected, n) <==> Has(expected, n) && !Has(live, n)
    ensures Has(live, n) ==> (Extra(Diff(live, expected, revision), n) <==> !Has(expected, n))
  {
    hide *;
    if n.EnumName? || n.ValueName? {
      DiffIsExactInEnum(live, expected, revision, n);
    } else {
      DiffIsExactInTable(live, expected, revision, n);
    }
  }

  /** Taking away the extras of a live schema and adding what is missing. */
  predicate Patched(live: Snapshot, d: SchemaDiff, expected: Snapshot, n: Name) {
    (Has(live, n) && !Extra(d, n)) || Missing(d, expected, n)
  }

  /** The diff is a correct patch: it turns the live names into the expected ones. */
  lemma DiffIsPatch(live: Snapshot, expected: Snapshot, revision: string, n: Name)
    ensures Patched(live, Diff(live, expected, revision), expected, n) <==> Has(expected, n)
  {
    DiffIsExact(live, expected, revision, n);
  }

  // ---- is_exact_match and total_mismatches --------------------------------------------------

  predicate IsExactMatch(d: SchemaDiff) {
    && d.missingTables == [] && d.extraTables == [] && d.missingEnums == [] && d.extraEnums == []
    && (forall td :: td in d.tableDiffs ==> TableClean(td))
    && (forall ed :: ed in d.enumDiffs ==> EnumClean(ed))
  }

  function TableCount(d: TableDiff): nat {
    |d.missingColumns| + |d.extraColumns| + |d.missingIndexes| + |d.extraIndexes|
    + |d.missingConstraints| + |d.extraConstraints|
  }

  function TableCounts(ds: seq<TableDiff>): nat {
    if ds == [] then 0 else TableCounts(ds[..|ds| - 1]) + TableCount(ds[|ds| - 1])
  }

  function EnumCounts(ds: seq<EnumDiff>): nat {
    if ds == [] then 0 else
      EnumCounts(ds[..|ds| - 1]) + |ds[|ds| - 1].missingValues| + |ds[|ds| - 1].extraValues|
  }

  function Total(d: SchemaDiff): nat {
    |d.missingTables| + |d.extraTables| + |d.missingEnums| + |d.extraEnums|
    + TableCounts(d.tableDiffs) + EnumCounts(d.enumDiffs)
  }

  method TotalMismatches(d: SchemaDiff) returns (count: nat)
    ensures count == Total(d)
  {
    count := |d.missingTables| + |d.extraTables|;
    count := count + |d.missingEnums| + |d.extraEnums|;
    ghost var whole := count;
    for i := 0 to |d.tableDiffs|
      invariant count == whole + TableCounts(d.tableDiffs[..i])
    {
      assert d.tableDiffs[..i + 1][..i] == d.tableDiffs[..i];
      var td := d.tableDiffs[i];
      count := count + |td.missingColumns| + |td.extraColumns| + |td.missingIndexes| + |td.extraIndexes|
        + |td.missingConstraints| + |td.extraConstraints|;
    }
    assert d.tableDiffs[..|d.tableDiffs|] == d.tableDiffs;
    whole := count;
    for i := 0 to |d.enumDiffs|
      invariant count == whole + EnumCounts(d.enumDiffs[..i])
    {
      assert d.enumDiffs[..i + 1][..i] == d.enumDiffs[..i];
      count := count + |d.enumDiffs[i].missingValues| + |d.enumDiffs[i].extraValues|;
    }
    assert d.enumDiffs[..|d.enumDiffs|] == d.enumDiffs;
  }

  lemma {:induction false} NoTableCounts(ds: seq<TableDiff>)
    ensures TableCounts(ds) == 0 <==> forall td :: td in ds ==> TableClean(td)
  {
    if ds != [] {
      NoTableCounts(ds[..|ds| - 1]);
      var init, last := ds[..|ds| - 1], ds[|ds| - 1];
      assert TableCount(last) == 0 <==> TableClean(last);
      hide TableClean, TableCount;
      assert forall td :: td in ds <==> td in init || td == last;
    }
  }

  lemma {:induction false} NoEnumCounts(ds: seq<EnumDiff>)
    ensures EnumCounts(ds) == 0 <==> forall ed :: ed in ds ==> EnumClean(ed)
  {
    if ds != [] {
      NoEnumCounts(ds[..|ds| - 1]);
      var init, last := ds[..|ds| - 1], ds[|ds| - 1];
      assert |last.missingValues| + |last.extraValues| == 0 <==> EnumClean(last);
      hide EnumClean;
      assert forall ed :: ed in ds <==> ed in init || ed == last;
    }
  }

  lemma ExactIffNoMismatch(d: SchemaDiff)
    ensures IsExactMatch(d) <==> Total(d) == 0
  {
    NoTableCounts(d.tableDiffs);
    NoEnumCounts(d.enumDiffs);
    hide TableCounts, EnumCounts, TableClean, EnumClean;
  }

  lemma {:induction false} CleanEntries(ds: seq<TableDiff>, es: seq<EnumDiff>, name: string)
    ensures (forall td :: td in ds ==> TableClean(td)) ==> TableClean(TableEntry(ds, name))
    ensures (forall ed :: ed in es ==> EnumClean(ed)) ==> EnumClean(EnumEntry(es, name))
    decreases |ds| + |es|
  {
    if ds != [] {
      CleanEntries(ds[..|ds| - 1], es, name);
    } else if es != [] {
      CleanEntries(ds, es[..|es| - 1], name);
    }
  }

  lemma {:induction false} SameNamesGiveNoDiffs(names: seq<string>, live: Snapshot, expected: Snapshot)
    requires SameNames(live, expected)
    ensures TableDiffs(names, live, expected) == [] && EnumDiffs(names, live, expected) == []
    decreases |names|
  {
    if names != [] {
      SameNamesGiveNoDiffs(names[..|names| - 1], live, expected);
      var n := names[|names| - 1];
      SameTableIsClean(n, live, expected);
      SameEnumIsClean(n, live, expected);
      hide DiffTable, DiffEnum;
    }
  }

  lemma SameTableIsClean(t: string, live: Snapshot, expected: Snapshot)
    requires SameNames(live, expected)
    ensures TableClean(DiffTable(t, Get(live, t), Get(expected, t)))
  {
    var a, b := Get(live, t), Get(expected, t);
    assert Has(live, TableName(t)) <==> Has(expected, TableName(t));
    forall x
      ensures x in a.columns <==> x in b.columns
      ensures x in a.indexes <==> x in b.indexes
      ensures x in a.constraints <==> x in b.constraints
    {
      assert Has(live, ColumnName(t, x)) <==> Has(expected, ColumnName(t, x));
      assert Has(live, IndexName(t, x)) <==> Has(expected, IndexName(t, x));
      assert Has(live, ConstraintName(t, x)) <==> Has(expected, ConstraintName(t, x));
    }
    hide SameNames;
    SortNamesFacts({});
    assert a.columns.Keys - b.columns.Keys == {} && a.indexes - b.indexes == {} && a.constraints - b.constraints == {};
  }

  lemma NothingIn(s: seq<string>)
    ensures (forall x :: x !in s) ==> s == []
  {
    if s != [] { assert s[0] in s; }
  }

  lemma SameEnumIsClean(e: string, live: Snapshot, expected: Snapshot)
    requires SameNames(live, expected)
    ensures EnumClean(DiffEnum(e, Values(live, e), Values(expected, e)))
  {
    var a, b := Values(live, e), Values(expected, e);
    forall v ensures v in a <==> v in b {
      assert Has(live, EnumName(e)) <==> Has(expected, EnumName(e));
      assert Has(live, ValueName(e, v)) <==> Has(expected, ValueName(e, v));
    }
    hide SameNames;
    NotInFacts(a, b);
    NotInFacts(b, a);
    NothingIn(NotIn(a, b));
    NothingIn(NotIn(b, a));
    hide NotIn;
  }

  lemma SameNamesMatch(live: Snapshot, expected: Snapshot, revision: string)
    requires SameNames(live, expected)
    ensures IsExactMatch(Diff(live, expected, revision))
  {
    SameNamesSameKeys(live, expected);
    SameNamesGiveNoDiffs(SortNames(live.tables.Keys * expected.tables.Keys), live, expected);
    SameNamesGiveNoDiffs(SortNames(live.enums.Keys * expected.enums.Keys), live, expected);
    SortNamesFacts({});
    hide SameNames, TableDiffs, EnumDiffs, SortNames, Has;
    assert live.tables.Keys - expected.tables.Keys == {} && live.enums.Keys - expected.enums.Keys == {};
  }

  lemma SameNamesSameKeys(live: Snapshot, expected: Snapshot)
    requires SameNames(live, expected)
    ensures live.tables.Keys == expected.tables.Keys && live.enums.Keys == expected.enums.Keys
  {
    forall x
      ensures x in live.tables.Keys <==> x in expected.tables.Keys
      ensures x in live.enums.Keys <==> x in expected.enums.Keys
    {
      assert Has(live, TableName(x)) <==> Has(expected, TableName(x));
      assert Has(live, EnumName(x)) <==> Has(expected, EnumName(x));
    }
  }

  lemma MatchHasSameNames(live: Snapshot, expected: Snapshot, revision: string)
    requires IsExactMatch(Diff(live, expected, revision))
    ensures SameNames(live, expected)
  {
    var d := Diff(live, expected, revision);
    hide Diff;
    forall n ensures Has(live, n) <==> Has(expected, n) {
      DiffIsExact(live, expected, revision, n);
      CleanEntries(d.tableDiffs, d.enumDiffs, if n.EnumName? || n.ValueName? then n.e else n.t);
      hide TableEntry, EnumEntry, Has;
    }
  }

  /** A revision is an exact match iff both sides hold the same names. */
  lemma MatchIffSameNames(live: Snapshot, expected: Snapshot, revision: string)
    ensures IsExactMatch(Diff(live, expected, revision)) <==> SameNames(live, expected)
    ensures Total(Diff(live, expected, revision)) == 0 <==> SameNames(live, expected)
  {
    ExactIffNoMismatch(Diff(live, expected, revision));
    hide *;
    if SameNames(live, expected) { SameNamesMatch(live, expected, revision); }
    if IsExactMatch(Diff(live, expected, revision)) { MatchHasSameNames(live, expected, revision); }
  }

  // ---- Exchanging the two sides --------------------------------------------------------------

  function SwapTable(d: TableDiff): TableDiff {
    TableDiff(d.table, d.extraColumns, d.missingColumns, d.extraIndexes, d.missingIndexes,
      d.extraConstraints, d.missingConstraints)
  }

  function SwapEnum(d: EnumDiff): EnumDiff { EnumDiff(d.name, d.extraValues, d.missingValues) }

  /** Missing and extra exchanged everywhere. */
  function Swap(d: SchemaDiff): SchemaDiff {
    SchemaDiff(d.revision, d.extraTables, d.missingTables, d.extraEnums, d.missingEnums,
      seq(|d.tableDiffs|, i requires 0 <= i < |d.tableDiffs| => SwapTable(d.tableDiffs[i])),
      seq(|d.enumDiffs|, i requires 0 <= i < |d.enumDiffs| => SwapEnum(d.enumDiffs[i])))
  }

  lemma {:induction false} SwapTableDiffs(names: seq<string>, live: Snapshot, expected: Snapshot)
    ensures
      var there, back := TableDiffs(names, live, expected), TableDiffs(names, expected, live);
      |there| == |back| && forall i :: 0 <= i < |there| ==> back[i] == SwapTable(there[i])
    decreases |names|
  {
    if names != [] { SwapTableDiffs(names[..|names| - 1], live, expected); }
  }

  lemma {:induction false} SwapEnumDiffs(names: seq<string>, live: Snapshot, expected: Snapshot)
    ensures
      var there, back := EnumDiffs(names, live, expected), EnumDiffs(names, expected, live);
      |there| == |back| && forall i :: 0 <= i < |there| ==> back[i] == SwapEnum(there[i])
    decreases |names|
  {
    if names != [] { SwapEnumDiffs(names[..|names| - 1], live, expected); }
  }

  lemma DiffIsSymmetric(live: Snapshot, expected: Snapshot, revision: string)
    ensures Diff(expected, live, revision) == Swap(Diff(live, expected, revision))
  {
    assert expected.tables.Keys * live.tables.Keys == live.tables.Keys * expected.tables.Keys;
    assert expected.enums.Keys * live.enums.Keys == live.enums.Keys * expected.enums.Keys;
    SwapTableDiffs(SortNames(live.tables.Keys * expected.tables.Keys), live, expected);
    SwapEnumDiffs(SortNames(live.enums.Keys * expected.enums.Keys), live, expected);
    hide SortNames, TableDiffs, EnumDiffs, SwapTable, SwapEnum;
    var there, back := Diff(live, expected, revision), Diff(expected, live, revision);
    assert back.tableDiffs == Swap(there).tableDiffs && back.enumDiffs == Swap(there).enumDiffs;
  }
}
