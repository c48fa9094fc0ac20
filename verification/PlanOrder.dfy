/** The order in which a diff lists names and a repair plan its steps. */
module PlanOrder {
  import opened Sorting
  import opened DdlParser
  import opened SchemaDiff
  import opened RepairPlan

  // ---- The order of names -----------------------------------------------------------------

  /** A prefix comes first; otherwise the first difference decides. */
  ghost predicate ComesBefore(a: string, b: string) {
    a < b || exists k :: 0 <= k < |a| && k < |b| && a[..k] == b[..k] && a[k] < b[k]
  }

  lemma {:induction false} LessMeaning(a: string, b: string)
    ensures Less(a, b) <==> ComesBefore(a, b)
  {
    if a != "" && b != "" {
      if a[0] == b[0] {
        LessMeaning(a[1..], b[1..]);
        SameHead(a, b);
        hide ComesBefore;
      } else {
        assert a[..0] == b[..0];
        if a[0] > b[0] { LaterHead(a, b); }
      }
    }
  }

  lemma LaterHead(a: string, b: string)
    requires a != "" && b != "" && a[0] > b[0]
    ensures !ComesBefore(a, b)
  {
    forall k | 0 < k < |a| && k < |b| ensures a[..k] != b[..k] {
      assert a[..k][0] != b[..k][0];
    }
  }

  lemma SameHead(a: string, b: string)
    requires a != "" && b != "" && a[0] == b[0]
    ensures ComesBefore(a, b) <==> ComesBefore(a[1..], b[1..])
  {
    assert a == [a[0]] + a[1..] && b == [b[0]] + b[1..];
    if k :| 0 <= k < |a| && k < |b| && a[..k] == b[..k] && a[k] < b[k] {
      assert a[1..][..k - 1] == a[..k][1..] && b[1..][..k - 1] == b[..k][1..];
      assert a[1..][k - 1] < b[1..][k - 1];
    }
    if k :| 0 <= k < |a[1..]| && k < |b[1..]| && a[1..][..k] == b[1..][..k] && a[1..][k] < b[1..][k] {
      assert a[..k + 1] == [a[0]] + a[1..][..k] && b[..k + 1] == [b[0]] + b[1..][..k];
      assert a[k + 1] < b[k + 1];
    }
  }

  ghost predicate Ascending(names: seq<string>) {
    forall i, j :: 0 <= i < j < |names| ==> ComesBefore(names[i], names[j])
  }

  lemma SortNamesAscend(names: set<string>)
    ensures Ascending(SortNames(names))
  {
    ByNameIsTotal();
    SortFacts(names, ByName());
    var s := SortNames(names);
    forall i, j | 0 <= i < j < |s| ensures ComesBefore(s[i], s[j]) {
      assert ByName()(s[i], s[j]);
      LessMeaning(s[i], s[j]);
    }
  }

  // ---- The diff -----------------------------------------------------------------------------

  ghost predicate SortedTable(d: TableDiff) {
    && Ascending(d.missingColumns) && Ascending(d.extraColumns) && Ascending(d.missingIndexes)
    && Ascending(d.extraIndexes) && Ascending(d.missingConstraints) && Ascending(d.extraConstraints)
  }

  ghost predicate SortedTables(ds: seq<TableDiff>) {
    && (forall i, j :: 0 <= i < j < |ds| ==> ComesBefore(ds[i].table, ds[j].table))
    && forall i :: 0 <= i < |ds| ==> SortedTable(ds[i])
  }

  ghost predicate SortedEnums(ds: seq<EnumDiff>) {
    forall i, j :: 0 <= i < j < |ds| ==> ComesBefore(ds[i].name, ds[j].name)
  }

  lemma DiffTableIsSorted(t: string, live: Table, expected: Table)
    ensures SortedTable(DiffTable(t, live, expected))
  {
    SortNamesAscend(expected.columns.Keys - live.columns.Keys);
    SortNamesAscend(live.columns.Keys - expected.columns.Keys);
    SortNamesAscend(expected.indexes - live.indexes);
    SortNamesAscend(live.indexes - expected.indexes);
    SortNamesAscend(expected.constraints - live.constraints);
    SortNamesAscend(live.constraints - expected.constraints);
    hide SortNames, Ascending;
  }

  lemma BeforeLast(names: seq<string>)
    requires names != [] && Ascending(names)
    ensures Ascending(names[..|names| - 1])
    ensures forall x :: x in names[..|names| - 1] ==> x in names && ComesBefore(x, names[|names| - 1])
  {
    hide ComesBefore;
    var init := names[..|names| - 1];
    forall x | x in init ensures x in names && ComesBefore(x, names[|names| - 1]) {
      var i :| 0 <= i < |init| && init[i] == x;
      assert names[i] == x;
    }
  }

  lemma SortedSnoc(ds: seq<TableDiff>, d: TableDiff)
    requires SortedTables(ds) && SortedTable(d) && forall x :: x in ds ==> ComesBefore(x.table, d.table)
    ensures SortedTables(ds + [d])
  {
    hide ComesBefore, SortedTable;
    assert forall i :: 0 <= i < |ds| ==> ds[i] in ds;
  }

  lemma {:induction false} TableDiffsAreSorted(names: seq<string>, live: Snapshot, expected: Snapshot)
    requires Ascending(names)
    ensures SortedTables(TableDiffs(names, live, expected))
    ensures forall d :: d in TableDiffs(names, live, expected) ==> d.table in names
    decreases |names|
  {
    if names != [] {
      var init, last := names[..|names| - 1], names[|names| - 1];
      BeforeLast(names);
      TableDiffsAreSorted(init, live, expected);
      var ds, d := TableDiffs(init, live, expected), DiffTable(last, Get(live, last), Get(expected, last));
      DiffTableIsSorted(last, Get(live, last), Get(expected, last));
      assert d.table == last;
      assert TableDiffs(names, live, expected) == if TableClean(d) then ds else ds + [d];
      hide *;
      SortedSnoc(ds, d);
    }
  }

  lemma {:induction false} EnumDiffsAreSorted(names: seq<string>, live: Snapshot, expected: Snapshot)
    requires Ascending(names)
    ensures SortedEnums(EnumDiffs(names, live, expected))
    ensures forall d :: d in EnumDiffs(names, live, expected) ==> d.name in names
    decreases |names|
  {
    if names != [] {
      var init, last := names[..|names| - 1], names[|names| - 1];
      BeforeLast(names);
      EnumDiffsAreSorted(init, live, expected);
      var ds, d := EnumDiffs(init, live, expected), DiffEnum(last, Values(live, last), Values(expected, last));
      assert d.name == last;
      assert EnumDiffs(names, live, expected) == if EnumClean(d) then ds else ds + [d];
      hide *;
      SortedSnocEnum(ds, d);
    }
  }

  lemma SortedSnocEnum(ds: seq<EnumDiff>, d: EnumDiff)
    requires SortedEnums(ds) && forall x :: x in ds ==> ComesBefore(x.name, d.name)
    ensures SortedEnums(ds + [d])
  {
    hide ComesBefore;
    assert forall i :: 0 <= i < |ds| ==> ds[i] in ds;
  }

  /** Every list of names in a diff ascends, and so do its tables and its enums. */
  lemma DiffIsSorted(live: Snapshot, expected: Snapshot, revision: string)
    ensures
      var d := Diff(live, expected, revision);
      && Ascending(d.missingTables) && Ascending(d.extraTables) && Ascending(d.missingEnums) && Ascending(d.extraEnums)
      && SortedTables(d.tableDiffs) && SortedEnums(d.enumDiffs)
  {
    SortNamesAscend(expected.tables.Keys - live.tables.Keys);
    SortNamesAscend(live.tables.Keys - expected.tables.Keys);
    SortNamesAscend(expected.enums.Keys - live.enums.Keys);
    SortNamesAscend(live.enums.Keys - expected.enums.Keys);
    SortNamesAscend(live.tables.Keys * expected.tables.Keys);
    SortNamesAscend(live.enums.Keys * expected.enums.Keys);
    TableDiffsAreSorted(SortNames(live.tables.Keys * expected.tables.Keys), live, expected);
    EnumDiffsAreSorted(SortNames(live.enums.Keys * expected.enums.Keys), live, expected);
    hide SortNames, Ascending, SortedTables, SortedEnums, TableDiffs, EnumDiffs;
  }

  /** The values an enum lists are those of its declaration that the other side
      lacks, in the order of the declaration. */
  lemma {:induction false} ValuesKeepOrder(values: seq<string>, others: seq<string>) returns (at: seq<nat>)
    ensures |at| == |NotIn(values, others)|
    ensures forall i :: 0 <= i < |at| ==> at[i] < |values| && NotIn(values, others)[i] == values[at[i]]
    ensures forall i, j :: 0 <= i < j < |at| ==> at[i] < at[j]
    ensures forall k :: 0 <= k < |values| ==> (k in at <==> values[k] !in others)
    decreases |values|
  {
    at := [];
    if values != [] {
      var init, last := values[..|values| - 1], |values| - 1;
      at := ValuesKeepOrder(init, others);
      Unfold(values, others);
      hide NotIn;
      assert forall k :: k in at ==> k < last;
      assert forall k :: 0 <= k < last ==> init[k] == values[k];
      if values[last] !in others { at := at + [last]; }
    }
  }

  // ---- The plan -----------------------------------------------------------------------------

  /** Missing tables, extra tables, what common tables lack, missing enums, values. */
  function Section(kind: StepKind): nat {
    match kind
    case TableMissing => 1
    case TableExtra => 2
    case ColumnMissing(_) => 3
    case ColumnExtra(_) => 3
    case IndexMissing(_) => 3
    case ConstraintMissing(_) => 3
    case EnumMissing => 4
    case ValueMissing(_) => 5
    case ValueExtra(_) => 5
  }

  /** Within one table or enum. */
  function Rank(kind: StepKind): nat {
    if kind.ColumnExtra? || kind.ValueExtra? then 1 else if kind.IndexMissing? then 2
    else if kind.ConstraintMissing? then 3 else 0
  }

  function Of(kind: StepKind): string { if InTable(kind) || InEnum(kind) then kind.of else "" }

  /** By section, then by table or enum, then by rank, then by name; values of an
      enum keep the order of their declaration. */
  ghost predicate InOrder(a: RepairStep, b: RepairStep) {
    || Section(a.kind) < Section(b.kind)
    || (Section(a.kind) == Section(b.kind)
        && (|| ComesBefore(Of(a.kind), Of(b.kind))
            || (Of(a.kind) == Of(b.kind)
                && (|| Rank(a.kind) < Rank(b.kind)
                    || (Rank(a.kind) == Rank(b.kind) && (InEnum(a.kind) || ComesBefore(a.name, b.name)))))))
  }

  ghost predicate InOrderAll(steps: seq<RepairStep>) {
    forall i, j :: 0 <= i < j < |steps| ==> InOrder(steps[i], steps[j])
  }

  lemma OrderedConcat(a: seq<RepairStep>, b: seq<RepairStep>)
    requires InOrderAll(a) && InOrderAll(b) && forall x, y :: x in a && y in b ==> InOrder(x, y)
    ensures InOrderAll(a + b)
  {
    hide InOrder;
    forall i, j | 0 <= i < j < |a + b| ensures InOrder((a + b)[i], (a + b)[j]) {
      if i < |a| <= j { assert a[i] in a && b[j - |a|] in b; }
    }
  }

  lemma SectionsConcat(a: seq<RepairStep>, b: seq<RepairStep>, section: nat)
    requires InOrderAll(a) && InOrderAll(b)
    requires forall x :: x in a ==> Section(x.kind) < section
    requires forall y :: y in b ==> Section(y.kind) == section
    ensures InOrderAll(a + b) && forall x :: x in a + b ==> Section(x.kind) < section + 1
  {
    hide InOrderAll;
    forall x, y | x in a && y in b ensures InOrder(x, y) {
      assert Section(x.kind) < Section(y.kind);
    }
    hide InOrder;
    OrderedConcat(a, b);
  }

  lemma EachInOrder(kind: StepKind, names: seq<string>)
    requires InEnum(kind) || Ascending(names)
    ensures InOrderAll(Each(kind, names))
    ensures forall x :: x in Each(kind, names) ==> x.kind == kind
  {
    hide ComesBefore;
  }

  lemma TableStepsInOrder(td: TableDiff)
    requires SortedTable(td)
    ensures InOrderAll(TableSteps(td))
    ensures forall x :: x in TableSteps(td) ==> Section(x.kind) == 3 && Of(x.kind) == td.table
  {
    var a, b := Each(ColumnMissing(td.table), td.missingColumns), Each(ColumnExtra(td.table), td.extraColumns);
    var c := Each(IndexMissing(td.table), td.missingIndexes);
    var d := Each(ConstraintMissing(td.table), td.missingConstraints);
    EachInOrder(ColumnMissing(td.table), td.missingColumns);
    EachInOrder(ColumnExtra(td.table), td.extraColumns);
    EachInOrder(IndexMissing(td.table), td.missingIndexes);
    EachInOrder(ConstraintMissing(td.table), td.missingConstraints);
    hide Each, InOrderAll, ComesBefore, Ascending, SortedTable;
    OrderedConcat(a, b);
    OrderedConcat(a + b, c);
    OrderedConcat(a + b + c, d);
  }

  lemma EnumStepsInOrder(ed: EnumDiff)
    ensures InOrderAll(EnumSteps(ed))
    ensures forall x :: x in EnumSteps(ed) ==> Section(x.kind) == 5 && Of(x.kind) == ed.name
  {
    EachInOrder(ValueMissing(ed.name), ed.missingValues);
    EachInOrder(ValueExtra(ed.name), ed.extraValues);
    hide Each, InOrderAll, ComesBefore, Ascending;
    OrderedConcat(Each(ValueMissing(ed.name), ed.missingValues), Each(ValueExtra(ed.name), ed.extraValues));
  }

  lemma {:induction false} AllTableStepsInOrder(ds: seq<TableDiff>)
    requires SortedTables(ds)
    ensures InOrderAll(AllTableSteps(ds))
    ensures forall x :: x in AllTableSteps(ds) ==>
      Section(x.kind) == 3 && exists i :: 0 <= i < |ds| && Of(x.kind) == ds[i].table
    decreases |ds|
  {
    if ds != [] {
      var init, last := ds[..|ds| - 1], ds[|ds| - 1];
      AllTableStepsInOrder(init);
      TableStepsInOrder(last);
      hide TableSteps, InOrderAll, ComesBefore, SortedTable;
      forall x | x in AllTableSteps(init) ensures ComesBefore(Of(x.kind), last.table) {
        var i :| 0 <= i < |init| && Of(x.kind) == init[i].table;
        assert init[i] == ds[i];
      }
      OrderedConcat(AllTableSteps(init), TableSteps(last));
    }
  }

  lemma {:induction false} AllEnumStepsInOrder(ds: seq<EnumDiff>)
    requires SortedEnums(ds)
    ensures InOrderAll(AllEnumSteps(ds))
    ensures forall x :: x in AllEnumSteps(ds) ==>
      Section(x.kind) == 5 && exists i :: 0 <= i < |ds| && Of(x.kind) == ds[i].name
    decreases |ds|
  {
    if ds != [] {
      var init, last := ds[..|ds| - 1], ds[|ds| - 1];
      AllEnumStepsInOrder(init);
      EnumStepsInOrder(last);
      hide EnumSteps, InOrderAll, ComesBefore;
      forall x | x in AllEnumSteps(init) ensures ComesBefore(Of(x.kind), last.name) {
        var i :| 0 <= i < |init| && Of(x.kind) == init[i].name;
        assert init[i] == ds[i];
      }
      OrderedConcat(AllEnumSteps(init), EnumSteps(last));
    }
  }

  /** The steps of every plan stand in this order; with the exactness of the plan
      that leaves nothing open. */
  lemma PlanIsOrdered(live: Snapshot, expected: Snapshot, revision: string)
    ensures InOrderAll(Plan(Diff(live, expected, revision)))
  {
    var d := Diff(live, expected, revision);
    DiffIsSorted(live, expected, revision);
    EachInOrder(TableMissing, d.missingTables);
    EachInOrder(TableExtra, d.extraTables);
    EachInOrder(EnumMissing, d.missingEnums);
    AllTableStepsInOrder(d.tableDiffs);
    AllEnumStepsInOrder(d.enumDiffs);
    hide Diff, Each, AllTableSteps, AllEnumSteps, InOrderAll, Ascending, SortedTables, SortedEnums;
    var a, b, c := Each(TableMissing, d.missingTables), Each(TableExtra, d.extraTables), AllTableSteps(d.tableDiffs);
    var e, f := Each(EnumMissing, d.missingEnums), AllEnumSteps(d.enumDiffs);
    SectionsConcat(a, b, 2);
    SectionsConcat(a + b, c, 3);
    SectionsConcat(a + b + c, e, 4);
    SectionsConcat(a + b + c + e, f, 5);
  }
}
