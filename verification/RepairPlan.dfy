/** _repair_plan_from_diff: the draft repair steps for one diff. */
module RepairPlan {
  import opened DdlParser
  import opened SchemaDiff
  import Sorting

  datatype StepKind =
    | TableMissing
    | TableExtra
    | ColumnMissing(of: string)
    | ColumnExtra(of: string)
    | IndexMissing(of: string)
    | ConstraintMissing(of: string)
    | EnumMissing
    | ValueMissing(of: string)
    | ValueExtra(of: string)

  datatype RepairStep = RepairStep(kind: StepKind, name: string)

  function Each(kind: StepKind, names: seq<string>): seq<RepairStep> {
    seq(|names|, i requires 0 <= i < |names| => RepairStep(kind, names[i]))
  }

  function TableSteps(td: TableDiff): seq<RepairStep> {
    Each(ColumnMissing(td.table), td.missingColumns) + Each(ColumnExtra(td.table), td.extraColumns)
    + Each(IndexMissing(td.table), td.missingIndexes) + Each(ConstraintMissing(td.table), td.missingConstraints)
  }

  function AllTableSteps(ds: seq<TableDiff>): seq<RepairStep> {
    if ds == [] then [] else AllTableSteps(ds[..|ds| - 1]) + TableSteps(ds[|ds| - 1])
  }

  function EnumSteps(ed: EnumDiff): seq<RepairStep> {
    Each(ValueMissing(ed.name), ed.missingValues) + Each(ValueExtra(ed.name), ed.extraValues)
  }

  function AllEnumSteps(ds: seq<EnumDiff>): seq<RepairStep> {
    if ds == [] then [] else AllEnumSteps(ds[..|ds| - 1]) + EnumSteps(ds[|ds| - 1])
  }

  function Plan(d: SchemaDiff): seq<RepairStep> {
    Each(TableMissing, d.missingTables) + Each(TableExtra, d.extraTables) + AllTableSteps(d.tableDiffs)
    + Each(EnumMissing, d.missingEnums) + AllEnumSteps(d.enumDiffs)
  }

  method AppendEach(before: seq<RepairStep>, kind: StepKind, names: seq<string>) returns (steps: seq<RepairStep>)
    ensures steps == before + Each(kind, names)
  {
    steps := before;
    for i := 0 to |names|
      invariant steps == before + Each(kind, names)[..i]
    {
      steps := steps + [RepairStep(kind, names[i])];
    }
  }

  method AppendTable(before: seq<RepairStep>, td: TableDiff) returns (steps: seq<RepairStep>)
    ensures steps == before + TableSteps(td)
  {
    steps := AppendEach(before, ColumnMissing(td.table), td.missingColumns);
    steps := AppendEach(steps, ColumnExtra(td.table), td.extraColumns);
    steps := AppendEach(steps, IndexMissing(td.table), td.missingIndexes);
    steps := AppendEach(steps, ConstraintMissing(td.table), td.missingConstraints);
  }

  method AppendTables(before: seq<RepairStep>, ds: seq<TableDiff>) returns (steps: seq<RepairStep>)
    ensures steps == before + AllTableSteps(ds)
  {
    hide TableSteps;
    steps := before;
    for i := 0 to |ds|
      invariant steps == before + AllTableSteps(ds[..i])
    {
      assert ds[..i + 1][..i] == ds[..i];
      steps := AppendTable(steps, ds[i]);
    }
    assert ds[..|ds|] == ds;
  }

  method AppendEnum(before: seq<RepairStep>, ed: EnumDiff) returns (steps: seq<RepairStep>)
    ensures steps == before + EnumSteps(ed)
  {
    hide Each;
    steps := AppendEach(before, ValueMissing(ed.name), ed.missingValues);
    steps := AppendEach(steps, ValueExtra(ed.name), ed.extraValues);
  }

  method AppendEnums(before: seq<RepairStep>, ds: seq<EnumDiff>) returns (steps: seq<RepairStep>)
    ensures steps == before + AllEnumSteps(ds)
  {
    hide EnumSteps;
    steps := before;
    for i := 0 to |ds|
      invariant steps == before + AllEnumSteps(ds[..i])
    {
      assert ds[..i + 1][..i] == ds[..i];
      steps := AppendEnum(steps, ds[i]);
    }
    assert ds[..|ds|] == ds;
  }

  method RepairPlanFromDiff(d: SchemaDiff) returns (steps: seq<RepairStep>)
    ensures steps == Plan(d)
  {
    hide AllTableSteps, AllEnumSteps, Each;
    steps := AppendEach([], TableMissing, d.missingTables);
    steps := AppendEach(steps, TableExtra, d.extraTables);
    steps := AppendTables(steps, d.tableDiffs);
    steps := AppendEach(steps, EnumMissing, d.missingEnums);
    steps := AppendEnums(steps, d.enumDiffs);
  }

  // ---- What the plan covers ------------------------------------------------------------------

  /** What _repair_plan_from_diff passes over: extra indexes and constraints, and extra enums. */
  function PassedOver(d: SchemaDiff): nat { |d.extraEnums| + PassedOverIn(d.tableDiffs) }

  function PassedOverIn(ds: seq<TableDiff>): nat {
    if ds == [] then 0 else
      PassedOverIn(ds[..|ds| - 1]) + |ds[|ds| - 1].extraIndexes| + |ds[|ds| - 1].extraConstraints|
  }

  lemma {:induction false} TableStepCount(ds: seq<TableDiff>)
    ensures |AllTableSteps(ds)| + PassedOverIn(ds) == TableCounts(ds)
  {
    if ds != [] { TableStepCount(ds[..|ds| - 1]); }
  }

  lemma {:induction false} EnumStepCount(ds: seq<EnumDiff>)
    ensures |AllEnumSteps(ds)| == EnumCounts(ds)
  {
    if ds != [] { EnumStepCount(ds[..|ds| - 1]); }
  }

  lemma PlanLength(d: SchemaDiff)
    ensures |Plan(d)| + PassedOver(d) == Total(d)
  {
    TableStepCount(d.tableDiffs);
    EnumStepCount(d.enumDiffs);
    hide AllTableSteps, AllEnumSteps, TableCounts, EnumCounts, PassedOverIn;
  }

  /** The objects that deserve a step, read off the two schemas. */
  predicate Due(live: Snapshot, expected: Snapshot, step: RepairStep) {
    var name := step.name;
    match step.kind
    case TableMissing => name in expected.tables && name !in live.tables
    case TableExtra => name in live.tables && name !in expected.tables
    case ColumnMissing(t) => Has(expected, ColumnName(t, name)) && t in live.tables && !Has(live, ColumnName(t, name))
    case ColumnExtra(t) => Has(live, ColumnName(t, name)) && t in expected.tables && !Has(expected, ColumnName(t, name))
    case IndexMissing(t) => Has(expected, IndexName(t, name)) && t in live.tables && !Has(live, IndexName(t, name))
    case ConstraintMissing(t) =>
      Has(expected, ConstraintName(t, name)) && t in live.tables && !Has(live, ConstraintName(t, name))
    case EnumMissing => name in expected.enums && name !in live.enums
    case ValueMissing(e) => Has(expected, ValueName(e, name)) && e in live.enums && !Has(live, ValueName(e, name))
    case ValueExtra(e) => Has(live, ValueName(e, name)) && e in expected.enums && !Has(expected, ValueName(e, name))
  }

  predicate InTable(kind: StepKind) {
    kind.ColumnMissing? || kind.ColumnExtra? || kind.IndexMissing? || kind.ConstraintMissing?
  }

  predicate InEnum(kind: StepKind) { kind.ValueMissing? || kind.ValueExtra? }

  lemma EachHolds(kind: StepKind, names: seq<string>, step: RepairStep)
    ensures step in Each(kind, names) <==> step.kind == kind && step.name in names
  {
    if step.kind == kind && step.name in names {
      var i :| 0 <= i < |names| && names[i] == step.name;
      assert Each(kind, names)[i] == step;
    }
  }

  lemma TableStepParts(td: TableDiff, step: RepairStep)
    ensures step in TableSteps(td) <==>
      || (step.kind == ColumnMissing(td.table) && step.name in td.missingColumns)
      || (step.kind == ColumnExtra(td.table) && step.name in td.extraColumns)
      || (step.kind == IndexMissing(td.table) && step.name in td.missingIndexes)
      || (step.kind == ConstraintMissing(td.table) && step.name in td.missingConstraints)
  {
    EachHolds(ColumnMissing(td.table), td.missingColumns, step);
    EachHolds(ColumnExtra(td.table), td.extraColumns, step);
    EachHolds(IndexMissing(td.table), td.missingIndexes, step);
    EachHolds(ConstraintMissing(td.table), td.missingConstraints, step);
    hide Each;
  }

  lemma TableStepsHold(live: Snapshot, expected: Snapshot, t: string, step: RepairStep)
    requires t in live.tables && t in expected.tables
    ensures step in TableSteps(DiffTable(t, Get(live, t), Get(expected, t)))
            <==> InTable(step.kind) && step.kind.of == t && Due(live, expected, step)
  {
    var l, x, n := live.tables[t], expected.tables[t], step.name;
    var td := DiffTable(t, l, x);
    TableStepParts(td, step);
    DiffTableFacts(t, l, x);
    assert n in td.missingColumns <==> n in x.columns && n !in l.columns;
    assert n in td.extraColumns <==> n in l.columns && n !in x.columns;
    assert n in td.missingIndexes <==> n in x.indexes && n !in l.indexes;
    assert n in td.missingConstraints <==> n in x.constraints && n !in l.constraints;
    DueInTable(live, expected, t, step);
    hide *;
  }

  lemma DueInTable(live: Snapshot, expected: Snapshot, t: string, step: RepairStep)
    requires t in live.tables && t in expected.tables
    ensures
      var l, x, n := live.tables[t], expected.tables[t], step.name;
      InTable(step.kind) && step.kind.of == t && Due(live, expected, step) <==>
      || (step.kind == ColumnMissing(t) && n in x.columns && n !in l.columns)
      || (step.kind == ColumnExtra(t) && n in l.columns && n !in x.columns)
      || (step.kind == IndexMissing(t) && n in x.indexes && n !in l.indexes)
      || (step.kind == ConstraintMissing(t) && n in x.constraints && n !in l.constraints)
  {
  }

  lemma EnumStepsHold(live: Snapshot, expected: Snapshot, e: string, step: RepairStep)
    requires e in live.enums && e in expected.enums
    ensures step in EnumSteps(DiffEnum(e, Values(live, e), Values(expected, e)))
            <==> InEnum(step.kind) && step.kind.of == e && Due(live, expected, step)
  {
    var ed := DiffEnum(e, live.enums[e], expected.enums[e]);
    NotInFacts(live.enums[e], expected.enums[e]);
    NotInFacts(expected.enums[e], live.enums[e]);
    EachHolds(ValueMissing(e), ed.missingValues, step);
    EachHolds(ValueExtra(e), ed.extraValues, step);
    hide Each, NotIn;
  }

  lemma TableStepsOfLast(names: seq<string>, live: Snapshot, expected: Snapshot)
    requires names != [] && forall i :: 0 <= i < |names| ==> names[i] in live.tables && names[i] in expected.tables
    ensures
      var init, last := names[..|names| - 1], names[|names| - 1];
      AllTableSteps(TableDiffs(names, live, expected))
      == AllTableSteps(TableDiffs(init, live, expected))
        + TableSteps(DiffTable(last, Get(live, last), Get(expected, last)))
  {
    var init, last := names[..|names| - 1], names[|names| - 1];
    var td, ds := DiffTable(last, Get(live, last), Get(expected, last)), TableDiffs(init, live, expected);
    assert TableClean(td) ==> TableSteps(td) == [];
    assert TableDiffs(names, live, expected) == if TableClean(td) then ds else ds + [td];
    hide TableDiffs, TableSteps, DiffTable, TableClean;
    assert (ds + [td])[..|ds|] == ds && AllTableSteps(ds + [td]) == AllTableSteps(ds) + TableSteps(td);
    assert AllTableSteps(ds) + [] == AllTableSteps(ds);
  }

  lemma {:induction false} AllTableStepsHold(names: seq<string>, live: Snapshot, expected: Snapshot, step: RepairStep)
    requires forall i :: 0 <= i < |names| ==> names[i] in live.tables && names[i] in expected.tables
    ensures step in AllTableSteps(TableDiffs(names, live, expected))
            <==> InTable(step.kind) && step.kind.of in names && Due(live, expected, step)
    decreases |names|
  {
    if names != [] {
      var init, last := names[..|names| - 1], names[|names| - 1];
      AllTableStepsHold(init, live, expected, step);
      TableStepsHold(live, expected, last, step);
      TableStepsOfLast(names, live, expected);
      hide *;
      if InTable(step.kind) { LastIn(names, step.kind.of); }
    }
  }

  lemma LastIn(names: seq<string>, x: string)
    requires names != []
    ensures x in names <==> x in names[..|names| - 1] || x == names[|names| - 1]
  {
  }

  lemma EnumStepsOfLast(names: seq<string>, live: Snapshot, expected: Snapshot)
    requires names != [] && forall i :: 0 <= i < |names| ==> names[i] in live.enums && names[i] in expected.enums
    ensures
      var init, last := names[..|names| - 1], names[|names| - 1];
      AllEnumSteps(EnumDiffs(names, live, expected))
      == AllEnumSteps(EnumDiffs(init, live, expected))
        + EnumSteps(DiffEnum(last, Values(live, last), Values(expected, last)))
  {
    var init, last := names[..|names| - 1], names[|names| - 1];
    var ed, ds := DiffEnum(last, Values(live, last), Values(expected, last)), EnumDiffs(init, live, expected);
    assert EnumClean(ed) ==> EnumSteps(ed) == [];
    assert EnumDiffs(names, live, expected) == if EnumClean(ed) then ds else ds + [ed];
    hide EnumDiffs, EnumSteps, DiffEnum, EnumClean;
    assert (ds + [ed])[..|ds|] == ds && AllEnumSteps(ds + [ed]) == AllEnumSteps(ds) + EnumSteps(ed);
    assert AllEnumSteps(ds) + [] == AllEnumSteps(ds);
  }

  lemma {:induction false} AllEnumStepsHold(names: seq<string>, live: Snapshot, expected: Snapshot, step: RepairStep)
    requires forall i :: 0 <= i < |names| ==> names[i] in live.enums && names[i] in expected.enums
    ensures step in AllEnumSteps(EnumDiffs(names, live, expected))
            <==> InEnum(step.kind) && step.kind.of in names && Due(live, expected, step)
    decreases |names|
  {
    if names != [] {
      var init, last := names[..|names| - 1], names[|names| - 1];
      AllEnumStepsHold(init, live, expected, step);
      EnumStepsHold(live, expected, last, step);
      EnumStepsOfLast(names, live, expected);
      hide *;
      if InEnum(step.kind) { LastIn(names, step.kind.of); }
    }
  }

  lemma PlanParts(d: SchemaDiff, step: RepairStep)
    ensures step in Plan(d) <==>
      || (step.kind == TableMissing && step.name in d.missingTables)
      || (step.kind == TableExtra && step.name in d.extraTables)
      || step in AllTableSteps(d.tableDiffs)
      || (step.kind == EnumMissing && step.name in d.missingEnums)
      || step in AllEnumSteps(d.enumDiffs)
  {
    EachHolds(TableMissing, d.missingTables, step);
    EachHolds(TableExtra, d.extraTables, step);
    EachHolds(EnumMissing, d.missingEnums, step);
    hide AllTableSteps, AllEnumSteps, Each;
  }

  lemma DueInBoth(live: Snapshot, expected: Snapshot, step: RepairStep)
    ensures InTable(step.kind) && Due(live, expected, step)
      ==> step.kind.of in live.tables && step.kind.of in expected.tables
    ensures InEnum(step.kind) && Due(live, expected, step)
      ==> step.kind.of in live.enums && step.kind.of in expected.enums
  {
  }

  lemma TablePlan(live: Snapshot, expected: Snapshot, step: RepairStep)
    ensures step in AllTableSteps(TableDiffs(SortNames(live.tables.Keys * expected.tables.Keys), live, expected))
            <==> InTable(step.kind) && Due(live, expected, step)
  {
    var names := SortNames(live.tables.Keys * expected.tables.Keys);
    SortNamesFacts(live.tables.Keys * expected.tables.Keys);
    DueInBoth(live, expected, step);
    hide *;
    assert forall t :: t in names <==> t in live.tables && t in expected.tables;
    AllTableStepsHold(names, live, expected, step);
  }

  lemma EnumPlan(live: Snapshot, expected: Snapshot, step: RepairStep)
    ensures step in AllEnumSteps(EnumDiffs(SortNames(live.enums.Keys * expected.enums.Keys), live, expected))
            <==> InEnum(step.kind) && Due(live, expected, step)
  {
    var names := SortNames(live.enums.Keys * expected.enums.Keys);
    SortNamesFacts(live.enums.Keys * expected.enums.Keys);
    DueInBoth(live, expected, step);
    hide *;
    assert forall e :: e in names <==> e in live.enums && e in expected.enums;
    AllEnumStepsHold(names, live, expected, step);
  }

  /** The plan holds a step for an object exactly when the object deserves one. */
  lemma PlanIsExact(live: Snapshot, expected: Snapshot, revision: string, step: RepairStep)
    ensures step in Plan(Diff(live, expected, revision)) <==> Due(live, expected, step)
  {
    PlanParts(Diff(live, expected, revision), step);
    TablePlan(live, expected, step);
    EnumPlan(live, expected, step);
    SortNamesFacts(expected.tables.Keys - live.tables.Keys);
    SortNamesFacts(live.tables.Keys - expected.tables.Keys);
    SortNamesFacts(expected.enums.Keys - live.enums.Keys);
    hide Plan, SortNames, TableDiffs, EnumDiffs, AllTableSteps, AllEnumSteps, Has;
  }

  // ---- One step an object ----------------------------------------------------------------------

  predicate Distinct<T(==)>(s: seq<T>) { forall i, j :: 0 <= i < j < |s| ==> s[i] != s[j] }

  lemma DistinctConcat<T>(a: seq<T>, b: seq<T>)
    requires Distinct(a) && Distinct(b) && forall x :: x in a ==> x !in b
    ensures Distinct(a + b)
  {
    forall i, j | 0 <= i < j < |a + b| ensures (a + b)[i] != (a + b)[j] {
      if i < |a| <= j { assert a[i] in a && b[j - |a|] in b; }
    }
  }

  lemma SortNamesDistinct(names: set<string>)
    ensures Distinct(SortNames(names))
  {
    ByNameIsTotal();
    Sorting.SortFacts(names, ByName());
  }

  lemma {:induction false} NotInDistinct(values: seq<string>, others: seq<string>)
    requires Distinct(values)
    ensures Distinct(NotIn(values, others))
  {
    if values != [] {
      var init, last := values[..|values| - 1], values[|values| - 1];
      NotInDistinct(init, others);
      NotInFacts(init, others);
      hide NotIn;
      DistinctConcat(NotIn(init, others), if last in others then [] else [last]);
      Unfold(values, others);
    }
  }

  lemma Unfold(values: seq<string>, others: seq<string>)
    requires values != []
    ensures NotIn(values, others) == NotIn(values[..|values| - 1], others)
      + if values[|values| - 1] in others then [] else [values[|values| - 1]]
  {
  }

  lemma EachDistinct(kind: StepKind, names: seq<string>)
    requires Distinct(names)
    ensures Distinct(Each(kind, names))
  {
  }

  lemma TableStepsDistinct(t: string, live: Table, expected: Table)
    ensures Distinct(TableSteps(DiffTable(t, live, expected)))
  {
    var td := DiffTable(t, live, expected);
    SortNamesDistinct(expected.columns.Keys - live.columns.Keys);
    SortNamesDistinct(live.columns.Keys - expected.columns.Keys);
    SortNamesDistinct(expected.indexes - live.indexes);
    SortNamesDistinct(expected.constraints - live.constraints);
    var a, b, c, d := Each(ColumnMissing(t), td.missingColumns), Each(ColumnExtra(t), td.extraColumns),
      Each(IndexMissing(t), td.missingIndexes), Each(ConstraintMissing(t), td.missingConstraints);
    hide SortNames;
    DistinctConcat(a, b);
    DistinctConcat(a + b, c);
    DistinctConcat(a + b + c, d);
  }

  lemma EnumStepsDistinct(e: string, live: seq<string>, expected: seq<string>)
    requires Distinct(live) && Distinct(expected)
    ensures Distinct(EnumSteps(DiffEnum(e, live, expected)))
  {
    NotInDistinct(expected, live);
    NotInDistinct(live, expected);
    hide NotIn;
    DistinctConcat(Each(ValueMissing(e), NotIn(expected, live)), Each(ValueExtra(e), NotIn(live, expected)));
  }

  lemma {:induction false} AllTableStepsDistinct(names: seq<string>, live: Snapshot, expected: Snapshot)
    requires Distinct(names)
    requires forall i :: 0 <= i < |names| ==> names[i] in live.tables && names[i] in expected.tables
    ensures Distinct(AllTableSteps(TableDiffs(names, live, expected)))
    decreases |names|
  {
    if names != [] {
      var init, last := names[..|names| - 1], names[|names| - 1];
      AllTableStepsDistinct(init, live, expected);
      var td, ds := DiffTable(last, Get(live, last), Get(expected, last)), TableDiffs(init, live, expected);
      assert TableDiffs(names, live, expected) == if TableClean(td) then ds else ds + [td];
      assert (ds + [td])[..|ds|] == ds && AllTableSteps(ds + [td]) == AllTableSteps(ds) + TableSteps(td);
      TableStepsDistinct(last, Get(live, last), Get(expected, last));
      forall step | step in AllTableSteps(ds) ensures step !in TableSteps(td) {
        AllTableStepsHold(init, live, expected, step);
        TableStepsHold(live, expected, last, step);
        hide *;
      }
      assert Distinct(AllTableSteps(ds) + TableSteps(td)) by {
        hide *;
        DistinctConcat(AllTableSteps(ds), TableSteps(td));
      }
      hide *;
    }
  }

  lemma {:induction false} AllEnumStepsDistinct(names: seq<string>, live: Snapshot, expected: Snapshot)
    requires Distinct(names)
    requires forall i :: 0 <= i < |names| ==> names[i] in live.enums && names[i] in expected.enums
    requires forall e :: e in live.enums ==> Distinct(live.enums[e])
    requires forall e :: e in expected.enums ==> Distinct(expected.enums[e])
    ensures Distinct(AllEnumSteps(EnumDiffs(names, live, expected)))
    decreases |names|
  {
    if names != [] {
      var init, last := names[..|names| - 1], names[|names| - 1];
      AllEnumStepsDistinct(init, live, expected);
      var ed, ds := DiffEnum(last, Values(live, last), Values(expected, last)), EnumDiffs(init, live, expected);
      assert EnumDiffs(names, live, expected) == if EnumClean(ed) then ds else ds + [ed];
      assert (ds + [ed])[..|ds|] == ds && AllEnumSteps(ds + [ed]) == AllEnumSteps(ds) + EnumSteps(ed);
      EnumStepsDistinct(last, Values(live, last), Values(expected, last));
      forall step | step in AllEnumSteps(ds) ensures step !in EnumSteps(ed) {
        AllEnumStepsHold(init, live, expected, step);
        EnumStepsHold(live, expected, last, step);
        hide *;
      }
      assert Distinct(AllEnumSteps(ds) + EnumSteps(ed)) by {
        hide *;
        DistinctConcat(AllEnumSteps(ds), EnumSteps(ed));
      }
      hide *;
    }
  }

  lemma PlanPartsDistinct(d: SchemaDiff)
    requires Distinct(d.missingTables) && Distinct(d.extraTables) && Distinct(d.missingEnums)
    requires Distinct(AllTableSteps(d.tableDiffs))
    requires forall step :: step in AllTableSteps(d.tableDiffs) ==> InTable(step.kind)
    requires Distinct(AllEnumSteps(d.enumDiffs))
    requires forall step :: step in AllEnumSteps(d.enumDiffs) ==> InEnum(step.kind)
    ensures Distinct(Plan(d))
  {
    var a, b, c := Each(TableMissing, d.missingTables), Each(TableExtra, d.extraTables), AllTableSteps(d.tableDiffs);
    var e, f := Each(EnumMissing, d.missingEnums), AllEnumSteps(d.enumDiffs);
    EachDistinct(TableMissing, d.missingTables);
    EachDistinct(TableExtra, d.extraTables);
    EachDistinct(EnumMissing, d.missingEnums);
    hide Distinct, AllTableSteps, AllEnumSteps;
    assert forall step :: step in a ==> step.kind == TableMissing;
    assert forall step :: step in b ==> step.kind == TableExtra;
    assert forall step :: step in e ==> step.kind == EnumMissing;
    hide Each;
    DistinctConcat(a, b);
    DistinctConcat(a + b, c);
    DistinctConcat(a + b + c, e);
    DistinctConcat(a + b + c + e, f);
  }

  lemma TablePlanDistinct(live: Snapshot, expected: Snapshot)
    ensures
      var steps := AllTableSteps(TableDiffs(SortNames(live.tables.Keys * expected.tables.Keys), live, expected));
      Distinct(steps) && forall step :: step in steps ==> InTable(step.kind)
  {
    var names := SortNames(live.tables.Keys * expected.tables.Keys);
    SortNamesFacts(live.tables.Keys * expected.tables.Keys);
    SortNamesDistinct(live.tables.Keys * expected.tables.Keys);
    assert forall i :: 0 <= i < |names| ==> names[i] in names;
    hide *;
    AllTableStepsDistinct(names, live, expected);
    forall step ensures step in AllTableSteps(TableDiffs(names, live, expected)) ==> InTable(step.kind) {
      TablePlan(live, expected, step);
    }
  }

  lemma EnumPlanDistinct(live: Snapshot, expected: Snapshot)
    requires forall e :: e in live.enums ==> Distinct(live.enums[e])
    requires forall e :: e in expected.enums ==> Distinct(expected.enums[e])
    ensures
      var steps := AllEnumSteps(EnumDiffs(SortNames(live.enums.Keys * expected.enums.Keys), live, expected));
      Distinct(steps) && forall step :: step in steps ==> InEnum(step.kind)
  {
    var names := SortNames(live.enums.Keys * expected.enums.Keys);
    SortNamesFacts(live.enums.Keys * expected.enums.Keys);
    SortNamesDistinct(live.enums.Keys * expected.enums.Keys);
    assert forall i :: 0 <= i < |names| ==> names[i] in names;
    hide *;
    AllEnumStepsDistinct(names, live, expected);
    forall step ensures step in AllEnumSteps(EnumDiffs(names, live, expected)) ==> InEnum(step.kind) {
      EnumPlan(live, expected, step);
    }
  }

  /** No object gets two steps, provided no enum lists a value twice (which
      PostgreSQL refuses). */
  lemma OneStepEach(live: Snapshot, expected: Snapshot, revision: string)
    requires forall e :: e in live.enums ==> Distinct(live.enums[e])
    requires forall e :: e in expected.enums ==> Distinct(expected.enums[e])
    ensures Distinct(Plan(Diff(live, expected, revision)))
  {
    SortNamesDistinct(expected.tables.Keys - live.tables.Keys);
    SortNamesDistinct(live.tables.Keys - expected.tables.Keys);
    SortNamesDistinct(expected.enums.Keys - live.enums.Keys);
    hide SortNames, Distinct, TableDiffs, EnumDiffs, AllTableSteps, AllEnumSteps;
    TablePlanDistinct(live, expected);
    EnumPlanDistinct(live, expected);
    PlanPartsDistinct(Diff(live, expected, revision));
  }
}
