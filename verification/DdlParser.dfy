/** parse_ddl: interpreting recognized DDL statements as a schema snapshot. */
module DdlParser {
  import opened Text

  datatype Column = Column(dataType: string, nullable: bool)

  datatype Table = Table(columns: map<string, Column>, indexes: set<string>, constraints: set<string>)

  /** Tables and enum types by name. */
  datatype Snapshot = Snapshot(tables: map<string, Table>, enums: map<string, seq<string>>)

  const EMPTY := Snapshot(map[], map[])
  const NO_TABLE := Table(map[], {}, {})

  /** One definition in the body of a CREATE TABLE. */
  datatype Piece = PrimaryKey | Constraint(name: string) | Anonymous | ColumnDef(name: string, column: Column)

  datatype Stmt =
    | Ignored
    | CreateTable(table: string, body: seq<Piece>)
    | CreateType(enumName: string, values: seq<string>)
    | AddValue(enumName: string, value: string)
    | CreateIndex(index: string, table: string)
    | DropIndex(index: string)
    | AddColumn(table: string, columnName: string, column: Column)
    | DropColumn(table: string, columnName: string)
    | AddConstraint(table: string, constraint_: string)
    | DropConstraint(table: string, constraint_: string)
    | SetNotNull(table: string, columnName: string)
    | DropTable(table: string)
    | DropType(enumName: string)
    | Unrecognized(text: string)

  // ---- CREATE TABLE bodies -----------------------------------------------------------

  function AddPiece(table: string, t: Table, p: Piece): Table {
    match p
    case PrimaryKey => t.(constraints := t.constraints + {table + "_pkey"})
    case Constraint(name) => t.(constraints := t.constraints + {name})
    case Anonymous => t.(constraints := t.constraints + {table + "_unnamed_constraint_" + Decimal(|t.constraints|)})
    case ColumnDef(name, c) => t.(columns := t.columns[name := c])
  }

  function TableOf(table: string, body: seq<Piece>): Table {
    if body == [] then NO_TABLE else AddPiece(table, TableOf(table, body[..|body| - 1]), body[|body| - 1])
  }

  method ParseCreateTableBody(table: string, body: seq<Piece>) returns (t: Table)
    ensures t == TableOf(table, body)
  {
    var columns: map<string, Column>, constraints: set<string> := map[], {};
    for i := 0 to |body|
      invariant Table(columns, {}, constraints) == TableOf(table, body[..i])
    {
      assert body[..i + 1][..i] == body[..i];
      match body[i]
      case PrimaryKey => constraints := constraints + {table + "_pkey"};
      case Constraint(name) => constraints := constraints + {name};
      case Anonymous => constraints := constraints + {table + "_unnamed_constraint_" + Decimal(|constraints|)};
      case ColumnDef(name, c) => columns := columns[name := c];
    }
    assert body[..|body|] == body;
    t := Table(columns, {}, constraints);
  }

  // ---- Statements ----------------------------------------------------------------------

  function Get(s: Snapshot, table: string): Table { if table in s.tables then s.tables[table] else NO_TABLE }

  function Values(s: Snapshot, e: string): seq<string> { if e in s.enums then s.enums[e] else [] }

  function PutTable(s: Snapshot, table: string, t: Table): Snapshot { s.(tables := s.tables[table := t]) }

  function WithoutIndex(s: Snapshot, index: string): Snapshot {
    s.(tables := map t | t in s.tables :: s.tables[t].(indexes := s.tables[t].indexes - {index}))
  }

  function Exec(s: Snapshot, stmt: Stmt): Snapshot {
    match stmt
    case Ignored => s
    case CreateTable(table, body) => PutTable(s, table, TableOf(table, body))
    case CreateType(e, values) => s.(enums := s.enums[e := values])
    case AddValue(e, v) => if v in Values(s, e) then s else s.(enums := s.enums[e := Values(s, e) + [v]])
    case CreateIndex(i, table) => PutTable(s, table, Get(s, table).(indexes := Get(s, table).indexes + {i}))
    case DropIndex(i) => WithoutIndex(s, i)
    case AddColumn(table, c, column) =>
      PutTable(s, table, Get(s, table).(columns := Get(s, table).columns[c := column]))
    case DropColumn(table, c) =>
      if table in s.tables && c in s.tables[table].columns
      then PutTable(s, table, s.tables[table].(columns := s.tables[table].columns - {c})) else s
    case AddConstraint(table, c) => PutTable(s, table, Get(s, table).(constraints := Get(s, table).constraints + {c}))
    case DropConstraint(table, c) =>
      if table in s.tables && c in s.tables[table].constraints
      then PutTable(s, table, s.tables[table].(constraints := s.tables[table].constraints - {c})) else s
    case SetNotNull(table, c) =>
      if table in s.tables && c in s.tables[table].columns
      then PutTable(s, table,
        s.tables[table].(columns := s.tables[table].columns[c := s.tables[table].columns[c].(nullable := false)]))
      else s
    case DropTable(table) => s.(tables := s.tables - {table})
    case DropType(e) => s.(enums := s.enums - {e})
    case Unrecognized(_) => s
  }

  function ExecAll(s: Snapshot, stmts: seq<Stmt>): Snapshot {
    if stmts == [] then s else Exec(ExecAll(s, stmts[..|stmts| - 1]), stmts[|stmts| - 1])
  }

  function Unparsed(stmts: seq<Stmt>): seq<string> {
    if stmts == [] then [] else
      Unparsed(stmts[..|stmts| - 1])
      + if stmts[|stmts| - 1].Unrecognized? then [stmts[|stmts| - 1].text] else []
  }

  const BOOKKEEPING := "alembic_version"

  function Parse(stmts: seq<Stmt>): Snapshot {
    var s := ExecAll(EMPTY, stmts);
    s.(tables := s.tables - {BOOKKEEPING})
  }

  method ParseDdl(stmts: seq<Stmt>) returns (snapshot: Snapshot, unrecognized: seq<string>)
    ensures snapshot == Parse(stmts) && unrecognized == Unparsed(stmts)
  {
    var tables: map<string, Table>, enums: map<string, seq<string>> := map[], map[];
    unrecognized := [];
    for i := 0 to |stmts|
      invariant Snapshot(tables, enums) == ExecAll(EMPTY, stmts[..i])
      invariant unrecognized == Unparsed(stmts[..i])
    {
      assert stmts[..i + 1][..i] == stmts[..i];
      ghost var before := Snapshot(tables, enums);
      match stmts[i]
      case Ignored =>
      case CreateTable(name, body) =>
        var t := ParseCreateTableBody(name, body);
        tables := tables[name := t];
      case CreateType(name, values) =>
        enums := enums[name := values];
      case AddValue(name, value) =>
        var existing := if name in enums then enums[name] else [];
        if value !in existing { enums := enums[name := existing + [value]]; }
      case CreateIndex(index, table) =>
        var t := if table in tables then tables[table] else NO_TABLE;
        tables := tables[table := t.(indexes := t.indexes + {index})];
      case DropIndex(index) =>
        tables := map t | t in tables ::
          if index in tables[t].indexes then tables[t].(indexes := tables[t].indexes - {index}) else tables[t];
        SameTables(before, index, tables);
      case AddColumn(table, name, column) =>
        var t := if table in tables then tables[table] else NO_TABLE;
        tables := tables[table := t.(columns := t.columns[name := column])];
      case DropColumn(table, name) =>
        if table in tables && name in tables[table].columns {
          tables := tables[table := tables[table].(columns := tables[table].columns - {name})];
        }
      case AddConstraint(table, name) =>
        var t := if table in tables then tables[table] else NO_TABLE;
        tables := tables[table := t.(constraints := t.constraints + {name})];
      case DropConstraint(table, name) =>
        if table in tables && name in tables[table].constraints {
          tables := tables[table := tables[table].(constraints := tables[table].constraints - {name})];
        }
      case SetNotNull(table, name) =>
        if table in tables && name in tables[table].columns {
          var t := tables[table];
          tables := tables[table := t.(columns := t.columns[name := t.columns[name].(nullable := false)])];
        }
      case DropTable(table) => tables := tables - {table};
      case DropType(name) => enums := enums - {name};
      case Unrecognized(text) => unrecognized := unrecognized + [text];
    }
    assert stmts[..|stmts|] == stmts;
    tables := tables - {BOOKKEEPING};
    snapshot := Snapshot(tables, enums);
  }

  lemma SameTables(s: Snapshot, index: string, tables: map<string, Table>)
    requires tables.Keys == s.tables.Keys
    requires forall t :: t in tables ==>
      (tables[t] == if index in s.tables[t].indexes then s.tables[t].(indexes := s.tables[t].indexes - {index})
        else s.tables[t])
    ensures tables == WithoutIndex(s, index).tables
  {
    forall t | t in tables ensures tables[t] == WithoutIndex(s, index).tables[t] {
      if index !in s.tables[t].indexes { assert s.tables[t].indexes - {index} == s.tables[t].indexes; }
    }
  }

  // ---- Parsing is a fold ------------------------------------------------------------------

  /** Interpreting script A;B is interpreting B from the state after A. */
  lemma {:induction false} ExecConcat(s: Snapshot, a: seq<Stmt>, b: seq<Stmt>)
    ensures ExecAll(s, a + b) == ExecAll(ExecAll(s, a), b)
    ensures Unparsed(a + b) == Unparsed(a) + Unparsed(b)
    decreases |b|
  {
    if b == [] {
      assert a + b == a;
    } else {
      assert (a + b)[..|a + b| - 1] == a + b[..|b| - 1];
      ExecConcat(s, a, b[..|b| - 1]);
    }
  }

  // ---- The compared names -------------------------------------------------------------------

  /** Everything diff_schemas compares, by name. */
  datatype Name =
    | TableName(t: string)
    | ColumnName(t: string, c: string)
    | IndexName(t: string, i: string)
    | ConstraintName(t: string, c: string)
    | EnumName(e: string)
    | ValueName(e: string, v: string)

  predicate Has(s: Snapshot, n: Name) {
    match n
    case TableName(t) => t in s.tables
    case ColumnName(t, c) => t in s.tables && c in s.tables[t].columns
    case IndexName(t, i) => t in s.tables && i in s.tables[t].indexes
    case ConstraintName(t, c) => t in s.tables && c in s.tables[t].constraints
    case EnumName(e) => e in s.enums
    case ValueName(e, v) => e in s.enums && v in s.enums[e]
  }

  ghost predicate NamesWithin(a: Snapshot, b: Snapshot) { forall n :: Has(a, n) ==> Has(b, n) }

  ghost predicate SameNames(a: Snapshot, b: Snapshot) { forall n :: Has(a, n) <==> Has(b, n) }

  /** A CREATE or ADD that does not re-create a table or enum (or a statement
      that touches no name at all). */
  predicate Additive(s: Snapshot, stmt: Stmt) {
    match stmt
    case CreateTable(t, _) => t !in s.tables
    case CreateType(e, _) => e !in s.enums
    case DropIndex(_) => false
    case DropColumn(_, _) => false
    case DropConstraint(_, _) => false
    case DropTable(_) => false
    case DropType(_) => false
    case _ => true
  }

  predicate AllAdditive(s: Snapshot, stmts: seq<Stmt>) {
    stmts == [] ||
    (AllAdditive(s, stmts[..|stmts| - 1]) && Additive(ExecAll(s, stmts[..|stmts| - 1]), stmts[|stmts| - 1]))
  }

  lemma AdditiveGrows(s: Snapshot, stmt: Stmt)
    requires Additive(s, stmt)
    ensures NamesWithin(s, Exec(s, stmt))
  {
  }

  lemma {:induction false} ScriptGrows(s: Snapshot, stmts: seq<Stmt>)
    requires AllAdditive(s, stmts)
    ensures NamesWithin(s, ExecAll(s, stmts))
    decreases |stmts|
  {
    if stmts != [] {
      ScriptGrows(s, stmts[..|stmts| - 1]);
      AdditiveGrows(ExecAll(s, stmts[..|stmts| - 1]), stmts[|stmts| - 1]);
    }
  }

  /** A migration that only creates and adds lets the expected names only grow. */
  lemma MigrationGrows(base: seq<Stmt>, migration: seq<Stmt>)
    requires AllAdditive(ExecAll(EMPTY, base), migration)
    ensures NamesWithin(Parse(base), Parse(base + migration))
  {
    ExecConcat(EMPTY, base, migration);
    var s := ExecAll(EMPTY, base);
    ScriptGrows(s, migration);
    forall n | Has(Parse(base), n) ensures Has(Parse(base + migration), n) {
      assert Has(s, n);
      assert Has(ExecAll(s, migration), n);
    }
  }

  /** A migration that only tightens nullability changes no compared name. */
  lemma {:induction false} NullabilityIsInvisible(s: Snapshot, stmts: seq<Stmt>)
    requires forall i :: 0 <= i < |stmts| ==> stmts[i].SetNotNull? || stmts[i].Ignored?
    ensures SameNames(s, ExecAll(s, stmts))
    decreases |stmts|
  {
    if stmts != [] { NullabilityIsInvisible(s, stmts[..|stmts| - 1]); }
  }
}
