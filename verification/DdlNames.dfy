/** Which names a schema has after a statement, and what its columns are. */
module DdlNames {
  import opened DdlParser
  import opened Text

  /** The table or something in it. */
  predicate OfTable(n: Name, table: string) {
    match n
    case TableName(t) => t == table
    case ColumnName(t, _) => t == table
    case IndexName(t, _) => t == table
    case ConstraintName(t, _) => t == table
    case _ => false
  }

  /** The enum type or one of its values. */
  predicate OfEnum(n: Name, enumName: string) {
    match n
    case EnumName(e) => e == enumName
    case ValueName(e, _) => e == enumName
    case _ => false
  }

  // ---- CREATE TABLE ---------------------------------------------------------------------------

  /** The name that definition i of the body gives to its constraint; an anonymous
      one is numbered by how many names there are before it. */
  predicate NamesConstraint(table: string, body: seq<Piece>, i: nat, name: string)
    requires i < |body|
  {
    || (body[i] == PrimaryKey && name == table + "_pkey")
    || body[i] == Constraint(name)
    || (body[i] == Anonymous
        && name == table + "_unnamed_constraint_" + Decimal(|TableOf(table, body[..i]).constraints|))
  }

  /** A body gives exactly the constraints of its definitions, and no index. */
  lemma {:induction false} BodyConstraints(table: string, body: seq<Piece>, name: string)
    ensures TableOf(table, body).indexes == {}
    ensures name in TableOf(table, body).constraints
      <==> exists i :: 0 <= i < |body| && NamesConstraint(table, body, i, name)
    decreases |body|
  {
    if body != [] {
      var n := |body| - 1;
      var init := body[..n];
      BodyConstraints(table, init, name);
      forall i | 0 <= i < n ensures NamesConstraint(table, body, i, name) <==> NamesConstraint(table, init, i, name) {
        assert init[..i] == body[..i];
      }
      LastConstraint(table, body, name);
      hide NamesConstraint, TableOf;
    }
  }

  lemma LastConstraint(table: string, body: seq<Piece>, name: string)
    requires body != []
    ensures
      var before, after := TableOf(table, body[..|body| - 1]), TableOf(table, body);
      && after.indexes == before.indexes
      && (name in after.constraints <==>
          name in before.constraints || NamesConstraint(table, body, |body| - 1, name))
  {
    hide Decimal;
  }

  /** And exactly its columns; when one is defined twice the later definition stands. */
  lemma {:induction false} BodyColumns(table: string, body: seq<Piece>, name: string)
    ensures name in TableOf(table, body).columns
      <==> exists i :: 0 <= i < |body| && body[i].ColumnDef? && body[i].name == name
    ensures forall i ::
      && 0 <= i < |body| && body[i].ColumnDef? && body[i].name == name
      && (forall j :: i < j < |body| ==> !(body[j].ColumnDef? && body[j].name == name)) ==>
      name in TableOf(table, body).columns && TableOf(table, body).columns[name] == body[i].column
    decreases |body|
  {
    if body != [] {
      var n := |body| - 1;
      var init, last := body[..n], body[n];
      BodyColumns(table, init, name);
      LastColumn(table, body);
      hide TableOf;
      assert forall i :: 0 <= i < n ==> init[i] == body[i];
    }
  }

  lemma LastColumn(table: string, body: seq<Piece>)
    requires body != []
    ensures
      var before, last := TableOf(table, body[..|body| - 1]).columns, body[|body| - 1];
      TableOf(table, body).columns == if last.ColumnDef? then before[last.name := last.column] else before
  {
    hide Decimal;
  }

  function AnonymousIn(body: seq<Piece>): nat {
    if body == [] then 0 else AnonymousIn(body[..|body| - 1]) + if body[|body| - 1].Anonymous? then 1 else 0
  }

  /** Anonymous constraints alone are numbered from 0 in order. */
  lemma {:induction false} AnonymousAreNumbered(table: string, body: seq<Piece>, name: string)
    requires forall i :: 0 <= i < |body| ==> body[i].Anonymous? || body[i].ColumnDef?
    ensures |TableOf(table, body).constraints| == AnonymousIn(body)
    ensures name in TableOf(table, body).constraints <==>
      exists k :: 0 <= k < AnonymousIn(body) && name == Numbered(table, k)
    decreases |body|
  {
    if body != [] {
      var init, last := body[..|body| - 1], body[|body| - 1];
      var k := AnonymousIn(init);
      var before, next := TableOf(table, init).constraints, Numbered(table, k);
      AnonymousAreNumbered(table, init, name);
      AnonymousAreNumbered(table, init, next);
      forall j | 0 <= j < k ensures Numbered(table, j) != next { NumbersDiffer(table + "_unnamed_constraint_", j, k); }
      assert TableOf(table, body).constraints == if last.Anonymous? then before + {next} else before;
      hide TableOf, Numbered;
      assert AnonymousIn(body) == if last.Anonymous? then k + 1 else k;
      hide AnonymousIn;
    }
  }

  function Numbered(table: string, k: nat): string { table + "_unnamed_constraint_" + Decimal(k) }

  lemma NumbersDiffer(prefix: string, j: nat, k: nat)
    requires j != k
    ensures prefix + Decimal(j) != prefix + Decimal(k)
  {
    DecimalIsInjective(j, k);
    assert (prefix + Decimal(j))[|prefix|..] == Decimal(j) && (prefix + Decimal(k))[|prefix|..] == Decimal(k);
  }

  // ---- Statements -------------------------------------------------------------------------------

  /** The names after a statement, from those before it. */
  predicate HasAfter(s: Snapshot, stmt: Stmt, n: Name) {
    match stmt
    case CreateTable(table, body) =>
      if !OfTable(n, table) then Has(s, n)
      else
        || n == TableName(table)
        || (n.ColumnName? && exists i :: 0 <= i < |body| && body[i].ColumnDef? && body[i].name == n.c)
        || (n.ConstraintName? && exists i :: 0 <= i < |body| && NamesConstraint(table, body, i, n.c))
    case CreateType(e, values) =>
      if !OfEnum(n, e) then Has(s, n) else n == EnumName(e) || (n.ValueName? && n.v in values)
    case AddValue(e, v) => Has(s, n) || n == EnumName(e) || n == ValueName(e, v)
    case CreateIndex(i, table) => Has(s, n) || n == TableName(table) || n == IndexName(table, i)
    case DropIndex(i) => Has(s, n) && !(n.IndexName? && n.i == i)
    case AddColumn(table, c, _) => Has(s, n) || n == TableName(table) || n == ColumnName(table, c)
    case DropColumn(table, c) => Has(s, n) && n != ColumnName(table, c)
    case AddConstraint(table, c) => Has(s, n) || n == TableName(table) || n == ConstraintName(table, c)
    case DropConstraint(table, c) => Has(s, n) && n != ConstraintName(table, c)
    case DropTable(table) => Has(s, n) && !OfTable(n, table)
    case DropType(e) => Has(s, n) && !OfEnum(n, e)
    case SetNotNull(_, _) => Has(s, n)
    case Ignored => Has(s, n)
    case Unrecognized(_) => Has(s, n)
  }

  lemma StatementNames(s: Snapshot, stmt: Stmt, n: Name)
    ensures Has(Exec(s, stmt), n) <==> HasAfter(s, stmt, n)
  {
    hide HasAfter, Exec, Has;
    if stmt.CreateTable? { CreateTableNames(s, stmt.table, stmt.body, n); }
    else if Drops(stmt) { DropNames(s, stmt, n); }
    else { OtherNames(s, stmt, n); }
  }

  predicate Drops(stmt: Stmt) {
    stmt.DropIndex? || stmt.DropColumn? || stmt.DropConstraint? || stmt.DropTable? || stmt.DropType?
  }

  lemma DropNames(s: Snapshot, stmt: Stmt, n: Name)
    requires Drops(stmt)
    ensures Has(Exec(s, stmt), n) <==> HasAfter(s, stmt, n)
  {
  }

  lemma OtherNames(s: Snapshot, stmt: Stmt, n: Name)
    requires !stmt.CreateTable? && !Drops(stmt)
    ensures Has(Exec(s, stmt), n) <==> HasAfter(s, stmt, n)
  {
  }

  lemma CreateTableNames(s: Snapshot, table: string, body: seq<Piece>, n: Name)
    ensures Has(Exec(s, CreateTable(table, body)), n) <==> HasAfter(s, CreateTable(table, body), n)
  {
    var name := if n.ColumnName? || n.ConstraintName? then n.c else "";
    BodyConstraints(table, body, name);
    BodyColumns(table, body, name);
    hide TableOf, NamesConstraint;
  }

  /** The snapshot of a whole script has the names of its statements, except those of the bookkeeping table. */
  lemma ScriptNames(stmts: seq<Stmt>, n: Name)
    ensures Has(Parse([]), n) <==> false
    ensures stmts != [] ==>
      var init, last := stmts[..|stmts| - 1], stmts[|stmts| - 1];
      Has(Parse(stmts), n) <==> HasAfter(ExecAll(EMPTY, init), last, n) && !OfTable(n, "alembic_version")
    ensures Has(Parse(stmts), n) <==> Has(ExecAll(EMPTY, stmts), n) && !OfTable(n, "alembic_version")
  {
    if stmts != [] {
      StatementNames(ExecAll(EMPTY, stmts[..|stmts| - 1]), stmts[|stmts| - 1], n);
      hide HasAfter, Exec;
    }
  }

  // ---- Columns -----------------------------------------------------------------------------------

  /** What a column is after a statement. */
  lemma StatementColumns(s: Snapshot, stmt: Stmt, t: string, c: string)
    requires Has(Exec(s, stmt), ColumnName(t, c)) && (stmt.CreateTable? ==> stmt.table != t)
    ensures
      var column := Exec(s, stmt).tables[t].columns[c];
      if stmt.AddColumn? && stmt.table == t && stmt.columnName == c then column == stmt.column
      else
        && Has(s, ColumnName(t, c))
        && column == if stmt.SetNotNull? && stmt.table == t && stmt.columnName == c
                     then Column(s.tables[t].columns[c].dataType, false) else s.tables[t].columns[c]
  {
  }

  predicate NoRepeat(values: seq<string>) { forall i, j :: 0 <= i < j < |values| ==> values[i] != values[j] }

  /** Adding a value that an enum has already changes nothing: only a CREATE TYPE
      that lists one twice makes an enum with a repeated value. */
  lemma {:induction false} ValuesDoNotRepeat(stmts: seq<Stmt>, e: string)
    requires forall i :: 0 <= i < |stmts| && stmts[i].CreateType? ==> NoRepeat(stmts[i].values)
    ensures e in Parse(stmts).enums ==> NoRepeat(Parse(stmts).enums[e])
    decreases |stmts|
  {
    if stmts != [] {
      var init, last := stmts[..|stmts| - 1], stmts[|stmts| - 1];
      assert forall i :: 0 <= i < |init| ==> init[i] == stmts[i];
      ValuesDoNotRepeat(init, e);
      hide NoRepeat;
      if last.AddValue? && last.enumName == e { ValueIsAppended(Values(ExecAll(EMPTY, init), e), last.value); }
    }
  }

  lemma ValueIsAppended(values: seq<string>, v: string)
    ensures NoRepeat([])
    ensures NoRepeat(values) && v !in values ==> NoRepeat(values + [v])
  {
  }

  // ---- What was not understood -----------------------------------------------------------------------

  /** A text is reported exactly when some statement with it was not recognized. */
  lemma {:induction false} UnparsedMeaning(stmts: seq<Stmt>, text: string)
    ensures text in Unparsed(stmts) <==> exists i :: 0 <= i < |stmts| && stmts[i] == Unrecognized(text)
    decreases |stmts|
  {
    if stmts != [] {
      var init := stmts[..|stmts| - 1];
      UnparsedMeaning(init, text);
      forall i | 0 <= i < |init| ensures init[i] == stmts[i] {}
    }
  }
}
