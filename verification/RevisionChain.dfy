/** The revision chain: when at most one of its revisions can match. */
module RevisionChain {
  import opened DdlParser
  import opened Recommend

  datatype Migration = Migration(id: string, stmts: seq<Stmt>)

  /** The SQL of the first k migrations. */
  function Script(migrations: seq<Migration>, k: nat): seq<Stmt>
    requires k <= |migrations|
  {
    if k == 0 then [] else Script(migrations, k - 1) + migrations[k - 1].stmts
  }

  function Chain(migrations: seq<Migration>): (r: seq<Revision>) {
    seq(|migrations|, i requires 0 <= i < |migrations| => Revision(migrations[i].id, Script(migrations, i + 1)))
  }

  /** The schema expected after the first k migrations has the name. */
  predicate NameAt(migrations: seq<Migration>, k: nat, n: Name)
    requires k <= |migrations|
  {
    Has(Parse(Script(migrations, k)), n)
  }

  predicate Adds(migrations: seq<Migration>, j: nat, n: Name)
    requires j < |migrations|
  {
    !NameAt(migrations, j, n) && NameAt(migrations, j + 1, n)
  }

  predicate Drops(migrations: seq<Migration>, j: nat, n: Name)
    requires j < |migrations|
  {
    NameAt(migrations, j, n) && !NameAt(migrations, j + 1, n)
  }

  predicate NeverDropped(migrations: seq<Migration>, from: nat, n: Name) {
    forall k :: from <= k < |migrations| ==> !Drops(migrations, k, n)
  }

  predicate NeverAdded(migrations: seq<Migration>, from: nat, n: Name) {
    forall k :: from <= k < |migrations| ==> !Adds(migrations, k, n)
  }

  ghost predicate AddsName(migrations: seq<Migration>, j: nat)
    requires j < |migrations|
  {
    exists n :: Adds(migrations, j, n)
  }

  /** Name n is new in migration j and no later one drops it, or it goes in
      migration j and no later one re-creates it. */
  predicate ChangedForGood(migrations: seq<Migration>, j: nat, n: Name)
    requires j < |migrations|
  {
    || (Adds(migrations, j, n) && NeverDropped(migrations, j + 1, n))
    || (Drops(migrations, j, n) && NeverAdded(migrations, j + 1, n))
  }

  ghost predicate Lasting(migrations: seq<Migration>, j: nat)
    requires j < |migrations|
  {
    exists n :: ChangedForGood(migrations, j, n)
  }

  lemma {:induction false} NameStays(migrations: seq<Migration>, i: nat, j: nat, n: Name)
    requires i <= j <= |migrations|
    ensures NeverDropped(migrations, i, n) && NameAt(migrations, i, n) ==> NameAt(migrations, j, n)
    ensures NeverAdded(migrations, i, n) && !NameAt(migrations, i, n) ==> !NameAt(migrations, j, n)
    decreases j
  {
    hide NameAt;
    if i < j {
      NameStays(migrations, i, j - 1, n);
      assert !Drops(migrations, j - 1, n) || !NeverDropped(migrations, i, n);
      assert !Adds(migrations, j - 1, n) || !NeverAdded(migrations, i, n);
    }
  }

  /** What migration j changed for good tells the revision before it from every later one. */
  lemma LastingSeparates(migrations: seq<Migration>, j: nat, k: nat)
    requires j < k <= |migrations| && Lasting(migrations, j)
    ensures !SameNames(Parse(Script(migrations, j)), Parse(Script(migrations, k)))
  {
    var n :| ChangedForGood(migrations, j, n);
    NameStays(migrations, j + 1, k, n);
    hide NeverDropped, NeverAdded, Parse, Script, Has;
    assert NameAt(migrations, j, n) <==> Has(Parse(Script(migrations, j)), n);
    assert NameAt(migrations, k, n) <==> Has(Parse(Script(migrations, k)), n);
  }

  /** If every migration after the first changes something for good, no two
      revisions of the chain are twins, whatever statements they hold. */
  lemma LastingMigrationsHaveNoTwins(migrations: seq<Migration>, i: nat, j: nat)
    requires i < j < |migrations|
    requires forall k :: 0 < k < |migrations| ==> Lasting(migrations, k)
    ensures !Twins(Chain(migrations)[i], Chain(migrations)[j])
  {
    LastingHasNoLaterTwin(migrations, i + 1, j);
  }

  lemma LastingHasNoLaterTwin(migrations: seq<Migration>, j: nat, k: nat)
    requires 0 < j <= k < |migrations| && Lasting(migrations, j)
    ensures !Twins(Chain(migrations)[j - 1], Chain(migrations)[k])
  {
    hide Lasting, Parse, Script, SameNames, Parseable;
    LastingSeparates(migrations, j, k + 1);
  }

  /** So the matching revision of such a chain is the one recommended. */
  lemma LastingChainStampsItsMatch(migrations: seq<Migration>, live: Snapshot, rec: Recommendation, k: nat)
    requires forall j :: 0 < j < |migrations| ==> Lasting(migrations, j)
    requires k < |migrations| && Matches(live, Chain(migrations)[k])
    requires Recommended(rec, live, Chain(migrations))
    ensures rec == Stamp(migrations[k].id)
  {
    assert Parseable(Chain(migrations)[k]);
    hide Lasting, Matches, Twins, Closest, Parseable, Script;
    forall i | 0 <= i < |migrations| && i != k ensures !Matches(live, Chain(migrations)[i]) {
      MatchesOfTwins(live, Chain(migrations)[i], Chain(migrations)[k]);
      MatchesOfTwins(live, Chain(migrations)[k], Chain(migrations)[i]);
      if i < k { LastingMigrationsHaveNoTwins(migrations, i, k); }
      else { LastingMigrationsHaveNoTwins(migrations, k, i); }
    }
  }

  // ---- Chains that only grow -------------------------------------------------------------------------

  /** Every migration only creates and adds, never re-creating. */
  predicate OnlyGrows(migrations: seq<Migration>) {
    forall i :: 0 <= i < |migrations| ==> AllAdditive(ExecAll(EMPTY, Script(migrations, i)), migrations[i].stmts)
  }

  lemma GrowthDropsNothing(migrations: seq<Migration>, k: nat, n: Name)
    requires k < |migrations| && OnlyGrows(migrations)
    ensures !Drops(migrations, k, n)
  {
    hide Parse, Has, AllAdditive, ExecAll;
    MigrationGrows(Script(migrations, k), migrations[k].stmts);
  }

  /** In a chain that only grows the match is unique, for every live schema,
      exactly when every migration after the first adds a name. */
  lemma GrowingChainMatchesOnceIff(migrations: seq<Migration>)
    requires OnlyGrows(migrations) && forall i :: 0 <= i < |migrations| ==> Parseable(Chain(migrations)[i])
    ensures (forall i, j :: 0 <= i < j < |migrations| ==> !Twins(Chain(migrations)[i], Chain(migrations)[j]))
            <==> forall j :: 0 < j < |migrations| ==> AddsName(migrations, j)
  {
    hide OnlyGrows, Twins, Drops, Adds, Parseable, Parse, Has;
    forall k, n | 0 <= k < |migrations| ensures !Drops(migrations, k, n) { GrowthDropsNothing(migrations, k, n); }
    if forall j :: 0 < j < |migrations| ==> AddsName(migrations, j) {
      forall j | 0 < j < |migrations| ensures Lasting(migrations, j) {
        assert AddsName(migrations, j);
        var n :| Adds(migrations, j, n);
        assert ChangedForGood(migrations, j, n);
      }
      hide Lasting, AddsName;
      forall i, j | 0 <= i < j < |migrations| ensures !Twins(Chain(migrations)[i], Chain(migrations)[j]) {
        LastingMigrationsHaveNoTwins(migrations, i, j);
      }
    } else {
      var j :| 0 < j < |migrations| && !AddsName(migrations, j);
      IdleMigrationHasTwin(migrations, j);
    }
  }

  /** A migration that neither adds nor drops a name cannot be told from its predecessor. */
  lemma IdleMigrationHasTwin(migrations: seq<Migration>, j: nat)
    requires 0 < j < |migrations| && forall n :: !Adds(migrations, j, n) && !Drops(migrations, j, n)
    requires Parseable(Chain(migrations)[j - 1]) && Parseable(Chain(migrations)[j])
    ensures Twins(Chain(migrations)[j - 1], Chain(migrations)[j])
  {
    hide Parse, Script, Has, Parseable;
    forall n ensures Has(Parse(Script(migrations, j)), n) <==> Has(Parse(Script(migrations, j + 1)), n) {
      assert !Adds(migrations, j, n) && !Drops(migrations, j, n);
    }
  }

  // ---- Chains that also drop -------------------------------------------------------------------------

  lemma ExecOne(s: Snapshot, stmts: seq<Stmt>, stmt: Stmt)
    ensures ExecAll(s, stmts + [stmt]) == Exec(ExecAll(s, stmts), stmt)
  {
    assert (stmts + [stmt])[..|stmts|] == stmts;
  }

  /** Adding a name in every migration is not enough when names are also dropped:
      the second and the fourth revision of this chain are twins. */
  function SwingingChain(t: string, a: string, b: string, c: Column): seq<Migration> {
    [Migration("r1", [CreateTable(t, [])]),
     Migration("r2", [AddColumn(t, a, c)]),
     Migration("r3", [DropColumn(t, a), AddColumn(t, b, c)]),
     Migration("r4", [DropColumn(t, b), AddColumn(t, a, c)])]
  }

  /** The snapshots along that chain. */
  lemma SwingingStates(t: string, a: string, b: string, c: Column)
    requires a != b
    ensures
      var m := SwingingChain(t, a, b, c);
      && ExecAll(EMPTY, Script(m, 1)) == PutTable(EMPTY, t, NO_TABLE)
      && ExecAll(EMPTY, Script(m, 2)) == PutTable(EMPTY, t, NO_TABLE.(columns := map[a := c]))
      && ExecAll(EMPTY, Script(m, 3)) == PutTable(EMPTY, t, NO_TABLE.(columns := map[b := c]))
      && ExecAll(EMPTY, Script(m, 4)) == PutTable(EMPTY, t, NO_TABLE.(columns := map[a := c]))
  {
    var m := SwingingChain(t, a, b, c);
    var s1, s2, s3 := Script(m, 1), Script(m, 2), Script(m, 3);
    ScriptStep(m, 0);
    ScriptStep(m, 1);
    ScriptStep(m, 2);
    ScriptStep(m, 3);
    assert s1 == [] + [CreateTable(t, [])];
    hide Script;
    FirstSwings(s1, t, a, c);
    SwingStep(s2, t, a, b, c);
    SwingStep(s3, t, b, a, c);
    hide *;
  }

  lemma FirstSwings(s1: seq<Stmt>, t: string, a: string, c: Column)
    requires s1 == [] + [CreateTable(t, [])]
    ensures ExecAll(EMPTY, s1) == PutTable(EMPTY, t, NO_TABLE)
    ensures ExecAll(EMPTY, s1 + [AddColumn(t, a, c)]) == PutTable(EMPTY, t, NO_TABLE.(columns := map[a := c]))
  {
    assert ExecAll(EMPTY, []) == EMPTY;
    ExecOne(EMPTY, [], CreateTable(t, []));
    ExecOne(EMPTY, s1, AddColumn(t, a, c));
    hide ExecAll;
  }

  lemma ScriptStep(migrations: seq<Migration>, k: nat)
    requires k < |migrations|
    ensures Script(migrations, k + 1) == Script(migrations, k) + migrations[k].stmts
  {
  }

  lemma SwingStep(stmts: seq<Stmt>, t: string, from: string, to: string, c: Column)
    requires ExecAll(EMPTY, stmts) == PutTable(EMPTY, t, NO_TABLE.(columns := map[from := c]))
    ensures ExecAll(EMPTY, stmts + [DropColumn(t, from), AddColumn(t, to, c)])
            == PutTable(EMPTY, t, NO_TABLE.(columns := map[to := c]))
  {
    var mid := stmts + [DropColumn(t, from)];
    ExecOne(EMPTY, stmts, DropColumn(t, from));
    ExecOne(EMPTY, mid, AddColumn(t, to, c));
    assert mid + [AddColumn(t, to, c)] == stmts + [DropColumn(t, from), AddColumn(t, to, c)];
    hide ExecAll;
    assert map[from := c] - {from} == map[];
    assert ExecAll(EMPTY, mid) == PutTable(EMPTY, t, NO_TABLE);
  }

  /** The names of a schema with one table. */
  lemma NamesOfOneTable(stmts: seq<Stmt>, t: string, columns: map<string, Column>, n: Name)
    requires ExecAll(EMPTY, stmts) == PutTable(EMPTY, t, NO_TABLE.(columns := columns)) && t != BOOKKEEPING
    ensures Has(Parse(stmts), n) <==> n == TableName(t) || (n.ColumnName? && n.t == t && n.c in columns)
  {
    hide ExecAll;
  }

  lemma NoNamesYet(migrations: seq<Migration>, n: Name)
    ensures !NameAt(migrations, 0, n)
  {
    assert Script(migrations, 0) == [] && ExecAll(EMPTY, []) == EMPTY;
    hide ExecAll, Script;
  }

  /** So revisions 2 and 4 hold the same names, and each migration adds one. */
  lemma SwingingNames(t: string, a: string, b: string, c: Column, n: Name)
    requires a != b && t != BOOKKEEPING
    ensures
      var m := SwingingChain(t, a, b, c);
      && !NameAt(m, 0, n)
      && (NameAt(m, 1, n) <==> n == TableName(t))
      && (NameAt(m, 2, n) <==> n == TableName(t) || n == ColumnName(t, a))
      && (NameAt(m, 3, n) <==> n == TableName(t) || n == ColumnName(t, b))
      && (NameAt(m, 4, n) <==> n == TableName(t) || n == ColumnName(t, a))
  {
    var m := SwingingChain(t, a, b, c);
    hide ExecAll, Script, Parse, Has, PutTable;
    SwingingStates(t, a, b, c);
    NoNamesYet(m, n);
    assert NO_TABLE == NO_TABLE.(columns := map[]);
    NamesOfOneTable(Script(m, 1), t, map[], n);
    NamesOfOneTable(Script(m, 2), t, map[a := c], n);
    NamesOfOneTable(Script(m, 3), t, map[b := c], n);
    NamesOfOneTable(Script(m, 4), t, map[a := c], n);
  }

  lemma EachSwingAdds(t: string, a: string, b: string, c: Column)
    requires a != b && t != BOOKKEEPING
    ensures forall j :: 0 <= j < 4 ==> AddsName(SwingingChain(t, a, b, c), j)
  {
    var m := SwingingChain(t, a, b, c);
    SwingingNames(t, a, b, c, TableName(t));
    SwingingNames(t, a, b, c, ColumnName(t, a));
    SwingingNames(t, a, b, c, ColumnName(t, b));
    hide NameAt;
    assert Adds(m, 0, TableName(t));
    assert Adds(m, 1, ColumnName(t, a));
    assert Adds(m, 2, ColumnName(t, b));
    assert Adds(m, 3, ColumnName(t, a));
    hide Adds;
  }

  /** Every migration adds a name, and still the second and the fourth revision are twins. */
  lemma AddingEachTimeIsNotEnough(t: string, a: string, b: string, c: Column)
    requires a != b && t != BOOKKEEPING
    ensures
      var m := SwingingChain(t, a, b, c);
      && (forall j :: 0 <= j < 4 ==> AddsName(m, j))
      && Twins(Chain(m)[1], Chain(m)[3])
  {
    var m := SwingingChain(t, a, b, c);
    SwingingParses(m);
    EachSwingAdds(t, a, b, c);
    hide Script, Parse, Has, Parseable, AddsName;
    forall n ensures Has(Parse(Script(m, 2)), n) <==> Has(Parse(Script(m, 4)), n) { SwingingNames(t, a, b, c, n); }
  }

  lemma SwingingParses(m: seq<Migration>)
    requires |m| == 4 && forall i, j :: 0 <= i < 4 && 0 <= j < |m[i].stmts| ==> !m[i].stmts[j].Unrecognized?
    ensures forall i :: 0 <= i < 4 ==> Parseable(Chain(m)[i])
  {
    forall k | 0 <= k <= 4 ensures Unparsed(Script(m, k)) == [] { AllRecognized(m, k); }
    hide Unparsed, Script;
  }

  lemma {:induction false} AllRecognized(m: seq<Migration>, k: nat)
    requires k <= |m| && forall i, j :: 0 <= i < |m| && 0 <= j < |m[i].stmts| ==> !m[i].stmts[j].Unrecognized?
    ensures Unparsed(Script(m, k)) == []
  {
    if k > 0 {
      AllRecognized(m, k - 1);
      ExecConcat(EMPTY, Script(m, k - 1), m[k - 1].stmts);
      Recognized(m[k - 1].stmts);
    }
  }

  lemma {:induction false} Recognized(stmts: seq<Stmt>)
    requires forall j :: 0 <= j < |stmts| ==> !stmts[j].Unrecognized?
    ensures Unparsed(stmts) == []
    decreases |stmts|
  {
    if stmts != [] { Recognized(stmts[..|stmts| - 1]); }
  }

  /** And a migration that only drops can be told from every later revision,
      as long as what it drops stays away. */
  lemma DroppingIsEnough(migrations: seq<Migration>, j: nat, n: Name)
    requires 0 < j < |migrations| && Drops(migrations, j, n) && NeverAdded(migrations, j + 1, n)
    ensures forall k :: j <= k < |migrations| ==> !Twins(Chain(migrations)[j - 1], Chain(migrations)[k])
  {
    assert ChangedForGood(migrations, j, n);
    assert Lasting(migrations, j);
    hide Drops, NeverAdded, ChangedForGood, Lasting, Twins;
    forall k | j <= k < |migrations| ensures !Twins(Chain(migrations)[j - 1], Chain(migrations)[k]) {
      LastingHasNoLaterTwin(migrations, j, k);
    }
  }
}
