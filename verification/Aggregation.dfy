/** Daily cost summaries: GROUP BY over cost records, upsert on the unique key,
    and the rebuild of a date range. */
module Aggregation {
  import opened Outcomes

  /** Money in units of 10^-8; cached values may be NULL. */
  datatype Totals = Totals(
    promptTokens: int, completionTokens: int, cachedTokens: Option<int>, totalTokens: int,
    cost: int, promptCost: int, completionCost: int, cachedCost: Option<int>, events: nat)

  datatype GroupKey = GroupKey(org: nat, project: Option<nat>, provider: string, model: string, currency: string,
                               date: int)

  /** A usage cost record: its dimensions and, as totals of one event, its measures. */
  datatype Record = Record(key: GroupKey, measures: Totals, deleted: bool)

  /** count(id) counts each record once. */
  function Counted(r: Record): Totals { r.measures.(events := 1) }

  const ZERO := Totals(0, 0, None, 0, 0, 0, 0, None, 0)

  /** SUM skips NULLs and is NULL over nothing else. */
  function AddOption(a: Option<int>, b: Option<int>): Option<int> {
    if a.None? then b else if b.None? then a else Some(a.value + b.value)
  }

  function Add(a: Totals, b: Totals): Totals {
    Totals(a.promptTokens + b.promptTokens, a.completionTokens + b.completionTokens,
           AddOption(a.cachedTokens, b.cachedTokens), a.totalTokens + b.totalTokens,
           a.cost + b.cost, a.promptCost + b.promptCost, a.completionCost + b.completionCost,
           AddOption(a.cachedCost, b.cachedCost), a.events + b.events)
  }

  lemma AddLaws(a: Totals, b: Totals, c: Totals)
    ensures Add(a, b) == Add(b, a) && Add(Add(a, b), c) == Add(a, Add(b, c)) && Add(a, ZERO) == a
  {
  }

  // ---- GROUP BY ------------------------------------------------------------------------

  predicate Selected(r: Record, org: nat, date: int) { !r.deleted && r.key.org == org && r.key.date == date }

  /** The groups of one day, in the order they first occur. */
  function Groups(records: seq<Record>, org: nat, date: int): seq<GroupKey> {
    if records == [] then [] else
      var before := Groups(records[..|records| - 1], org, date);
      var r := records[|records| - 1];
      if Selected(r, org, date) && r.key !in before then before + [r.key] else before
  }

  /** The aggregated columns of one group. */
  function TotalsOf(records: seq<Record>, key: GroupKey): Totals {
    if records == [] then ZERO else
      var before := TotalsOf(records[..|records| - 1], key);
      var r := records[|records| - 1];
      if !r.deleted && r.key == key then Add(before, Counted(r)) else before
  }

  /** The sum of one measure over the live records of a group. */
  function SumOver(records: seq<Record>, key: GroupKey, measure: Totals -> int): int {
    if records == [] then 0 else
      var r := records[|records| - 1];
      SumOver(records[..|records| - 1], key, measure) + if r.key == key && !r.deleted then measure(r.measures) else 0
  }

  function OrNothing(x: Option<int>): int { if x.Some? then x.value else 0 }

  /** Column by column: each sums its own measure over the live records of the
      group, the last counts them, and a cached one is NULL when all of its are. */
  lemma {:induction false} ColumnsAreSums(records: seq<Record>, key: GroupKey)
    ensures
      var t := TotalsOf(records, key);
      && t.promptTokens == SumOver(records, key, (m: Totals) => m.promptTokens)
      && t.completionTokens == SumOver(records, key, (m: Totals) => m.completionTokens)
      && t.totalTokens == SumOver(records, key, (m: Totals) => m.totalTokens)
      && t.cost == SumOver(records, key, (m: Totals) => m.cost)
      && t.promptCost == SumOver(records, key, (m: Totals) => m.promptCost)
      && t.completionCost == SumOver(records, key, (m: Totals) => m.completionCost)
      && t.events == |set i | 0 <= i < |records| && !records[i].deleted && records[i].key == key|
    decreases |records|
  {
    EventsAreCounted(records, key);
    if records != [] { ColumnsAreSums(records[..|records| - 1], key); }
  }

  lemma {:induction false} EventsAreCounted(records: seq<Record>, key: GroupKey)
    ensures TotalsOf(records, key).events
      == |set i | 0 <= i < |records| && !records[i].deleted && records[i].key == key|
    decreases |records|
  {
    var live := set i | 0 <= i < |records| && !records[i].deleted && records[i].key == key;
    if records != [] {
      var n := |records| - 1;
      var init := records[..n];
      EventsAreCounted(init, key);
      var before := set i | 0 <= i < |init| && !init[i].deleted && init[i].key == key;
      assert live == if !records[n].deleted && records[n].key == key then before + {n} else before;
    }
  }

  lemma {:induction false} CachedColumnsAreSums(records: seq<Record>, key: GroupKey)
    ensures
      var t := TotalsOf(records, key);
      && OrNothing(t.cachedTokens) == SumOver(records, key, (m: Totals) => OrNothing(m.cachedTokens))
      && OrNothing(t.cachedCost) == SumOver(records, key, (m: Totals) => OrNothing(m.cachedCost))
      && (t.cachedTokens.Some? <==> exists i ::
            0 <= i < |records| && !records[i].deleted && records[i].key == key
            && records[i].measures.cachedTokens.Some?)
      && (t.cachedCost.Some? <==> exists i ::
            0 <= i < |records| && !records[i].deleted && records[i].key == key && records[i].measures.cachedCost.Some?)
    decreases |records|
  {
    if records != [] {
      var init := records[..|records| - 1];
      CachedColumnsAreSums(init, key);
      forall i | 0 <= i < |init| ensures init[i] == records[i] {}
    }
  }

  // ---- The summary table -----------------------------------------------------------------

  datatype Row = Row(totals: Totals, deleted: bool)

  /** The rows under each key. The unique constraint allows one row per key, but
      NULL projects never conflict, so those keys may hold several. */
  type Table = map<GroupKey, seq<Row>>

  function Rows(t: Table, k: GroupKey): seq<Row> { if k in t then t[k] else [] }

  ghost predicate Unique(t: Table) { forall k :: k in t && k.project.Some? ==> |t[k]| <= 1 }

  function Live(rows: seq<Row>): seq<Row> {
    if rows == [] then [] else (if rows[0].deleted then [] else [rows[0]]) + Live(rows[1..])
  }

  datatype Failure = MultipleResultsFound

  /** INSERT .. ON CONFLICT DO UPDATE: a conflicting row keeps its deleted flag. */
  function Written(rows: seq<Row>, k: GroupKey, totals: Totals): seq<Row> {
    if k.project.Some? && rows != [] then [rows[0].(totals := totals)] + rows[1..] else rows + [Row(totals, false)]
  }

  /** upsert: the read-back insists on at most one live row. */
  function Upsert(t: Table, k: GroupKey, totals: Totals): Result<Table, Failure> {
    var rows := Written(Rows(t, k), k, totals);
    if |Live(rows)| > 1 then Err(MultipleResultsFound) else Ok(t[k := rows])
  }

  function UpsertAll(t: Table, keys: seq<GroupKey>, records: seq<Record>): Result<Table, Failure>
    decreases |keys|
  {
    if keys == [] then Ok(t) else
      match Upsert(t, keys[0], TotalsOf(records, keys[0]))
      case Err(e) => Err(e)
      case Ok(t') => UpsertAll(t', keys[1..], records)
  }

  /** The groups of all days from start to end. */
  function RangeGroups(records: seq<Record>, org: nat, start: int, end: int): seq<GroupKey>
    decreases end - start
  {
    if start > end then [] else Groups(records, org, start) + RangeGroups(records, org, start + 1, end)
  }

  class AggregationService {
    var table: Table

    constructor ()
      ensures table == map[]
    {
      table := map[];
    }

    /** build_daily_summaries on the open transaction. */
    method BuildDailySummaries(records: seq<Record>, org: nat, date: int) returns (r: Result<nat, Failure>)
      modifies this
      ensures r.Ok? <==> UpsertAll(old(table), Groups(records, org, date), records).Ok?
      ensures r.Ok? ==> table == UpsertAll(old(table), Groups(records, org, date), records).value
                        && r.value == |Groups(records, org, date)|
    {
      var keys := Groups(records, org, date);
      for i := 0 to |keys|
        invariant UpsertAll(table, keys[i..], records) == UpsertAll(old(table), keys, records)
      {
        var key := keys[i];
        assert keys[i..][0] == key && keys[i..][1..] == keys[i + 1..];
        var written := Written(Rows(table, key), key, TotalsOf(records, key));
        if |Live(written)| > 1 { return Err(MultipleResultsFound); }
        table := table[key := written];
      }
      return Ok(|keys|);
    }

    /** rebuild_range in one transaction: an error rolls everything back. */
    method RebuildRange(records: seq<Record>, org: nat, start: int, end: int) returns (r: Result<nat, Failure>)
      modifies this
      ensures r.Ok? <==> UpsertAll(old(table), RangeGroups(records, org, start, end), records).Ok?
      ensures r.Ok? ==> table == UpsertAll(old(table), RangeGroups(records, org, start, end), records).value
                        && r.value == |RangeGroups(records, org, start, end)|
      ensures r.Err? ==> table == old(table)
    {
      var saved := table;
      var total := 0;
      var current := start;
      while current <= end
        invariant start <= current
        invariant UpsertAll(table, RangeGroups(records, org, current, end), records)
                  == UpsertAll(old(table), RangeGroups(records, org, start, end), records)
        invariant total + |RangeGroups(records, org, current, end)| == |RangeGroups(records, org, start, end)|
        decreases end - current
      {
        UpsertConcat(table, Groups(records, org, current), RangeGroups(records, org, current + 1, end), records);
        var day := BuildDailySummaries(records, org, current);
        if day.Err? {
          table := saved;
          return Err(day.error);
        }
        total := total + day.value;
        current := current + 1;
      }
      return Ok(total);
    }
  }

  lemma {:induction false} UpsertConcat(t: Table, a: seq<GroupKey>, b: seq<GroupKey>, records: seq<Record>)
    ensures UpsertAll(t, a + b, records)
            == if UpsertAll(t, a, records).Err? then UpsertAll(t, a, records)
               else UpsertAll(UpsertAll(t, a, records).value, b, records)
    decreases |a|
  {
    if a == [] {
      assert a + b == b;
    } else {
      assert (a + b)[0] == a[0] && (a + b)[1..] == a[1..] + b;
      var first := Upsert(t, a[0], TotalsOf(records, a[0]));
      if first.Ok? { UpsertConcat(first.value, a[1..], b, records); }
    }
  }

  // ---- What the groups are -----------------------------------------------------------------

  ghost predicate NoDuplicates(keys: seq<GroupKey>) {
    forall i, j :: 0 <= i < j < |keys| ==> keys[i] != keys[j]
  }

  lemma {:induction false} GroupsFacts(records: seq<Record>, org: nat, date: int)
    ensures NoDuplicates(Groups(records, org, date))
    ensures forall k :: k in Groups(records, org, date)
                        <==> exists i :: 0 <= i < |records| && Selected(records[i], org, date) && records[i].key == k
    decreases |records|
  {
    if records != [] {
      var init, r := records[..|records| - 1], records[|records| - 1];
      GroupsFacts(init, org, date);
      forall k ensures k in Groups(records, org, date)
                       <==> exists i :: 0 <= i < |records| && Selected(records[i], org, date) && records[i].key == k {
        if k in Groups(init, org, date) {
          var i :| 0 <= i < |init| && Selected(init[i], org, date) && init[i].key == k;
          assert Selected(records[i], org, date) && records[i].key == k;
        }
        if i :| 0 <= i < |records| && Selected(records[i], org, date) && records[i].key == k && i < |init| {
          assert Selected(init[i], org, date) && init[i].key == k;
        }
      }
    }
  }

  predicate InRange(r: Record, org: nat, start: int, end: int) {
    !r.deleted && r.key.org == org && start <= r.key.date <= end
  }

  lemma {:induction false} RangeGroupsFacts(records: seq<Record>, org: nat, start: int, end: int)
    ensures NoDuplicates(RangeGroups(records, org, start, end))
    ensures forall k :: k in RangeGroups(records, org, start, end) <==>
      exists i :: 0 <= i < |records| && InRange(records[i], org, start, end) && records[i].key == k
    decreases end - start
  {
    if start <= end {
      GroupsFacts(records, org, start);
      RangeGroupsFacts(records, org, start + 1, end);
      var first, rest := Groups(records, org, start), RangeGroups(records, org, start + 1, end);
      forall i, j | 0 <= i < |first| && 0 <= j < |rest| ensures first[i] != rest[j] {
        assert first[i] in first && rest[j] in rest;
      }
      forall k
        ensures k in first + rest <==>
          exists i :: 0 <= i < |records| && InRange(records[i], org, start, end) && records[i].key == k
      {
        if k in first {
          var i :| 0 <= i < |records| && Selected(records[i], org, start) && records[i].key == k;
          assert InRange(records[i], org, start, end);
        }
        if k in rest {
          var i :| 0 <= i < |records| && InRange(records[i], org, start + 1, end) && records[i].key == k;
          assert InRange(records[i], org, start, end);
        }
        if i :| 0 <= i < |records| && InRange(records[i], org, start, end) && records[i].key == k {
          assert Selected(records[i], org, start) || InRange(records[i], org, start + 1, end);
        }
      }
    }
  }

  // ---- A rebuild is exact ---------------------------------------------------------------------

  lemma {:induction false} LiveAppend(rows: seq<Row>, r: Row)
    ensures Live(rows + [r]) == Live(rows) + if r.deleted then [] else [r]
  {
    if rows == [] {
      assert rows + [r] == [r] && [r][1..] == [];
    } else {
      assert (rows + [r])[0] == rows[0] && (rows + [r])[1..] == rows[1..] + [r];
      LiveAppend(rows[1..], r);
      var tail := if r.deleted then [] else [r];
      var head := if rows[0].deleted then [] else [rows[0]];
      assert head + (Live(rows[1..]) + tail) == (head + Live(rows[1..])) + tail;
    }
  }

  /** An upsert fails exactly when a NULL project already has a live summary. */
  lemma UpsertSucceeds(t: Table, k: GroupKey, totals: Totals)
    requires Unique(t) && |Live(Rows(t, k))| <= 1
    ensures Upsert(t, k, totals).Ok? <==> k.project.Some? || Live(Rows(t, k)) == []
    ensures Upsert(t, k, totals).Ok? ==> Unique(Upsert(t, k, totals).value)
  {
    LiveAppend(Rows(t, k), Row(totals, false));
  }

  /** No key has two live rows, as every successful upsert leaves it. */
  ghost predicate ReadBack(t: Table) { forall k :: |Live(Rows(t, k))| <= 1 }

  lemma UpsertEffect(t: Table, k0: GroupKey, totals: Totals)
    requires Unique(t) && ReadBack(t)
    ensures Upsert(t, k0, totals).Ok? <==> k0.project.Some? || Live(Rows(t, k0)) == []
    ensures Upsert(t, k0, totals).Ok? ==>
      var t' := Upsert(t, k0, totals).value;
      && Unique(t') && ReadBack(t') && Rows(t', k0) == Written(Rows(t, k0), k0, totals)
      && forall k :: k != k0 ==> Rows(t', k) == Rows(t, k)
  {
    UpsertSucceeds(t, k0, totals);
    var r := Upsert(t, k0, totals);
    if r.Ok? {
      LiveAppend(Rows(t, k0), Row(totals, false));
      forall k ensures |Live(Rows(r.value, k))| <= 1 { assert k != k0 ==> Rows(r.value, k) == Rows(t, k); }
    }
  }

  lemma {:induction false} UpsertAllEffect(t: Table, keys: seq<GroupKey>, records: seq<Record>)
    requires Unique(t) && ReadBack(t) && NoDuplicates(keys)
    ensures UpsertAll(t, keys, records).Ok? <==> forall k :: k in keys ==> k.project.Some? || Live(Rows(t, k)) == []
    ensures UpsertAll(t, keys, records).Ok? ==>
      var t' := UpsertAll(t, keys, records).value;
      && Unique(t') && ReadBack(t')
      && (forall k :: k in keys ==> Rows(t', k) == Written(Rows(t, k), k, TotalsOf(records, k)))
      && (forall k :: k !in keys ==> Rows(t', k) == Rows(t, k))
    decreases |keys|
  {
    if keys != [] {
      var k0 := keys[0];
      var first := Upsert(t, k0, TotalsOf(records, k0));
      UpsertEffect(t, k0, TotalsOf(records, k0));
      assert forall k :: k in keys <==> k == k0 || k in keys[1..];
      assert k0 !in keys[1..] && NoDuplicates(keys[1..]);
      hide Upsert, Written, Live, Rows, Unique, ReadBack, TotalsOf, NoDuplicates;
      if first.Ok? { UpsertAllEffect(first.value, keys[1..], records); }
    }
  }

  /** rebuild_range succeeds exactly when no NULL-project group of the range
      already has a live summary. */
  lemma RebuildSucceeds(t: Table, records: seq<Record>, org: nat, start: int, end: int)
    requires Unique(t) && ReadBack(t)
    ensures UpsertAll(t, RangeGroups(records, org, start, end), records).Ok?
            <==> forall i :: 0 <= i < |records| && InRange(records[i], org, start, end) ==>
                   records[i].key.project.Some? || Live(Rows(t, records[i].key)) == []
  {
    var keys := RangeGroups(records, org, start, end);
    RangeGroupsFacts(records, org, start, end);
    UpsertAllEffect(t, keys, records);
    if UpsertAll(t, keys, records).Ok? {
      forall i | 0 <= i < |records| && InRange(records[i], org, start, end)
        ensures records[i].key.project.Some? || Live(Rows(t, records[i].key)) == []
      {
        assert records[i].key in keys;
      }
    }
  }

  /** After a rebuild every group with live records has one live summary with
      exactly its totals, unless that summary had been soft-deleted, and the
      summaries of all other keys are untouched. */
  lemma RebuildIsExact(t: Table, records: seq<Record>, org: nat, start: int, end: int, k: GroupKey)
    requires Unique(t) && ReadBack(t)
    requires UpsertAll(t, RangeGroups(records, org, start, end), records).Ok?
    ensures
      var t' := UpsertAll(t, RangeGroups(records, org, start, end), records).value;
      if exists i :: 0 <= i < |records| && InRange(records[i], org, start, end) && records[i].key == k
      then Live(Rows(t', k)) == if k.project.Some? && Rows(t, k) != [] && Rows(t, k)[0].deleted then []
                                else [Row(TotalsOf(records, k), false)]
      else Rows(t', k) == Rows(t, k)
  {
    var keys := RangeGroups(records, org, start, end);
    RangeGroupsFacts(records, org, start, end);
    UpsertAllEffect(t, keys, records);
    hide UpsertAll, RangeGroups, TotalsOf, ReadBack;
    if k in keys {
      LiveAppend(Rows(t, k), Row(TotalsOf(records, k), false));
      if k.project.Some? && Rows(t, k) != [] { assert Rows(t, k)[1..] == []; }
    }
  }

  /** Rebuilding once more changes no value when every record names a project. */
  lemma SecondRebuildIsIdempotent(t: Table, records: seq<Record>, org: nat, start: int, end: int, k: GroupKey)
    requires Unique(t) && ReadBack(t)
    requires UpsertAll(t, RangeGroups(records, org, start, end), records).Ok?
    requires forall i :: 0 <= i < |records| && InRange(records[i], org, start, end) ==> records[i].key.project.Some?
    ensures
      var keys := RangeGroups(records, org, start, end);
      var t' := UpsertAll(t, keys, records).value;
      UpsertAll(t', keys, records).Ok? && Rows(UpsertAll(t', keys, records).value, k) == Rows(t', k)
  {
    var keys := RangeGroups(records, org, start, end);
    RangeGroupsFacts(records, org, start, end);
    UpsertAllEffect(t, keys, records);
    var t' := UpsertAll(t, keys, records).value;
    UpsertAllEffect(t', keys, records);
    hide Unique, ReadBack, UpsertAll, RangeGroups, Live, TotalsOf;
    if k in keys { assert k.project.Some?; }
  }

  /** With a live record that names no project the second rebuild inserts a
      duplicate summary and fails. */
  lemma SecondRebuildFails(t: Table, records: seq<Record>, org: nat, start: int, end: int, i: nat)
    requires Unique(t) && ReadBack(t)
    requires UpsertAll(t, RangeGroups(records, org, start, end), records).Ok?
    requires i < |records| && InRange(records[i], org, start, end) && records[i].key.project.None?
    ensures
      var keys := RangeGroups(records, org, start, end);
      UpsertAll(UpsertAll(t, keys, records).value, keys, records).Err?
  {
    var keys, k := RangeGroups(records, org, start, end), records[i].key;
    RangeGroupsFacts(records, org, start, end);
    assert k in keys;
    UpsertAllEffect(t, keys, records);
    var t' := UpsertAll(t, keys, records).value;
    UpsertAllEffect(t', keys, records);
    LiveAppend(Rows(t, k), Row(TotalsOf(records, k), false));
  }

  // ---- Conservation ----------------------------------------------------------------------------

  /** The sum of the rebuilt summaries of one currency. */
  function SumOfSummaries(keys: seq<GroupKey>, records: seq<Record>, currency: string): Totals {
    if keys == [] then ZERO else
      var before := SumOfSummaries(keys[..|keys| - 1], records, currency);
      var k := keys[|keys| - 1];
      if k.currency == currency then Add(before, TotalsOf(records, k)) else before
  }

  /** The sum of the live records of one currency, with no grouping. */
  function SumOfRecords(records: seq<Record>, org: nat, start: int, end: int, currency: string): Totals {
    if records == [] then ZERO else
      var before := SumOfRecords(records[..|records| - 1], org, start, end, currency);
      var r := records[|records| - 1];
      if InRange(r, org, start, end) && r.key.currency == currency then Add(before, Counted(r)) else before
  }

  /** The contribution of one record to the sum over the groups. */
  lemma {:induction false} OneMoreRecord(keys: seq<GroupKey>, records: seq<Record>, r: Record, currency: string)
    requires NoDuplicates(keys)
    ensures SumOfSummaries(keys, records + [r], currency)
            == if !r.deleted && r.key in keys && r.key.currency == currency
               then Add(SumOfSummaries(keys, records, currency), Counted(r))
               else SumOfSummaries(keys, records, currency)
    decreases |keys|
  {
    if keys != [] {
      var init, k := keys[..|keys| - 1], keys[|keys| - 1];
      OneMoreRecord(init, records, r, currency);
      assert (records + [r])[..|records|] == records;
      assert k !in init;
      assert r.key in keys <==> r.key in init || r.key == k;
      var s, tk := SumOfSummaries(init, records, currency), TotalsOf(records, k);
      AddLaws(s, tk, Counted(r));
      AddLaws(s, Counted(r), tk);
      AddLaws(Counted(r), tk, ZERO);
    }
  }

  lemma {:induction false} EmptyGroup(records: seq<Record>, k: GroupKey)
    requires forall i :: 0 <= i < |records| ==> records[i].deleted || records[i].key != k
    ensures TotalsOf(records, k) == ZERO
    decreases |records|
  {
    if records != [] { EmptyGroup(records[..|records| - 1], k); }
  }

  /** Summing over any duplicate-free list of keys that covers the records counts
      every live record exactly once. */
  lemma {:induction false} GroupingConserves(keys: seq<GroupKey>, records: seq<Record>, org: nat, start: int,
                                             end: int, currency: string)
    requires NoDuplicates(keys)
    requires forall i ::
      0 <= i < |records| && !records[i].deleted ==> (records[i].key in keys <==> InRange(records[i], org, start, end))
    ensures SumOfSummaries(keys, records, currency) == SumOfRecords(records, org, start, end, currency)
    decreases |records|
  {
    if records == [] {
      SumOfNothing(keys, currency);
    } else {
      var init, r := records[..|records| - 1], records[|records| - 1];
      assert records == init + [r];
      GroupingConserves(keys, init, org, start, end, currency);
      OneMoreRecord(keys, init, r, currency);
    }
  }

  lemma {:induction false} SumOfNothing(keys: seq<GroupKey>, currency: string)
    ensures SumOfSummaries(keys, [], currency) == ZERO
  {
    if keys != [] {
      hide TotalsOf;
      EmptyGroup([], keys[|keys| - 1]);
      SumOfNothing(keys[..|keys| - 1], currency);
      AddLaws(ZERO, ZERO, ZERO);
      hide Add;
    }
  }

  /** The rebuilt summaries of a currency add up, in every column, to the live
      records of that currency in the range. */
  lemma RebuildConserves(records: seq<Record>, org: nat, start: int, end: int, currency: string)
    ensures SumOfSummaries(RangeGroups(records, org, start, end), records, currency)
            == SumOfRecords(records, org, start, end, currency)
  {
    var keys := RangeGroups(records, org, start, end);
    RangeGroupsFacts(records, org, start, end);
    forall i | 0 <= i < |records| && !records[i].deleted
      ensures records[i].key in keys <==> InRange(records[i], org, start, end)
    {
      if records[i].key in keys {
        var j :| 0 <= j < |records| && InRange(records[j], org, start, end) && records[j].key == records[i].key;
      }
    }
    GroupingConserves(keys, records, org, start, end, currency);
  }
}
