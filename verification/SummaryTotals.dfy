/** Does the summary table add up to the records after a rebuild? */
module SummaryTotals {
  import opened Outcomes
  import opened Aggregation

  // ---- Sums over tables -----------------------------------------------------------------------

  type Portions = map<GroupKey, Totals>

  ghost function Pick(m: Portions): (k: GroupKey)
    requires m != map[]
    ensures k in m
  {
    var k :| k in m; k
  }

  /** The sum of all values, in whatever order. */
  ghost function SumOf(m: Portions): Totals
    decreases |m.Keys|
  {
    if m == map[] then ZERO else
      var k := Pick(m);
      assert (m - {k}).Keys == m.Keys - {k};
      Add(m[k], SumOf(m - {k}))
  }

  lemma {:induction false} SumWithout(m: Portions, k: GroupKey)
    requires k in m
    ensures SumOf(m) == Add(m[k], SumOf(m - {k}))
    decreases |m.Keys|
  {
    var first := Pick(m);
    if k != first {
      var rest := m - {first} - {k};
      assert (m - {first}).Keys == m.Keys - {first} && (m - {k}).Keys == m.Keys - {k};
      assert m - {k} - {first} == rest;
      SumWithout(m - {first}, k);
      SumWithout(m - {k}, first);
      Exchange(m[first], m[k], SumOf(rest));
    }
  }

  lemma Exchange(a: Totals, b: Totals, c: Totals)
    ensures Add(a, Add(b, c)) == Add(b, Add(a, c))
  {
  }

  lemma {:induction false} SumUnion(a: Portions, b: Portions)
    requires a.Keys !! b.Keys
    ensures SumOf(a + b) == Add(SumOf(a), SumOf(b))
    decreases |a.Keys|
  {
    if a == map[] {
      assert a + b == b;
      AddLaws(SumOf(b), ZERO, ZERO);
    } else {
      var k := Pick(a);
      assert (a - {k}).Keys == a.Keys - {k};
      assert (a + b) - {k} == (a - {k}) + b;
      SumUnion(a - {k}, b);
      SumWithout(a + b, k);
      AddLaws(a[k], SumOf(a - {k}), SumOf(b));
    }
  }

  // ---- What a range holds -----------------------------------------------------------------------

  /** The dimensions a report asks for: an organization, its days and a currency. */
  datatype Scope = Scope(org: nat, start: int, end: int, currency: string)

  predicate Within(k: GroupKey, s: Scope) { k.org == s.org && s.start <= k.date <= s.end && k.currency == s.currency }

  /** The live summaries of the table in the scope, whether or not a record backs them. */
  function LiveIn(t: Table, s: Scope): Portions {
    map k | k in t && Within(k, s) && Live(t[k]) != [] :: Live(t[k])[0].totals
  }

  function Grouped(keys: seq<GroupKey>, records: seq<Record>, currency: string): Portions {
    map k | k in keys && k.currency == currency :: TotalsOf(records, k)
  }

  /** What the live records in the scope come to, group by group. */
  function Recorded(records: seq<Record>, s: Scope): Portions {
    Grouped(RangeGroups(records, s.org, s.start, s.end), records, s.currency)
  }

  /** The upsert keeps the deleted flag of the row it conflicts with. */
  predicate KeptDeleted(t: Table, k: GroupKey) { k.project.Some? && Rows(t, k) != [] && Rows(t, k)[0].deleted }

  /** Groups with records whose summary stays soft-deleted. */
  function Missing(t: Table, records: seq<Record>, s: Scope): Portions {
    map k | k in Recorded(records, s) && KeptDeleted(t, k) :: TotalsOf(records, k)
  }

  /** Live summaries whose group has no live record any more; no rebuild touches them. */
  function Stale(t: Table, records: seq<Record>, s: Scope): Portions {
    map k | k in LiveIn(t, s) && k !in Recorded(records, s) :: LiveIn(t, s)[k]
  }

  function Rebuilt(t: Table, records: seq<Record>, s: Scope): Result<Table, Failure> {
    UpsertAll(t, RangeGroups(records, s.org, s.start, s.end), records)
  }

  // ---- Conservation -------------------------------------------------------------------------------

  lemma RecordedAt(records: seq<Record>, s: Scope, k: GroupKey)
    ensures k in Recorded(records, s) ==> Within(k, s) && Recorded(records, s)[k] == TotalsOf(records, k)
    ensures Within(k, s) ==>
      (k in Recorded(records, s)
       <==> exists i :: 0 <= i < |records| && InRange(records[i], s.org, s.start, s.end) && records[i].key == k)
  {
    RangeGroupsFacts(records, s.org, s.start, s.end);
    hide RangeGroups, TotalsOf;
  }

  lemma LiveAt(t: Table, s: Scope, k: GroupKey)
    ensures k in LiveIn(t, s) <==> Within(k, s) && Live(Rows(t, k)) != []
    ensures k in LiveIn(t, s) ==> LiveIn(t, s)[k] == Live(Rows(t, k))[0].totals
  {
  }

  /** The live summaries after a rebuild: the recorded groups, without those whose
      summary stays deleted, and the stale ones as they were. */
  lemma LiveAfterRebuild(t: Table, records: seq<Record>, s: Scope)
    requires Unique(t) && ReadBack(t) && Rebuilt(t, records, s).Ok?
    ensures LiveIn(Rebuilt(t, records, s).value, s)
            == (Recorded(records, s) - Missing(t, records, s).Keys) + Stale(t, records, s)
  {
    var t' := Rebuilt(t, records, s).value;
    var parts := (Recorded(records, s) - Missing(t, records, s).Keys) + Stale(t, records, s);
    forall k
      ensures k in LiveIn(t', s) <==> k in parts
      ensures k in parts ==> LiveIn(t', s)[k] == parts[k]
    {
      if Within(k, s) { PortionAfterRebuild(t, records, s, k); }
      RecordedAt(records, s, k);
      LiveAt(t, s, k);
      LiveAt(t', s, k);
      hide LiveIn, Recorded, Rebuilt, KeptDeleted, TotalsOf, Live, Unique, ReadBack, Within;
    }
    hide *;
  }

  lemma PortionAfterRebuild(t: Table, records: seq<Record>, s: Scope, k: GroupKey)
    requires Unique(t) && ReadBack(t) && Rebuilt(t, records, s).Ok? && Within(k, s)
    ensures Live(Rows(Rebuilt(t, records, s).value, k)) ==
      if k !in Recorded(records, s) then Live(Rows(t, k))
      else if KeptDeleted(t, k) then [] else [Row(TotalsOf(records, k), false)]
  {
    RebuildIsExact(t, records, s.org, s.start, s.end, k);
    RecordedAt(records, s, k);
    hide UpsertAll, RangeGroups, TotalsOf, Live, Unique, ReadBack, Recorded;
  }

  lemma GroupedSnoc(keys: seq<GroupKey>, last: GroupKey, records: seq<Record>, currency: string)
    requires last !in keys
    ensures
      var before, all := Grouped(keys, records, currency), Grouped(keys + [last], records, currency);
      if last.currency == currency
      then last in all && all[last] == TotalsOf(records, last) && all - {last} == before
      else all == before
  {
    hide TotalsOf;
    assert forall k :: k in keys + [last] <==> k in keys || k == last;
  }

  lemma {:induction false} GroupedAddsUp(keys: seq<GroupKey>, records: seq<Record>, currency: string)
    requires NoDuplicates(keys)
    ensures SumOf(Grouped(keys, records, currency)) == SumOfSummaries(keys, records, currency)
    decreases |keys|
  {
    if keys == [] {
      assert Grouped(keys, records, currency) == map[];
    } else {
      var init, last := keys[..|keys| - 1], keys[|keys| - 1];
      assert init + [last] == keys && last !in init;
      GroupedAddsUp(init, records, currency);
      GroupedSnoc(init, last, records, currency);
      hide Grouped, TotalsOf, SumOf;
      if last.currency == currency {
        SumWithout(Grouped(keys, records, currency), last);
        AddLaws(TotalsOf(records, last), SumOf(Grouped(init, records, currency)), ZERO);
      }
    }
  }

  lemma RecordedAddsUp(records: seq<Record>, s: Scope)
    ensures SumOf(Recorded(records, s)) == SumOfRecords(records, s.org, s.start, s.end, s.currency)
  {
    RangeGroupsFacts(records, s.org, s.start, s.end);
    RebuildConserves(records, s.org, s.start, s.end, s.currency);
    GroupedAddsUp(RangeGroups(records, s.org, s.start, s.end), records, s.currency);
    hide RangeGroups, TotalsOf, SumOf, SumOfSummaries, SumOfRecords, Grouped;
  }

  /** For every table: the live summaries of a rebuilt scope, plus what soft-deleted
      summaries hide, are the live records plus the stale summaries. */
  lemma RebuiltTableTotal(t: Table, records: seq<Record>, s: Scope)
    requires Unique(t) && ReadBack(t) && Rebuilt(t, records, s).Ok?
    ensures Add(SumOf(LiveIn(Rebuilt(t, records, s).value, s)), SumOf(Missing(t, records, s)))
            == Add(SumOfRecords(records, s.org, s.start, s.end, s.currency), SumOf(Stale(t, records, s)))
  {
    var all, missing, stale := Recorded(records, s), Missing(t, records, s), Stale(t, records, s);
    PartOf(t, records, s);
    hide *;
    LiveAfterRebuild(t, records, s);
    RecordedAddsUp(records, s);
    SumOfParts(all, missing, stale);
  }

  lemma SumOfParts(all: Portions, missing: Portions, stale: Portions)
    requires missing.Keys <= all.Keys && (forall k :: k in missing ==> missing[k] == all[k])
    requires all.Keys !! stale.Keys
    ensures Add(SumOf((all - missing.Keys) + stale), SumOf(missing)) == Add(SumOf(all), SumOf(stale))
  {
    hide *;
    var kept := all - missing.Keys;
    Complement(all, missing, stale);
    SumUnion(kept, missing);
    SumUnion(kept, stale);
    Rearrange(SumOf(kept), SumOf(stale), SumOf(missing));
  }

  lemma Complement(all: Portions, part: Portions, other: Portions)
    requires part.Keys <= all.Keys && (forall k :: k in part ==> part[k] == all[k])
    requires all.Keys !! other.Keys
    ensures (all - part.Keys) + part == all
    ensures (all - part.Keys).Keys !! part.Keys && (all - part.Keys).Keys !! other.Keys
  {
    var kept := all - part.Keys;
    assert (kept + part).Keys == all.Keys;
    forall k | k in all ensures (kept + part)[k] == all[k] {}
  }

  lemma PartOf(t: Table, records: seq<Record>, s: Scope)
    ensures Missing(t, records, s).Keys <= Recorded(records, s).Keys
    ensures Recorded(records, s).Keys !! Stale(t, records, s).Keys
    ensures forall k :: k in Missing(t, records, s) ==> Missing(t, records, s)[k] == Recorded(records, s)[k]
  {
    forall k | k in Missing(t, records, s) ensures Missing(t, records, s)[k] == Recorded(records, s)[k] {
      RecordedAt(records, s, k);
      hide Recorded, TotalsOf;
    }
  }

  lemma Rearrange(a: Totals, b: Totals, c: Totals)
    ensures Add(Add(a, b), c) == Add(Add(a, c), b)
  {
  }

  /** The columns as amounts, an absent one counting as 0. */
  function Amounts(t: Totals): Totals {
    t.(cachedTokens := Some(if t.cachedTokens.None? then 0 else t.cachedTokens.value),
       cachedCost := Some(if t.cachedCost.None? then 0 else t.cachedCost.value))
  }

  lemma Cancel(x: Totals, m: Totals, r: Totals, z: Totals)
    requires Add(x, m) == Add(r, z)
    ensures Amounts(x) == Amounts(r) <==> Amounts(m) == Amounts(z)
  {
  }

  /** So the rebuilt scope adds up to its records exactly when what soft-deleted
      summaries hide equals what stale ones add. */
  lemma ConservesIffCancelling(t: Table, records: seq<Record>, s: Scope)
    requires Unique(t) && ReadBack(t) && Rebuilt(t, records, s).Ok?
    ensures Amounts(SumOf(LiveIn(Rebuilt(t, records, s).value, s)))
              == Amounts(SumOfRecords(records, s.org, s.start, s.end, s.currency))
            <==> Amounts(SumOf(Missing(t, records, s))) == Amounts(SumOf(Stale(t, records, s)))
  {
    RebuiltTableTotal(t, records, s);
    hide LiveIn, Rebuilt, SumOf, SumOfRecords, Missing, Stale, Amounts, Add;
    Cancel(SumOf(LiveIn(Rebuilt(t, records, s).value, s)), SumOf(Missing(t, records, s)),
      SumOfRecords(records, s.org, s.start, s.end, s.currency), SumOf(Stale(t, records, s)));
  }

  /** What a caller can check before the rebuild: every live summary of the scope
      has a live record, and no group with records has a soft-deleted summary. */
  lemma RebuiltTableConserves(t: Table, records: seq<Record>, s: Scope)
    requires Unique(t) && ReadBack(t) && Rebuilt(t, records, s).Ok?
    requires LiveIn(t, s).Keys <= Recorded(records, s).Keys
    requires forall k :: k in Recorded(records, s) ==> !KeptDeleted(t, k)
    ensures SumOf(LiveIn(Rebuilt(t, records, s).value, s)) == SumOfRecords(records, s.org, s.start, s.end, s.currency)
  {
    RebuiltTableTotal(t, records, s);
    assert Stale(t, records, s) == map[] && Missing(t, records, s) == map[];
    assert SumOf(map[]) == ZERO;
    hide LiveIn, Rebuilt, SumOf, SumOfRecords, Recorded;
    AddLaws(SumOf(LiveIn(Rebuilt(t, records, s).value, s)), ZERO, ZERO);
    AddLaws(SumOfRecords(records, s.org, s.start, s.end, s.currency), ZERO, ZERO);
  }

  // ---- A recalculated record ------------------------------------------------------------------------

  lemma SumOfOne(k: GroupKey, t: Totals)
    ensures SumOf(map[k := t]) == t
  {
    SumWithout(map[k := t], k);
    assert map[k := t] - {k} == map[];
    AddLaws(t, ZERO, ZERO);
  }

  lemma OneRecorded(r: Record, s: Scope)
    ensures Recorded([r], s) == if !r.deleted && Within(r.key, s) then map[r.key := Counted(r)] else map[]
  {
    forall k ensures k in Recorded([r], s) <==> !r.deleted && Within(r.key, s) && k == r.key {
      RecordedAt([r], s, k);
      hide Recorded;
      if Within(k, s) && !r.deleted && k == r.key { assert InRange([r][0], s.org, s.start, s.end); }
    }
    if !r.deleted && Within(r.key, s) {
      RecordedAt([r], s, r.key);
      hide Recorded;
      TotalsOfOne(r);
    }
  }

  lemma TotalsOfOne(r: Record)
    requires !r.deleted
    ensures TotalsOf([r], r.key) == Counted(r)
  {
    var none: seq<Record> := [];
    assert [r][..0] == none && TotalsOf(none, r.key) == ZERO;
  }

  /** The table that holds the summary of one record. */
  lemma FirstRebuild(r: Record, s: Scope)
    requires !r.deleted && Within(r.key, s)
    ensures
      var first := Rebuilt(map[], [r], s);
      && first.Ok? && Unique(first.value) && ReadBack(first.value)
      && LiveIn(first.value, s) == map[r.key := Counted(r)]
      && forall k :: k != r.key ==> Rows(first.value, k) == []
  {
    var none: Table := map[];
    var keys := RangeGroups([r], s.org, s.start, s.end);
    EmptyTable([r], s);
    hide RangeGroups, UpsertAll, Live, LiveIn, Recorded, Missing, Stale, TotalsOf, ReadBack, Unique, NoDuplicates;
    RangeGroupsFacts([r], s.org, s.start, s.end);
    UpsertAllEffect(none, keys, [r]);
    OneRecorded(r, s);
    LiveAfterRebuild(none, [r], s);
    assert forall k :: k in keys ==> k == r.key;
  }

  lemma EmptyTable(records: seq<Record>, s: Scope)
    ensures Unique(map[]) && ReadBack(map[]) && forall k :: Live(Rows(map[], k)) == []
    ensures Missing(map[], records, s) == map[] && Stale(map[], records, s) == map[]
  {
    assert Live([]) == [];
  }

  /** Recalculation may move a record to another day or currency. The summary of
      the group it left survives the next rebuild: the scope it left still shows
      its cost although no record is there. */
  lemma MovedRecordIsStillCounted(r: Record, to: GroupKey, s: Scope)
    requires !r.deleted && Within(r.key, s) && !Within(to, s)
    ensures
      var first, moved := Rebuilt(map[], [r], s), r.(key := to);
      && first.Ok? && Rebuilt(first.value, [moved], s).Ok?
      && SumOf(LiveIn(Rebuilt(first.value, [moved], s).value, s)) == Counted(r)
      && SumOfRecords([moved], s.org, s.start, s.end, s.currency) == ZERO
  {
    var moved := r.(key := to);
    FirstRebuild(r, s);
    var t := Rebuilt(map[], [r], s).value;
    assert Rows(t, to) == [] && Live([]) == [];
    RebuildSucceeds(t, [moved], s.org, s.start, s.end);
    OneRecorded(moved, s);
    LiveAfterRebuild(t, [moved], s);
    RecordedAddsUp([moved], s);
    SumOfOne(r.key, Counted(r));
    assert SumOf(map[]) == ZERO;
    hide LiveIn, Live, Recorded, SumOf, SumOfRecords, UpsertAll, RangeGroups, Unique, ReadBack;
    assert Stale(t, [moved], s) == LiveIn(t, s);
    assert Missing(t, [moved], s) == map[];
  }
}
