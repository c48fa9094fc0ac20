/** BudgetEvaluationService: thresholds, dedup scopes and evaluate_and_alert. */
module BudgetAlerts {
  import opened Outcomes
  import opened Calendar
  import opened BudgetPeriod
  import opened Alerts
  import opened Text

  /** A configured percentage and how Python prints it. */
  datatype Threshold = Threshold(value: real, text: string)

  datatype BudgetRow = BudgetRow(
    id: string, org: nat, name: string, amount: real, thresholds: seq<Threshold>, schedule: Budget)

  // ---- Keys ------------------------------------------------------------------------------

  function BudgetThresholdScope(id: string, periodKey: string, text: string): string {
    "budget:" + id + ":" + periodKey + ":" + text
  }

  function AlertTypeFor(t: Threshold): string {
    if t.value >= 100.0 then "budget_exceeded" else "budget_threshold"
  }

  /** A different budget, period or threshold never shares a dedup key (neither a
      UUID nor a printed number contains a colon, and printing tells numbers apart). */
  lemma KeysAreDistinct(id: string, key: string, t: Threshold, id': string, key': string, t': Threshold)
    requires ':' !in id && ':' !in id' && ':' !in t.text && ':' !in t'.text
    requires t.text == t'.text <==> t.value == t'.value
    ensures BuildDedupKey(AlertTypeFor(t), BudgetThresholdScope(id, key, t.text))
            == BuildDedupKey(AlertTypeFor(t'), BudgetThresholdScope(id', key', t'.text))
            <==> id == id' && key == key' && t.value == t'.value
  {
    var scope, scope' := BudgetThresholdScope(id, key, t.text), BudgetThresholdScope(id', key', t'.text);
    if BuildDedupKey(AlertTypeFor(t), scope) == BuildDedupKey(AlertTypeFor(t'), scope') {
      var rest, rest' := id + ":" + key + ":" + t.text, id' + ":" + key' + ":" + t'.text;
      SplitFirst(AlertTypeFor(t), scope, AlertTypeFor(t'), scope', ':');
      assert scope == "budget" + ":" + rest && scope' == "budget" + ":" + rest';
      SplitFirst("budget", rest, "budget", rest', ':');
      SplitLast(id + ":" + key, t.text, id' + ":" + key', t'.text, ':');
      SplitFirst(id, key, id', key', ':');
    }
  }

  // ---- Evaluation ----------------------------------------------------------------------

  function PercentUsed(amount: real, spend: real): real {
    if amount > 0.0 then spend / amount * 100.0 else 0.0
  }

  function Insert(t: Threshold, s: seq<Threshold>): seq<Threshold> {
    if s == [] || t.value <= s[0].value then [t] + s else [s[0]] + Insert(t, s[1..])
  }

  /** sorted(t for t in thresholds if percent >= t) */
  function Crossed(thresholds: seq<Threshold>, percent: real): seq<Threshold> {
    if thresholds == [] then []
    else if percent >= thresholds[0].value then Insert(thresholds[0], Crossed(thresholds[1..], percent))
    else Crossed(thresholds[1..], percent)
  }

  ghost predicate Ascending(s: seq<Threshold>) {
    forall i, j :: 0 <= i < j < |s| ==> s[i].value <= s[j].value
  }

  lemma {:induction false} InsertMembers(t: Threshold, s: seq<Threshold>, x: Threshold)
    ensures x in Insert(t, s) <==> x == t || x in s
  {
    if s != [] && t.value > s[0].value { InsertMembers(t, s[1..], x); }
  }

  lemma {:induction false} InsertIsAscending(t: Threshold, s: seq<Threshold>)
    requires Ascending(s)
    ensures Ascending(Insert(t, s))
  {
    if s != [] && t.value > s[0].value {
      InsertIsAscending(t, s[1..]);
      var r := Insert(t, s[1..]);
      forall i | 0 <= i < |r| ensures s[0].value <= r[i].value {
        assert r[i] in r;
        InsertMembers(t, s[1..], r[i]);
      }
    }
  }

  /** The crossed thresholds, lowest first: exactly those not above the percentage. */
  lemma {:induction false} CrossedFacts(thresholds: seq<Threshold>, percent: real)
    ensures Ascending(Crossed(thresholds, percent))
    ensures forall t :: t in Crossed(thresholds, percent) <==> t in thresholds && percent >= t.value
  {
    if thresholds != [] {
      var rest := Crossed(thresholds[1..], percent);
      CrossedFacts(thresholds[1..], percent);
      InsertIsAscending(thresholds[0], rest);
      forall t ensures t in Crossed(thresholds, percent) <==> t in thresholds && percent >= t.value {
        InsertMembers(thresholds[0], rest, t);
      }
    }
  }

  function OccurrenceFor(b: BudgetRow, periodKey: string, t: Threshold): Occurrence {
    Occurrence(b.org, AlertTypeFor(t), BudgetThresholdScope(b.id, periodKey, t.text), b.name, t.text,
      map["budget_id" := b.id])
  }

  function OccurrencesFor(b: BudgetRow, periodKey: string, crossed: seq<Threshold>): seq<Occurrence> {
    if crossed == [] then [] else [OccurrenceFor(b, periodKey, crossed[0])] + OccurrencesFor(b, periodKey, crossed[1..])
  }

  /** What one evaluation pass would fire for a budget that can be resolved. */
  function Evaluation(b: BudgetRow, spend: real, today: Date): Result<seq<Occurrence>, Overflow>
    requires Valid(today) && ValidBudget(b.schedule)
  {
    match ResolvePeriodWindow(b.schedule, today)
    case Err(e) => Err(e)
    case Ok(w) =>
      Ok(OccurrencesFor(b, PeriodKey(b.schedule, w), Crossed(b.thresholds, PercentUsed(b.amount, spend))))
  }

  function Evaluations(budgets: seq<BudgetRow>, spend: BudgetRow -> real,
                       today: Date): Result<seq<Occurrence>, Overflow>
    requires Valid(today) && forall i :: 0 <= i < |budgets| ==> ValidBudget(budgets[i].schedule)
  {
    if budgets == [] then Ok([]) else
      var first, rest := Evaluation(budgets[0], spend(budgets[0]), today), Evaluations(budgets[1..], spend, today);
      if first.Err? then Err(OverflowError) else if rest.Err? then Err(OverflowError) else Ok(first.value + rest.value)
  }

  // ---- What an evaluation fires --------------------------------------------------------------

  /** The spend has reached the threshold: t percent of the amount, and for a budget
      of nothing a threshold of nothing. */
  predicate Reached(amount: real, spend: real, t: Threshold) {
    if amount > 0.0 then 100.0 * spend >= t.value * amount else t.value <= 0.0
  }

  lemma PercentReaches(amount: real, spend: real, t: Threshold)
    ensures PercentUsed(amount, spend) >= t.value <==> Reached(amount, spend, t)
  {
    if amount > 0.0 {
      var share := spend / amount;
      assert share * amount == spend;
      assert (share * 100.0 - t.value) * amount == 100.0 * spend - t.value * amount;
      SameSign(share * 100.0 - t.value, amount);
    }
  }

  lemma SameSign(x: real, amount: real)
    requires amount > 0.0
    ensures x * amount >= 0.0 <==> x >= 0.0
  {
    if x < 0.0 { assert x * amount < 0.0; }
  }

  lemma {:induction false} InsertCounts(t: Threshold, s: seq<Threshold>)
    ensures multiset(Insert(t, s)) == multiset(s) + multiset{t}
  {
    if s == [] || t.value <= s[0].value {
    } else {
      InsertCounts(t, s[1..]);
      assert s == [s[0]] + s[1..];
    }
  }

  lemma {:induction false} CrossedCounts(thresholds: seq<Threshold>, percent: real, t: Threshold)
    ensures multiset(Crossed(thresholds, percent))[t] == if percent >= t.value then multiset(thresholds)[t] else 0
  {
    if thresholds != [] {
      CrossedCounts(thresholds[1..], percent, t);
      InsertCounts(thresholds[0], Crossed(thresholds[1..], percent));
      assert thresholds == [thresholds[0]] + thresholds[1..];
    }
  }

  lemma {:induction false} OccurrencesOneByOne(b: BudgetRow, periodKey: string, crossed: seq<Threshold>, i: nat)
    ensures |OccurrencesFor(b, periodKey, crossed)| == |crossed|
    ensures i < |crossed| ==> OccurrencesFor(b, periodKey, crossed)[i] == OccurrenceFor(b, periodKey, crossed[i])
  {
    if crossed != [] { OccurrencesOneByOne(b, periodKey, crossed[1..], if i == 0 then 0 else i - 1); }
  }

  /** A budget that resolves fires one occurrence for each configured threshold that
      the spend has reached, lowest first, as exceeded from 100 percent on. */
  lemma EvaluationFires(b: BudgetRow, spend: real, today: Date) returns (ts: seq<Threshold>)
    requires Valid(today) && ValidBudget(b.schedule) && Evaluation(b, spend, today).Ok?
    ensures Ascending(ts)
    ensures forall t :: multiset(ts)[t] == if Reached(b.amount, spend, t) then multiset(b.thresholds)[t] else 0
    ensures ResolvePeriodWindow(b.schedule, today).Ok? && |Evaluation(b, spend, today).value| == |ts|
    ensures
      var os, w := Evaluation(b, spend, today).value, ResolvePeriodWindow(b.schedule, today).value;
      forall i :: 0 <= i < |ts| ==>
        os[i] == Occurrence(
          b.org, if ts[i].value >= 100.0 then "budget_exceeded" else "budget_threshold",
          "budget:" + b.id + ":" + PeriodKey(b.schedule, w) + ":" + ts[i].text, b.name, ts[i].text,
          map["budget_id" := b.id])
  {
    var percent := PercentUsed(b.amount, spend);
    ts := Crossed(b.thresholds, percent);
    CrossedFacts(b.thresholds, percent);
    forall t ensures multiset(ts)[t] == if Reached(b.amount, spend, t) then multiset(b.thresholds)[t] else 0 {
      CrossedCounts(b.thresholds, percent, t);
      PercentReaches(b.amount, spend, t);
    }
    var w := ResolvePeriodWindow(b.schedule, today).value;
    assert Evaluation(b, spend, today) == Ok(OccurrencesFor(b, PeriodKey(b.schedule, w), ts));
    hide Evaluation, Crossed, PercentUsed, Reached, ResolvePeriodWindow, Ascending, PeriodKey, OccurrencesFor;
    OccurrencesOneByOne(b, PeriodKey(b.schedule, w), ts, 0);
    forall i | 0 <= i < |ts|
      ensures OccurrencesFor(b, PeriodKey(b.schedule, w), ts)[i] == OccurrenceFor(b, PeriodKey(b.schedule, w), ts[i])
    {
      OccurrencesOneByOne(b, PeriodKey(b.schedule, w), ts, i);
    }
  }

  /** Several budgets fire one after the other; the first that cannot be resolved stops all. */
  lemma {:induction false} EvaluationsOneByOne(budgets: seq<BudgetRow>, spend: BudgetRow -> real, today: Date, n: nat)
    requires Valid(today) && forall i :: 0 <= i < |budgets| ==> ValidBudget(budgets[i].schedule)
    requires n < |budgets|
    ensures
      var before, after := Evaluations(budgets[..n], spend, today), Evaluations(budgets[n + 1..], spend, today);
      var one := Evaluation(budgets[n], spend(budgets[n]), today);
      Evaluations(budgets, spend, today)
      == if before.Ok? && one.Ok? && after.Ok? then Ok(before.value + one.value + after.value) else Err(OverflowError)
  {
    hide Evaluation;
    var one := Evaluation(budgets[n], spend(budgets[n]), today);
    if n == 0 {
      assert budgets[..0] == [] && budgets[0 + 1..] == budgets[1..];
      if one.Ok? { assert [] + one.value == one.value; }
    } else {
      var rest := budgets[1..];
      EvaluationsOneByOne(rest, spend, today, n - 1);
      assert rest[..n - 1] == budgets[..n][1..] && rest[n..] == budgets[n + 1..] && rest[n - 1] == budgets[n];
      assert budgets[..n][0] == budgets[0];
      var first, mid, after := Evaluation(budgets[0], spend(budgets[0]), today),
        Evaluations(rest[..n - 1], spend, today), Evaluations(rest[n..], spend, today);
      if first.Ok? && mid.Ok? && one.Ok? && after.Ok? {
        assert first.value + (mid.value + one.value + after.value) == first.value + mid.value + one.value + after.value;
      }
    }
  }

  function FireAll(rows: seq<Alert>, os: seq<Occurrence>, now: int): seq<Alert>
    decreases |os|
  {
    if os == [] then rows else Fired(FireAll(rows, os[..|os| - 1], now), os[|os| - 1], now)
  }

  /** How one call of fire ends: the occurrence is taken or suppressed, or the
      call raises and the error is logged. */
  datatype Fate = Taken | Suppressed | Failed

  /** The occurrences that are taken; `fate(i)` is how the call for `os[i]` ends. */
  function Delivered(os: seq<Occurrence>, fate: nat -> Fate): seq<Occurrence> {
    if os == [] then [] else
      var n := |os| - 1;
      Delivered(os[..n], fate) + if fate(n) == Taken then [os[n]] else []
  }

  /** Delivered are exactly the occurrences whose call is taken, in order. */
  lemma {:induction false} DeliveredInOrder(os: seq<Occurrence>, fate: nat -> Fate) returns (at: seq<nat>)
    ensures |at| == |Delivered(os, fate)|
    ensures forall i :: 0 <= i < |at| ==> at[i] < |os| && Delivered(os, fate)[i] == os[at[i]]
    ensures forall i, j :: 0 <= i < j < |at| ==> at[i] < at[j]
    ensures forall k :: 0 <= k < |os| ==> (k in at <==> fate(k).Taken?)
    decreases |os|
  {
    at := [];
    if os != [] {
      var last := |os| - 1;
      at := DeliveredInOrder(os[..last], fate);
      var before, all := Delivered(os[..last], fate), Delivered(os, fate);
      assert all == before + if fate(last).Taken? then [os[last]] else [];
      hide Delivered;
      assert forall k :: k in at ==> k < last;
      if fate(last).Taken? { at := at + [last]; }
    }
  }

  lemma FireAllNext(rows: seq<Alert>, os: seq<Occurrence>, o: Occurrence, now: int)
    ensures FireAll(rows, os + [o], now) == Fired(FireAll(rows, os, now), o, now)
  {
    assert (os + [o])[..|os|] == os;
  }

  lemma DeliveredNext(rows: seq<Alert>, os: seq<Occurrence>, fate: nat -> Fate, i: nat, now: int)
    requires i < |os|
    ensures FireAll(rows, Delivered(os[..i + 1], fate), now)
            == var before := FireAll(rows, Delivered(os[..i], fate), now);
               if fate(i) == Taken then Fired(before, os[i], now) else before
  {
    var before := Delivered(os[..i], fate);
    assert os[..i + 1][..i] == os[..i];
    assert before + [] == before;
    FireAllNext(rows, before, os[i], now);
  }

  /** Evaluates everything first, so an overflow fires nothing; then fires one
      occurrence per crossed threshold, and goes on when one of them fails. */
  method EvaluateAndAlert(service: AlertService, budgets: seq<BudgetRow>, spend: BudgetRow -> real, today: Date,
                          fate: nat -> Fate, now: int)
      returns (r: Result<seq<Occurrence>, Overflow>)
    requires Valid(today) && forall i :: 0 <= i < |budgets| ==> ValidBudget(budgets[i].schedule)
    modifies service
    ensures r == Evaluations(budgets, spend, today)
    ensures service.rows
            == if r.Ok? then FireAll(old(service.rows), Delivered(r.value, fate), now) else old(service.rows)
  {
    r := Evaluations(budgets, spend, today);
    if r.Err? { return; }
    for i := 0 to |r.value|
      invariant service.rows == FireAll(old(service.rows), Delivered(r.value[..i], fate), now)
    {
      DeliveredNext(old(service.rows), r.value, fate, i, now);
      if fate(i) != Failed {
        var _ := service.Fire(r.value[i], fate(i) == Suppressed, now);
      }
    }
    assert r.value[..|r.value|] == r.value;
  }
}
