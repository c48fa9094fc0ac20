/** Evaluating budgets again: exactly which alerts one more pass creates. */
module Reevaluation {
  import opened Outcomes
  import opened Calendar
  import opened BudgetPeriod
  import opened Alerts
  import opened BudgetAlerts

  type AlertKey = (nat, Digest)

  function KeyOf(o: Occurrence): AlertKey { (o.org, Key(o)) }

  function Keys(os: seq<Occurrence>): set<AlertKey> { set o | o in os :: KeyOf(o) }

  ghost predicate HasOpen(rows: seq<Alert>, k: AlertKey) {
    exists i :: 0 <= i < |rows| && IsOpen(rows[i], k.0, k.1)
  }

  ghost function WithoutOpen(rows: seq<Alert>, keys: set<AlertKey>): set<AlertKey> {
    set k | k in keys && !HasOpen(rows, k)
  }

  /** The keys of `os` that have no open alert. */
  ghost function NewKeys(rows: seq<Alert>, os: seq<Occurrence>): set<AlertKey> { WithoutOpen(rows, Keys(os)) }

  // ---- One pass over any alerts ------------------------------------------------------------

  lemma FireOpens(rows: seq<Alert>, o: Occurrence, now: int, k: AlertKey)
    ensures HasOpen(Fired(rows, o, now), k) <==> HasOpen(rows, k) || k == KeyOf(o)
  {
    var after := Fired(rows, o, now);
    var at := FindOpen(rows, o.org, Key(o));
    if k == KeyOf(o) { assert IsOpen(after[at], k.0, k.1); }
    forall i | 0 <= i < |rows| ensures IsOpen(after[i], k.0, k.1) == IsOpen(rows[i], k.0, k.1) {}
    if HasOpen(rows, k) {
      var i :| 0 <= i < |rows| && IsOpen(rows[i], k.0, k.1);
      assert IsOpen(after[i], k.0, k.1);
    }
  }

  /** After a pass exactly the old open keys and the fired ones have an open alert. */
  lemma {:induction false} OpenAfter(rows: seq<Alert>, os: seq<Occurrence>, now: int, k: AlertKey)
    ensures HasOpen(FireAll(rows, os, now), k) <==> HasOpen(rows, k) || k in Keys(os)
    decreases |os|
  {
    if os != [] {
      var init, o := os[..|os| - 1], os[|os| - 1];
      assert os == init + [o];
      OpenAfter(rows, init, now, k);
      FireOpens(FireAll(rows, init, now), o, now, k);
      assert Keys(os) == Keys(init) + {KeyOf(o)};
    }
  }

  lemma NewKeysAppend(rows: seq<Alert>, os: seq<Occurrence>, o: Occurrence)
    ensures NewKeys(rows, os + [o]) == NewKeys(rows, os) + if HasOpen(rows, KeyOf(o)) then {} else {KeyOf(o)}
  {
    hide HasOpen, KeyOf;
    assert Keys(os + [o]) == Keys(os) + {KeyOf(o)};
  }

  /** A pass creates exactly one alert per distinct key that had none open. */
  lemma {:induction false} NewAlerts(rows: seq<Alert>, os: seq<Occurrence>, now: int)
    ensures |FireAll(rows, os, now)| == |rows| + |NewKeys(rows, os)|
    decreases |os|
  {
    if os == [] {
      assert NewKeys(rows, os) == {};
    } else {
      var init, o := os[..|os| - 1], os[|os| - 1];
      assert os == init + [o];
      NewAlerts(rows, init, now);
      OpenAfter(rows, init, now, KeyOf(o));
      FiredLength(FireAll(rows, init, now), o, now);
      NewKeysAppend(rows, init, o);
      hide KeyOf, HasOpen, Fired;
    }
  }

  lemma FiredLength(rows: seq<Alert>, o: Occurrence, now: int)
    ensures |Fired(rows, o, now)| == |rows| + if HasOpen(rows, KeyOf(o)) then 0 else 1
  {
  }

  function CountKey(rows: seq<Alert>, k: AlertKey): nat {
    if rows == [] then 0 else
      var last := rows[|rows| - 1];
      CountKey(rows[..|rows| - 1], k) + if (last.org, last.dedupKey) == k then 1 else 0
  }

  lemma {:induction false} CountKeyUpdate(rows: seq<Alert>, i: nat, a: Alert, k: AlertKey)
    requires i < |rows| && a.org == rows[i].org && a.dedupKey == rows[i].dedupKey
    ensures CountKey(rows[i := a], k) == CountKey(rows, k)
    decreases |rows|
  {
    var n := |rows| - 1;
    if i < n {
      CountKeyUpdate(rows[..n], i, a, k);
      assert rows[i := a][..n] == rows[..n][i := a];
    } else {
      assert rows[i := a][..n] == rows[..n];
    }
  }

  /** Key by key: a key gains one alert when it is fired with none open, else none. */
  lemma {:induction false} NewAlertsOfKey(rows: seq<Alert>, os: seq<Occurrence>, now: int, k: AlertKey)
    ensures CountKey(FireAll(rows, os, now), k) == CountKey(rows, k) + if k in NewKeys(rows, os) then 1 else 0
    decreases |os|
  {
    if os != [] {
      var init, o := os[..|os| - 1], os[|os| - 1];
      var before := FireAll(rows, init, now);
      assert os == init + [o];
      assert Keys(os) == Keys(init) + {KeyOf(o)};
      NewAlertsOfKey(rows, init, now, k);
      OpenAfter(rows, init, now, KeyOf(o));
      FiredCount(before, o, now, k);
    }
  }

  lemma FiredCount(rows: seq<Alert>, o: Occurrence, now: int, k: AlertKey)
    ensures CountKey(Fired(rows, o, now), k)
            == CountKey(rows, k) + if k == KeyOf(o) && !HasOpen(rows, k) then 1 else 0
  {
    var at := FindOpen(rows, o.org, Key(o));
    if at < |rows| { CountKeyUpdate(rows, at, Fold(rows[at], o, now), k); }
    else { assert (rows + [Fresh(o, now)])[..|rows|] == rows; }
  }

  // ---- Two passes ------------------------------------------------------------------------

  /** A second pass creates alerts for exactly the keys that the first did not
      fire and that had no open alert before it. */
  lemma SecondPassAdds(rows: seq<Alert>, first: seq<Occurrence>, now: int, second: seq<Occurrence>, then': int)
    ensures
      var once := FireAll(rows, first, now);
      |FireAll(once, second, then')| == |once| + |WithoutOpen(rows, Keys(second)) - Keys(first)|
  {
    var once := FireAll(rows, first, now);
    NewAlerts(once, second, then');
    forall k ensures k in NewKeys(once, second) <==> k in NewKeys(rows, second) - Keys(first) {
      OpenAfter(rows, first, now, k);
    }
    assert NewKeys(once, second) == NewKeys(rows, second) - Keys(first);
  }

  /** A pass creates nothing exactly when every key it fires has an open alert. */
  lemma AddsNothingIff(rows: seq<Alert>, os: seq<Occurrence>, now: int)
    ensures |FireAll(rows, os, now)| == |rows| <==> forall o :: o in os ==> HasOpen(rows, KeyOf(o))
  {
    NewAlerts(rows, os, now);
    if o :| o in os && !HasOpen(rows, KeyOf(o)) {
      assert KeyOf(o) in NewKeys(rows, os);
    } else {
      assert NewKeys(rows, os) == {};
    }
  }

  /** An alert that is acknowledged, resolved or dismissed absorbs nothing more:
      the next pass creates one alert more than it otherwise would, exactly when
      it fires that alert's key. */
  lemma ClosedAlertFiresAgain(rows: seq<Alert>, i: nat, to: Status, os: seq<Occurrence>, now: int)
    requires OneOpen(rows) && i < |rows| && rows[i].status == Open && to != Open
    ensures |FireAll(Moved(rows, i, to), os, now)|
            == |FireAll(rows, os, now)| + if (rows[i].org, rows[i].dedupKey) in Keys(os) then 1 else 0
  {
    var closed := Moved(rows, i, to);
    var mine := (rows[i].org, rows[i].dedupKey);
    NewAlerts(rows, os, now);
    NewAlerts(closed, os, now);
    assert IsOpen(rows[i], mine.0, mine.1);
    forall k ensures HasOpen(closed, k) <==> HasOpen(rows, k) && k != mine { OpenAfterClosing(rows, i, to, k); }
    hide FireAll, Moved, Keys, HasOpen;
    if mine in Keys(os) {
      assert NewKeys(closed, os) == NewKeys(rows, os) + {mine};
    } else {
      assert NewKeys(closed, os) == NewKeys(rows, os);
    }
  }

  lemma OpenAfterClosing(rows: seq<Alert>, i: nat, to: Status, k: AlertKey)
    requires OneOpen(rows) && i < |rows| && rows[i].status == Open && to != Open
    ensures HasOpen(Moved(rows, i, to), k) <==> HasOpen(rows, k) && k != (rows[i].org, rows[i].dedupKey)
  {
    var closed := Moved(rows, i, to);
    if HasOpen(closed, k) {
      var j :| 0 <= j < |closed| && IsOpen(closed[j], k.0, k.1);
      assert j != i && IsOpen(rows[j], k.0, k.1);
    }
    if HasOpen(rows, k) && k != (rows[i].org, rows[i].dedupKey) {
      var j :| 0 <= j < |rows| && IsOpen(rows[j], k.0, k.1);
      assert IsOpen(closed[j], k.0, k.1);
    }
  }

  // ---- Two evaluations in one period -------------------------------------------------------

  /** Both days resolve, and to the same window. */
  ghost predicate Together(b: BudgetRow, today: Date, later: Date) {
    && Valid(today) && Valid(later) && today.year <= 9999 && later.year <= 9999
    && ValidBudget(b.schedule) && b.schedule.period != Custom
    && ResolvePeriodWindow(b.schedule, today).Ok? && ResolvePeriodWindow(b.schedule, later).Ok?
    && SameWindow(ResolvePeriodWindow(b.schedule, today).value, ResolvePeriodWindow(b.schedule, later).value)
  }

  lemma SameWindowSameOccurrences(b: BudgetRow, spend: real, today: Date, later: Date)
    requires Together(b, today, later)
    ensures Evaluation(b, spend, today).Ok? && Evaluation(b, spend, today) == Evaluation(b, spend, later)
  {
    KeyNamesWindow(b.schedule, today, later);
  }

  lemma {:induction false} SameWindowsSameEvaluations(
    budgets: seq<BudgetRow>, spend: BudgetRow -> real, today: Date, later: Date)
    requires Valid(today) && Valid(later)
    requires forall i :: 0 <= i < |budgets| ==> ValidBudget(budgets[i].schedule) && Together(budgets[i], today, later)
    ensures Evaluations(budgets, spend, today).Ok?
    ensures Evaluations(budgets, spend, today) == Evaluations(budgets, spend, later)
    decreases |budgets|
  {
    if budgets != [] {
      SameWindowSameOccurrences(budgets[0], spend(budgets[0]), today, later);
      hide Evaluation, Together;
      SameWindowsSameEvaluations(budgets[1..], spend, today, later);
    }
  }

  lemma {:induction false} AllDelivered(os: seq<Occurrence>, fate: nat -> Fate)
    requires forall i: nat :: fate(i) == Taken
    ensures Delivered(os, fate) == os
    decreases |os|
  {
    if os != [] { AllDelivered(os[..|os| - 1], fate); }
  }

  lemma {:induction false} DeliveredMembers(os: seq<Occurrence>, fate: nat -> Fate)
    ensures forall o :: o in Delivered(os, fate) ==> o in os
    decreases |os|
  {
    if os != [] { DeliveredMembers(os[..|os| - 1], fate); }
  }

  /** Evaluating the same spend twice within one period: the second pass creates
      alerts for exactly the keys whose first firing was suppressed or failed
      and that had no open alert before, so none when every first firing was taken. */
  lemma ReevaluationAddsExactly(rows: seq<Alert>, budgets: seq<BudgetRow>, spend: BudgetRow -> real,
                                today: Date, fate: nat -> Fate, now: int, later: Date, fate': nat -> Fate, then': int)
    requires Valid(today) && Valid(later)
    requires forall i :: 0 <= i < |budgets| ==> ValidBudget(budgets[i].schedule) && Together(budgets[i], today, later)
    ensures Evaluations(budgets, spend, today).Ok?
    ensures Evaluations(budgets, spend, today) == Evaluations(budgets, spend, later)
    ensures
      var os := Evaluations(budgets, spend, later).value;
      var once := FireAll(rows, Delivered(os, fate), now);
      var twice := FireAll(once, Delivered(os, fate'), then');
      && |twice| == |once| + |NewKeys(rows, Delivered(os, fate')) - Keys(Delivered(os, fate))|
      && ((forall i: nat :: fate(i) == Taken) ==> |twice| == |once|)
  {
    SameWindowsSameEvaluations(budgets, spend, today, later);
    hide Together, Evaluations, FireAll, Delivered;
    var os := Evaluations(budgets, spend, today).value;
    var first, second := Delivered(os, fate), Delivered(os, fate');
    SecondPassAdds(rows, first, now, second, then');
    if forall i: nat :: fate(i) == Taken {
      AllDelivered(os, fate);
      DeliveredMembers(os, fate');
      assert NewKeys(rows, second) - Keys(first) == {};
    }
  }

  // ---- Spend that grows within the period ---------------------------------------------------

  /** The alert key of one threshold of a budget. */
  function ThresholdKey(b: BudgetRow, periodKey: string, t: Threshold): AlertKey {
    KeyOf(OccurrenceFor(b, periodKey, t))
  }

  function ThresholdKeys(b: BudgetRow, periodKey: string, ts: set<Threshold>): set<AlertKey> {
    set t | t in ts :: ThresholdKey(b, periodKey, t)
  }

  function Elements(ts: seq<Threshold>): set<Threshold> { set t | t in ts }

  lemma {:induction false} OccurrenceKeys(b: BudgetRow, periodKey: string, crossed: seq<Threshold>)
    ensures Keys(OccurrencesFor(b, periodKey, crossed)) == ThresholdKeys(b, periodKey, Elements(crossed))
    decreases |crossed|
  {
    if crossed == [] {
      assert Keys([]) == {};
    } else {
      var first, rest := OccurrenceFor(b, periodKey, crossed[0]), OccurrencesFor(b, periodKey, crossed[1..]);
      OccurrenceKeys(b, periodKey, crossed[1..]);
      assert Keys([first] + rest) == {KeyOf(first)} + Keys(rest);
      assert Elements(crossed) == {crossed[0]} + Elements(crossed[1..]);
    }
  }

  lemma PercentGrows(amount: real, spend: real, grown: real)
    requires spend <= grown
    ensures PercentUsed(amount, spend) <= PercentUsed(amount, grown)
  {
    if amount > 0.0 {
      assert grown / amount - spend / amount == (grown - spend) / amount;
    }
  }

  /** No colon in the identifier or in a printed threshold, and printing tells thresholds apart. */
  ghost predicate WellPrinted(b: BudgetRow) {
    && ':' !in b.id
    && (forall t :: t in b.thresholds ==> ':' !in t.text)
    && (forall t, t' :: t in b.thresholds && t' in b.thresholds ==> (t.text == t'.text <==> t.value == t'.value))
  }

  /** The thresholds above one percentage and not above another. */
  function Between(b: BudgetRow, percent: real, grown: real): set<Threshold> {
    set t | t in b.thresholds && percent < t.value <= grown
  }

  /** The keys that a larger spend adds are those of the thresholds in between. */
  lemma NewlyCrossedKeys(b: BudgetRow, pk: string, percent: real, grown: real)
    requires WellPrinted(b) && percent <= grown
    ensures ThresholdKeys(b, pk, Elements(Crossed(b.thresholds, grown)))
            - ThresholdKeys(b, pk, Elements(Crossed(b.thresholds, percent)))
            == ThresholdKeys(b, pk, Between(b, percent, grown))
  {
    CrossedFacts(b.thresholds, percent);
    CrossedFacts(b.thresholds, grown);
    hide Crossed;
    forall t, t' | t in b.thresholds && t' in b.thresholds && ThresholdKey(b, pk, t) == ThresholdKey(b, pk, t')
      ensures t.value == t'.value
    {
      KeysAreDistinct(b.id, pk, t, b.id, pk, t');
    }
  }

  lemma StillNew(rows: seq<Alert>, keys: set<AlertKey>, fired: set<AlertKey>)
    ensures WithoutOpen(rows, keys) - fired == WithoutOpen(rows, keys - fired)
  {
    hide HasOpen;
  }

  lemma NewThresholdsAlert(rows: seq<Alert>, b: BudgetRow, pk: string, p: real, q: real, now: int, then': int)
    requires WellPrinted(b) && p <= q
    ensures
      var once := FireAll(rows, OccurrencesFor(b, pk, Crossed(b.thresholds, p)), now);
      |FireAll(once, OccurrencesFor(b, pk, Crossed(b.thresholds, q)), then')|
      == |once| + |WithoutOpen(rows, ThresholdKeys(b, pk, Between(b, p, q)))|
  {
    var first := OccurrencesFor(b, pk, Crossed(b.thresholds, p));
    var second := OccurrencesFor(b, pk, Crossed(b.thresholds, q));
    OccurrenceKeys(b, pk, Crossed(b.thresholds, p));
    OccurrenceKeys(b, pk, Crossed(b.thresholds, q));
    NewlyCrossedKeys(b, pk, p, q);
    hide *;
    SecondPassAdds(rows, first, now, second, then');
    StillNew(rows, Keys(second), Keys(first));
  }

  /** A second evaluation that sees more spend creates one alert for each
      threshold crossed in between, unless that threshold already had an open one. */
  lemma GrownSpendAlerts(rows: seq<Alert>, b: BudgetRow, spend: real, grown: real,
                         today: Date, now: int, later: Date, then': int)
    requires Together(b, today, later) && WellPrinted(b) && spend <= grown
    ensures Evaluation(b, spend, today).Ok? && Evaluation(b, grown, later).Ok?
    ensures
      var pk := PeriodKey(b.schedule, ResolvePeriodWindow(b.schedule, today).value);
      var between := Between(b, PercentUsed(b.amount, spend), PercentUsed(b.amount, grown));
      var once := FireAll(rows, Evaluation(b, spend, today).value, now);
      |FireAll(once, Evaluation(b, grown, later).value, then')|
      == |once| + |WithoutOpen(rows, ThresholdKeys(b, pk, between))|
  {
    SameWindowSameOccurrences(b, grown, today, later);
    var pk := PeriodKey(b.schedule, ResolvePeriodWindow(b.schedule, today).value);
    var p, q := PercentUsed(b.amount, spend), PercentUsed(b.amount, grown);
    assert Evaluation(b, spend, today) == Ok(OccurrencesFor(b, pk, Crossed(b.thresholds, p)));
    assert Evaluation(b, grown, today) == Ok(OccurrencesFor(b, pk, Crossed(b.thresholds, q)));
    hide *;
    PercentGrows(b.amount, spend, grown);
    NewThresholdsAlert(rows, b, pk, p, q, now, then');
  }
}
