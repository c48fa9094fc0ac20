/** AlertService.fire with its deduplication, and the life cycle of an alert. */
module Alerts {
  import opened Outcomes

  datatype Status = Open | Acknowledged | Resolved | Dismissed

  /** hashlib.sha256, taken to be injective. */
  datatype Digest = Sha256(text: string)

  datatype Alert = Alert(
    org: nat, dedupKey: Digest, alertType: string, title: string, message: string, status: Status,
    occurrences: nat, metadata: map<string, string>, firstAt: int, lastAt: int)

  /** The arguments of fire(). */
  datatype Occurrence = Occurrence(
    org: nat, alertType: string, scope: string, title: string, message: string, metadata: map<string, string>)

  function BuildDedupKey(alertType: string, scope: string): Digest { Sha256(alertType + ":" + scope) }

  function Key(o: Occurrence): Digest { BuildDedupKey(o.alertType, o.scope) }

  predicate IsOpen(a: Alert, org: nat, key: Digest) { a.org == org && a.dedupKey == key && a.status == Open }

  /** find_open_by_dedup_key: the first open alert with this key, or |rows|. */
  function FindOpen(rows: seq<Alert>, org: nat, key: Digest): (i: nat)
    ensures i <= |rows|
    ensures i < |rows| ==> IsOpen(rows[i], org, key)
    ensures forall j :: 0 <= j < i ==> !IsOpen(rows[j], org, key)
  {
    if rows == [] || IsOpen(rows[0], org, key) then 0 else 1 + FindOpen(rows[1..], org, key)
  }

  function Fold(a: Alert, o: Occurrence, now: int): Alert {
    a.(occurrences := a.occurrences + 1, lastAt := now, message := o.message, metadata := a.metadata + o.metadata)
  }

  function Fresh(o: Occurrence, now: int): Alert {
    Alert(o.org, Key(o), o.alertType, o.title, o.message, Open, 1, o.metadata, now, now)
  }

  /** One unsuppressed occurrence is folded into the open alert or starts a new one. */
  function Fired(rows: seq<Alert>, o: Occurrence, now: int): seq<Alert> {
    var i := FindOpen(rows, o.org, Key(o));
    if i < |rows| then rows[i := Fold(rows[i], o, now)] else rows + [Fresh(o, now)]
  }

  class AlertService {
    var rows: seq<Alert>

    constructor ()
      ensures rows == []
    {
      rows := [];
    }

    /** None when suppressed, otherwise the alert that took the occurrence. */
    method Fire(o: Occurrence, suppressed: bool, now: int) returns (alert: Option<Alert>)
      modifies this
      ensures rows == if suppressed then old(rows) else Fired(old(rows), o, now)
      ensures suppressed ==> alert == None
      ensures !suppressed ==>
        alert.Some? && alert.value in rows && IsOpen(alert.value, o.org, Key(o)) && alert.value.lastAt == now
    {
      if suppressed { return None; }
      var key := BuildDedupKey(o.alertType, o.scope);
      var i := FindOpen(rows, o.org, key);
      if i < |rows| {
        var existing := rows[i];
        existing := existing.(occurrences := existing.occurrences + 1);
        existing := existing.(lastAt := now);
        existing := existing.(message := o.message);
        existing := existing.(metadata := existing.metadata + o.metadata);
        rows := rows[i := existing];
        alert := Some(existing);
        assert rows[i] in rows;
      } else {
        var created := Alert(o.org, key, o.alertType, o.title, o.message, Open, 1, o.metadata, now, now);
        rows := rows + [created];
        alert := Some(created);
      }
    }

    /** The endpoints acknowledge, resolve, dismiss and reopen; false is a 409. */
    method Move(i: nat, to: Status) returns (ok: bool)
      requires i < |rows|
      modifies this
      ensures ok == Allowed(old(rows)[i].status, to)
      ensures rows == if ok then Moved(old(rows), i, to) else old(rows)
    {
      ok := Allowed(rows[i].status, to);
      if ok { rows := rows[i := rows[i].(status := to)]; }
    }
  }

  predicate Allowed(from: Status, to: Status) {
    match to
    case Acknowledged => from == Open
    case Resolved => from == Open || from == Acknowledged
    case Dismissed => from == Open || from == Acknowledged
    case Open => from != Open
  }

  function Moved(rows: seq<Alert>, i: nat, to: Status): seq<Alert>
    requires i < |rows|
  {
    rows[i := rows[i].(status := to)]
  }

  /** A firing with no open alert appends a new one; otherwise it updates the open
      alert's count, time, message and metadata, and nothing else anywhere. */
  lemma FireMeaning(rows: seq<Alert>, o: Occurrence, now: int)
    ensures
      var after, key := Fired(rows, o, now), Sha256(o.alertType + ":" + o.scope);
      if forall i :: 0 <= i < |rows| ==> !(rows[i].org == o.org && rows[i].dedupKey == key && rows[i].status == Open)
      then
        after == rows
          + [Alert(o.org, key, o.alertType, o.title, o.message, Open, 1, o.metadata, now, now)]
      else
        && |after| == |rows|
        && exists i ::
          && 0 <= i < |rows| && rows[i].org == o.org && rows[i].dedupKey == key && rows[i].status == Open
          && (forall j :: 0 <= j < i ==> !(rows[j].org == o.org && rows[j].dedupKey == key && rows[j].status == Open))
          && (forall j :: 0 <= j < |rows| && j != i ==> after[j] == rows[j])
          && after[i] == Alert(o.org, key, rows[i].alertType, rows[i].title, o.message, Open, rows[i].occurrences + 1,
               rows[i].metadata + o.metadata, rows[i].firstAt, now)
  {
    var k := FindOpen(rows, o.org, Key(o));
    if k < |rows| {
      assert rows[k].org == o.org && rows[k].dedupKey == Key(o) && rows[k].status == Open;
    } else {
      forall i | 0 <= i < |rows| ensures !IsOpen(rows[i], o.org, Key(o)) {}
    }
  }

  /** The life cycle: acknowledge an open alert, resolve or dismiss one that is open
      or acknowledged, reopen any other; only the status changes. */
  lemma MoveMeaning(rows: seq<Alert>, i: nat, to: Status)
    requires i < |rows|
    ensures Allowed(rows[i].status, to) <==>
      (rows[i].status, to) in {(Open, Acknowledged), (Open, Resolved), (Open, Dismissed),
        (Acknowledged, Resolved), (Acknowledged, Dismissed), (Acknowledged, Open), (Resolved, Open), (Dismissed, Open)}
    ensures |Moved(rows, i, to)| == |rows| && Moved(rows, i, to)[i].status == to
    ensures Moved(rows, i, to)[i].(status := rows[i].status) == rows[i]
    ensures forall j :: 0 <= j < |rows| && j != i ==> Moved(rows, i, to)[j] == rows[j]
  {
  }

  // ---- Runs --------------------------------------------------------------------------

  datatype Op = Fire(o: Occurrence, suppressed: bool, now: int) | Move(i: nat, to: Status)

  function Step(rows: seq<Alert>, op: Op): seq<Alert> {
    match op
    case Fire(o, suppressed, now) => if suppressed then rows else Fired(rows, o, now)
    case Move(i, to) => if i < |rows| && Allowed(rows[i].status, to) then Moved(rows, i, to) else rows
  }

  function Run(ops: seq<Op>): seq<Alert> {
    if ops == [] then [] else Step(Run(ops[..|ops| - 1]), ops[|ops| - 1])
  }

  /** At most one open alert per organization and key. */
  ghost predicate OneOpen(rows: seq<Alert>) {
    forall i, j :: 0 <= i < j < |rows| && rows[i].status == Open && rows[j].status == Open
      ==> rows[i].org != rows[j].org || rows[i].dedupKey != rows[j].dedupKey
  }

  lemma FireKeepsOneOpen(rows: seq<Alert>, o: Occurrence, now: int)
    requires OneOpen(rows)
    ensures OneOpen(Fired(rows, o, now))
  {
    var k := FindOpen(rows, o.org, Key(o));
    if k == |rows| {
      assert forall i :: 0 <= i < |rows| ==> !IsOpen(rows[i], o.org, Key(o));
    }
  }

  /** As long as nothing is reopened, no key ever has two open alerts. */
  lemma {:induction false} OneOpenPerKey(ops: seq<Op>)
    requires forall i :: 0 <= i < |ops| && ops[i].Move? ==> ops[i].to != Open
    ensures OneOpen(Run(ops))
    decreases |ops|
  {
    if ops != [] {
      var init, op := ops[..|ops| - 1], ops[|ops| - 1];
      OneOpenPerKey(init);
      if op.Fire? { FireKeepsOneOpen(Run(init), op.o, op.now); }
    }
  }

  /** Reopening keeps the property exactly when the key has no open alert now. */
  lemma ReopenKeepsOneOpen(rows: seq<Alert>, i: nat)
    requires OneOpen(rows) && i < |rows| && rows[i].status != Open
    ensures OneOpen(Step(rows, Move(i, Open))) <==> FindOpen(rows, rows[i].org, rows[i].dedupKey) == |rows|
  {
    var k := FindOpen(rows, rows[i].org, rows[i].dedupKey);
    var after := Step(rows, Move(i, Open));
    if k < |rows| {
      assert after[i].status == Open && after[k].status == Open;
      assert k != i;
    } else {
      assert forall j :: 0 <= j < |rows| ==> !IsOpen(rows[j], rows[i].org, rows[i].dedupKey);
    }
  }

  lemma RunAppend(ops: seq<Op>, op: Op)
    ensures Run(ops + [op]) == Step(Run(ops), op)
  {
    assert (ops + [op])[..|ops|] == ops;
  }

  /** And it can fail: an acknowledged alert does not absorb the next
      occurrence, so reopening it leaves two open alerts with one key. */
  lemma ReopenCanDuplicate(o: Occurrence)
    ensures !OneOpen(Run([Fire(o, false, 1), Move(0, Acknowledged), Fire(o, false, 2), Move(0, Open)]))
  {
    ThreeSteps(o);
    var ops := [Fire(o, false, 1), Move(0, Acknowledged), Fire(o, false, 2)];
    RunAppend(ops, Move(0, Open));
    assert ops + [Move(0, Open)] == [Fire(o, false, 1), Move(0, Acknowledged), Fire(o, false, 2), Move(0, Open)];
    hide Run;
    var after := Run(ops + [Move(0, Open)]);
    assert after[0].status == Open && after[1].status == Open;
  }

  lemma ThreeSteps(o: Occurrence)
    ensures Run([Fire(o, false, 1), Move(0, Acknowledged), Fire(o, false, 2)])
            == [Fresh(o, 1).(status := Acknowledged), Fresh(o, 2)]
  {
    TwoSteps(o);
    var ops := [Fire(o, false, 1), Move(0, Acknowledged)];
    var acknowledged := Fresh(o, 1).(status := Acknowledged);
    RunAppend(ops, Fire(o, false, 2));
    assert ops + [Fire(o, false, 2)] == [Fire(o, false, 1), Move(0, Acknowledged), Fire(o, false, 2)];
    hide Run;
    assert !IsOpen(acknowledged, o.org, Key(o));
    assert FindOpen([acknowledged], o.org, Key(o)) == 1;
  }

  lemma TwoSteps(o: Occurrence)
    ensures Run([Fire(o, false, 1), Move(0, Acknowledged)]) == [Fresh(o, 1).(status := Acknowledged)]
  {
    assert [Fire(o, false, 1)][..0] == [] && Run([]) == [];
    assert Run([Fire(o, false, 1)]) == [Fresh(o, 1)];
    RunAppend([Fire(o, false, 1)], Move(0, Acknowledged));
    assert [Fire(o, false, 1)] + [Move(0, Acknowledged)] == [Fire(o, false, 1), Move(0, Acknowledged)];
    hide Run;
  }

  // ---- Occurrences are conserved --------------------------------------------------------

  /** The sum of occurrence_count over the alerts of a key. */
  function Total(rows: seq<Alert>, org: nat, key: Digest): nat {
    if rows == [] then 0 else
      Total(rows[..|rows| - 1], org, key)
      + if rows[|rows| - 1].org == org && rows[|rows| - 1].dedupKey == key then rows[|rows| - 1].occurrences else 0
  }

  function UnsuppressedFires(ops: seq<Op>, org: nat, key: Digest): nat {
    if ops == [] then 0 else
      var op := ops[|ops| - 1];
      UnsuppressedFires(ops[..|ops| - 1], org, key)
      + if op.Fire? && !op.suppressed && op.o.org == org && Key(op.o) == key then 1 else 0
  }

  function Share(a: Alert, org: nat, key: Digest): nat {
    if a.org == org && a.dedupKey == key then a.occurrences else 0
  }

  lemma {:induction false} TotalUpdate(rows: seq<Alert>, i: nat, a: Alert, org: nat, key: Digest)
    requires i < |rows|
    ensures Total(rows[i := a], org, key) == Total(rows, org, key) - Share(rows[i], org, key) + Share(a, org, key)
    decreases |rows|
  {
    var n := |rows| - 1;
    if i < n {
      TotalUpdate(rows[..n], i, a, org, key);
      assert rows[i := a][..n] == rows[..n][i := a];
    } else {
      assert rows[i := a][..n] == rows[..n];
    }
  }

  /** Folding, acknowledging, resolving and reopening lose and invent nothing:
      over any run the occurrence counts of a key add up to its unsuppressed fires. */
  lemma {:induction false} OccurrencesAddUp(ops: seq<Op>, org: nat, key: Digest)
    ensures Total(Run(ops), org, key) == UnsuppressedFires(ops, org, key)
    decreases |ops|
  {
    if ops != [] {
      var init, op := ops[..|ops| - 1], ops[|ops| - 1];
      var rows := Run(init);
      OccurrencesAddUp(init, org, key);
      match op
      case Fire(o, suppressed, now) =>
        var i := FindOpen(rows, o.org, Key(o));
        if !suppressed {
          if i < |rows| { TotalUpdate(rows, i, Fold(rows[i], o, now), org, key); }
          else { assert (rows + [Fresh(o, now)])[..|rows|] == rows; }
        }
      case Move(i, to) =>
        if i < |rows| && Allowed(rows[i].status, to) { TotalUpdate(rows, i, rows[i].(status := to), org, key); }
    }
  }
}
