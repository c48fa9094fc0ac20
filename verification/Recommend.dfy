/** scan_revisions and build_recommendation: which revision a live schema is at,
    or what separates it from the closest one. */
module Recommend {
  import opened Outcomes
  import opened DdlParser
  import opened DdlNames
  import opened SchemaDiff
  import opened RepairPlan

  // ---- Scanning the revisions ----------------------------------------------------------------

  /** A revision and the offline SQL that builds it from nothing. */
  datatype Revision = Revision(id: string, script: seq<Stmt>)

  /** No diff when some statement is not understood; those statements are the error. */
  datatype Scan = Scan(revision: string, diff: Option<SchemaDiff>, error: seq<string>)

  predicate Parseable(r: Revision) { Unparsed(r.script) == [] }

  function Against(live: Snapshot, r: Revision): SchemaDiff { Diff(live, Parse(r.script), r.id) }

  function ScanOf(live: Snapshot, r: Revision): Scan {
    if Parseable(r) then Scan(r.id, Some(Against(live, r)), []) else Scan(r.id, None, Unparsed(r.script))
  }

  method ScanRevisions(live: Snapshot, revisions: seq<Revision>) returns (scans: seq<Scan>)
    ensures |scans| == |revisions| && forall i :: 0 <= i < |scans| ==> scans[i] == ScanOf(live, revisions[i])
  {
    hide Diff, Parse, Unparsed;
    scans := [];
    for k := 0 to |revisions|
      invariant |scans| == k && forall i :: 0 <= i < k ==> scans[i] == ScanOf(live, revisions[i])
    {
      var expected, unrecognized := ParseDdl(revisions[k].script);
      if unrecognized != [] {
        scans := scans + [Scan(revisions[k].id, None, unrecognized)];
      } else {
        var diff := DiffSchemas(live, expected, revisions[k].id);
        scans := scans + [Scan(revisions[k].id, Some(diff), [])];
      }
    }
  }

  // ---- The recommendation -----------------------------------------------------------------------

  datatype Recommendation =
    | Stamp(revision: string)
    | NothingParseable
    | Repair(revision: string, diff: SchemaDiff, plan: seq<RepairStep>)

  predicate Matches(live: Snapshot, r: Revision) { Parseable(r) && IsExactMatch(Against(live, r)) }

  predicate FirstMatch(live: Snapshot, revisions: seq<Revision>, k: nat)
    requires k < |revisions|
  {
    Matches(live, revisions[k]) && forall i :: 0 <= i < k ==> !Matches(live, revisions[i])
  }

  /** Revision k is the earliest of those with the fewest mismatches. */
  predicate Closest(live: Snapshot, revisions: seq<Revision>, k: nat) { ClosestAmong(live, revisions, |revisions|, k) }

  predicate ClosestAmong(live: Snapshot, revisions: seq<Revision>, count: nat, k: nat)
    requires count <= |revisions|
  {
    && k < count && Parseable(revisions[k])
    && forall i :: 0 <= i < count && Parseable(revisions[i]) ==>
      Total(Against(live, revisions[k])) <= Total(Against(live, revisions[i]))
      && (i < k ==> Total(Against(live, revisions[k])) < Total(Against(live, revisions[i])))
  }

  predicate Recommended(rec: Recommendation, live: Snapshot, revisions: seq<Revision>) {
    match rec
    case Stamp(id) =>
      exists k :: 0 <= k < |revisions| && revisions[k].id == id && FirstMatch(live, revisions, k)
    case NothingParseable => forall i :: 0 <= i < |revisions| ==> !Parseable(revisions[i])
    case Repair(id, diff, plan) =>
      (forall i :: 0 <= i < |revisions| ==> !Matches(live, revisions[i]))
      && plan == Plan(diff)
      && exists k :: (0 <= k < |revisions| && Closest(live, revisions, k)
        && id == revisions[k].id && diff == Against(live, revisions[k]))
  }

  method BuildRecommendation(live: Snapshot, revisions: seq<Revision>)
    returns (rec: Recommendation, scans: seq<Scan>)
    ensures |scans| == |revisions| && forall i :: 0 <= i < |scans| ==> scans[i] == ScanOf(live, revisions[i])
    ensures Recommended(rec, live, revisions)
  {
    scans := ScanRevisions(live, revisions);
    hide Against, Parseable, IsExactMatch, Total, Plan;
    for k := 0 to |scans|
      invariant forall i :: 0 <= i < k ==> !Matches(live, revisions[i])
    {
      if scans[k].diff.Some? && IsExactMatch(scans[k].diff.value) {
        assert FirstMatch(live, revisions, k);
        return Stamp(scans[k].revision), scans;
      }
    }
    var best: nat, fewest: nat := |scans|, 0;
    for k := 0 to |scans|
      invariant best == |scans| || best < k
      invariant best == |scans| ==> forall i :: 0 <= i < k ==> !Parseable(revisions[i])
      invariant best < |scans| ==>
        ClosestAmong(live, revisions, k, best) && fewest == Total(Against(live, revisions[best]))
    {
      if scans[k].diff.Some? {
        var count := TotalMismatches(scans[k].diff.value);
        if best == |scans| || count < fewest { best, fewest := k, count; }
      }
    }
    if best == |scans| { return NothingParseable, scans; }
    var plan := RepairPlanFromDiff(scans[best].diff.value);
    rec := Repair(scans[best].revision, scans[best].diff.value, plan);
  }

  // ---- Which revision is recommended ---------------------------------------------------------------

  /** A revision is diffed exactly when every statement was understood, and
      otherwise the others are its error. */
  lemma ScanMeaning(live: Snapshot, r: Revision, text: string)
    ensures
      var scan := ScanOf(live, r);
      && scan.revision == r.id
      && (scan.diff.Some? <==> forall i :: 0 <= i < |r.script| ==> !r.script[i].Unrecognized?)
      && (scan.diff.Some? ==> scan.diff == Some(Diff(live, Parse(r.script), r.id)))
      && (text in scan.error <==> exists i :: 0 <= i < |r.script| && r.script[i] == Unrecognized(text))
  {
    hide Diff, Parse;
    UnparsedMeaning(r.script, text);
    AllUnderstood(r.script);
  }

  lemma AllUnderstood(script: seq<Stmt>)
    ensures Unparsed(script) == [] <==> forall i :: 0 <= i < |script| ==> !script[i].Unrecognized?
  {
    if i :| 0 <= i < |script| && script[i].Unrecognized? { UnparsedMeaning(script, script[i].text); }
    if Unparsed(script) != [] { UnparsedMeaning(script, Unparsed(script)[0]); }
  }

  /** The first revision with exactly the live names is stamped. Without one, the
      revision with the fewest mismatches is repaired, the first if there are
      several; nothing is recommended when no revision could be read. */
  lemma RecommendationMeaning(rec: Recommendation, live: Snapshot, revisions: seq<Revision>)
    requires Recommended(rec, live, revisions)
    ensures rec.Stamp? <==> exists k :: 0 <= k < |revisions| && HasLiveNames(live, revisions[k])
    ensures rec.Stamp? ==>
      exists k :: 0 <= k < |revisions| && HasLiveNames(live, revisions[k]) && rec.revision == revisions[k].id
                  && forall i :: 0 <= i < k ==> !HasLiveNames(live, revisions[i])
    ensures rec.NothingParseable? <==> forall i :: 0 <= i < |revisions| ==> Unparsed(revisions[i].script) != []
    ensures rec.Repair? ==>
      exists k :: 0 <= k < |revisions| && Unparsed(revisions[k].script) == [] && rec.revision == revisions[k].id
                  && rec.diff == Diff(live, Parse(revisions[k].script), rec.revision) && rec.plan == Plan(rec.diff)
                  && FewestMismatches(live, revisions, k, Total(rec.diff))
  {
    forall i | 0 <= i < |revisions| ensures Matches(live, revisions[i]) <==> HasLiveNames(live, revisions[i]) {
      MatchMeaning(live, revisions[i]);
    }
    hide Matches, HasLiveNames, Diff, Parse, Plan, Total, Unparsed, FewestMismatches, Closest;
    if rec.Stamp? {
      var k :| 0 <= k < |revisions| && revisions[k].id == rec.revision && FirstMatch(live, revisions, k);
      assert HasLiveNames(live, revisions[k]);
    }
    if rec.Repair? {
      var k :| 0 <= k < |revisions| && Closest(live, revisions, k)
        && rec.revision == revisions[k].id && rec.diff == Against(live, revisions[k]);
      ClosestMeaning(live, revisions, k);
    }
  }

  lemma ClosestMeaning(live: Snapshot, revisions: seq<Revision>, k: nat)
    requires k < |revisions| && Closest(live, revisions, k)
    ensures Unparsed(revisions[k].script) == []
    ensures FewestMismatches(live, revisions, k, Total(Against(live, revisions[k])))
  {
    hide Diff, Parse, Total, Unparsed;
  }

  ghost predicate HasLiveNames(live: Snapshot, r: Revision) {
    Unparsed(r.script) == [] && SameNames(live, Parse(r.script))
  }

  /** No readable revision has fewer than `count` mismatches, and none before k as few. */
  predicate FewestMismatches(live: Snapshot, revisions: seq<Revision>, k: nat, count: nat) {
    forall i :: 0 <= i < |revisions| && Unparsed(revisions[i].script) == [] ==>
      var mismatches := Total(Diff(live, Parse(revisions[i].script), revisions[i].id));
      if i < k then mismatches > count else mismatches >= count
  }

  /** A match is a parseable revision whose names are the live names. */
  lemma MatchMeaning(live: Snapshot, r: Revision)
    ensures Matches(live, r) <==> Parseable(r) && SameNames(live, Parse(r.script))
  {
    MatchIffSameNames(live, Parse(r.script), r.id);
    hide Diff, Parse, SameNames, IsExactMatch;
  }

  /** Two revisions the diff cannot tell apart. */
  ghost predicate Twins(a: Revision, b: Revision) {
    Parseable(a) && Parseable(b) && SameNames(Parse(a.script), Parse(b.script))
  }

  lemma MatchesOfTwins(live: Snapshot, a: Revision, b: Revision)
    ensures Matches(live, a) && Matches(live, b) ==> Twins(a, b)
    ensures Twins(a, b) ==> (Matches(live, a) <==> Matches(live, b))
  {
    MatchMeaning(live, a);
    MatchMeaning(live, b);
    hide Parseable, Parse, Has, Matches;
  }

  /** For any revisions whatsoever: no live schema matches two of them exactly
      when no two parseable ones expect the same names. */
  lemma OneMatchIffNoTwins(revisions: seq<Revision>)
    ensures (forall live, i, j :: 0 <= i < j < |revisions| ==>
              !(Matches(live, revisions[i]) && Matches(live, revisions[j])))
            <==> forall i, j :: 0 <= i < j < |revisions| ==> !Twins(revisions[i], revisions[j])
  {
    hide Matches, Twins;
    forall live, i, j | 0 <= i < j < |revisions|
      ensures Matches(live, revisions[i]) && Matches(live, revisions[j]) ==> Twins(revisions[i], revisions[j])
    {
      MatchesOfTwins(live, revisions[i], revisions[j]);
    }
    forall i, j | 0 <= i < j < |revisions| && Twins(revisions[i], revisions[j])
      ensures exists live :: Matches(live, revisions[i]) && Matches(live, revisions[j])
    {
      TwinsMatch(revisions[i], revisions[j]);
    }
  }

  lemma TwinsMatch(a: Revision, b: Revision)
    requires Twins(a, b)
    ensures Matches(Parse(a.script), a) && Matches(Parse(a.script), b)
  {
    MatchMeaning(Parse(a.script), a);
    MatchMeaning(Parse(a.script), b);
    hide Parse, Has, Matches;
  }

  /** A matching revision is the one recommended exactly when no earlier one
      expects the same names; in particular always where there are no twins. */
  lemma TheMatchIsRecommended(revisions: seq<Revision>, live: Snapshot, rec: Recommendation, k: nat)
    requires forall i, j :: 0 <= i < j < |revisions| ==> revisions[i].id != revisions[j].id
    requires k < |revisions| && Matches(live, revisions[k])
    requires Recommended(rec, live, revisions)
    ensures rec == Stamp(revisions[k].id) <==> forall i :: 0 <= i < k ==> !Twins(revisions[i], revisions[k])
  {
    assert Parseable(revisions[k]);
    hide Matches, Twins, Closest, Parseable;
    forall i | 0 <= i < |revisions|
      ensures Matches(live, revisions[i]) <==> Twins(revisions[i], revisions[k])
    {
      MatchesOfTwins(live, revisions[i], revisions[k]);
    }
  }

  /** A migration that only tightens nullability adds no name: a live schema
      matches the revision before it iff it matches the revision after it, so
      the earlier one is recommended whichever the database is at. */
  lemma NullabilityMigrationIsAmbiguous(base: Revision, id: string, tightening: seq<Stmt>, live: Snapshot)
    requires forall i :: 0 <= i < |tightening| ==> tightening[i].SetNotNull? || tightening[i].Ignored?
    ensures Matches(live, base) <==> Matches(live, Revision(id, base.script + tightening))
  {
    var after := Revision(id, base.script + tightening);
    MatchesOfTwins(live, base, after);
    if Parseable(base) || Parseable(after) { TighteningTwins(base, id, tightening); }
    hide Twins;
  }

  lemma TighteningTwins(base: Revision, id: string, tightening: seq<Stmt>)
    requires forall i :: 0 <= i < |tightening| ==> tightening[i].SetNotNull? || tightening[i].Ignored?
    ensures Parseable(base) <==> Parseable(Revision(id, base.script + tightening))
    ensures Parseable(base) ==> Twins(base, Revision(id, base.script + tightening))
  {
    ExecConcat(EMPTY, base.script, tightening);
    NullabilityIsInvisible(ExecAll(EMPTY, base.script), tightening);
    NothingUnparsed(tightening);
    SameNamesParsed(base.script, base.script + tightening);
    hide Parse, Unparsed, ExecAll, SameNames;
    assert Unparsed(base.script) + [] == Unparsed(base.script);
  }

  lemma SameNamesParsed(a: seq<Stmt>, b: seq<Stmt>)
    requires SameNames(ExecAll(EMPTY, a), ExecAll(EMPTY, b))
    ensures SameNames(Parse(a), Parse(b))
  {
    var s, t := ExecAll(EMPTY, a), ExecAll(EMPTY, b);
    hide ExecAll;
    forall n ensures Has(Parse(a), n) <==> Has(Parse(b), n) {
      assert Has(s, n) <==> Has(t, n);
    }
  }

  lemma {:induction false} NothingUnparsed(stmts: seq<Stmt>)
    requires forall i :: 0 <= i < |stmts| ==> stmts[i].SetNotNull? || stmts[i].Ignored?
    ensures Unparsed(stmts) == []
    decreases |stmts|
  {
    if stmts != [] { NothingUnparsed(stmts[..|stmts| - 1]); }
  }
}
