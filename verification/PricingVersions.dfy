/** Versioned prices: PricingValidator and the date lookup of
    ModelPricingRepository. Dates are day numbers. */
module PricingVersions {
  import opened Outcomes
  import opened Text

  /** Prices are integers in units of 10^-10. */
  datatype Pricing = Pricing(
    id: nat, provider: string, model: string, version: string, currency: string,
    effectiveFrom: Option<int>, effectiveTo: Option<int>,
    promptPrice: Option<int>, completionPrice: Option<int>, cachedPrice: Option<int>,
    audioPrice: Option<int>, imagePrice: Option<int>, embeddingPrice: Option<int>,
    active: bool, deleted: bool)

  predicate Blank(s: string) { Strip(s) == "" }

  predicate Negative(price: Option<int>) { price.Some? && price.value < 0 }

  /** validate_new_pricing raises unless all of this holds. */
  predicate WellFormed(p: Pricing) {
    && !Blank(p.provider) && !Blank(p.model) && !Blank(p.version) && !Blank(p.currency)
    && p.effectiveFrom.Some? && (p.effectiveTo.Some? ==> p.effectiveFrom.value < p.effectiveTo.value)
    && p.promptPrice.Some? && p.completionPrice.Some?
    && !Negative(p.promptPrice) && !Negative(p.completionPrice) && !Negative(p.cachedPrice)
    && !Negative(p.audioPrice) && !Negative(p.imagePrice) && !Negative(p.embeddingPrice)
  }

  // ---- Overlap -----------------------------------------------------------------

  /** The record is in force on that day; both ends are inclusive. */
  predicate Covers(p: Pricing, day: int)
    requires p.effectiveFrom.Some?
  {
    p.effectiveFrom.value <= day && (p.effectiveTo.None? || day <= p.effectiveTo.value)
  }

  ghost predicate ShareDate(a: Pricing, b: Pricing)
    requires a.effectiveFrom.Some? && b.effectiveFrom.Some?
  {
    exists day :: Covers(a, day) && Covers(b, day)
  }

  /** The comparison validate_no_overlap makes. */
  predicate Overlaps(p: Pricing, existing: Pricing)
    requires p.effectiveFrom.Some? && existing.effectiveFrom.Some?
  {
    && (existing.effectiveTo.None? || p.effectiveFrom.value <= existing.effectiveTo.value)
    && (p.effectiveTo.None? || existing.effectiveFrom.value <= p.effectiveTo.value)
  }

  predicate NonEmpty(p: Pricing)
    requires p.effectiveFrom.Some?
  {
    p.effectiveTo.Some? ==> p.effectiveFrom.value <= p.effectiveTo.value
  }

  /** For non-empty ranges the test is true exactly when a date is shared. */
  lemma OverlapMeansSharedDate(a: Pricing, b: Pricing)
    requires a.effectiveFrom.Some? && b.effectiveFrom.Some? && NonEmpty(a) && NonEmpty(b)
    ensures Overlaps(a, b) <==> ShareDate(a, b)
  {
    if Overlaps(a, b) {
      var later := if a.effectiveFrom.value < b.effectiveFrom.value then b.effectiveFrom.value
        else a.effectiveFrom.value;
      assert Covers(a, later) && Covers(b, later);
    }
  }

  ghost predicate Stored(rows: seq<Pricing>) {
    forall i :: 0 <= i < |rows| ==> rows[i].effectiveFrom.Some? && NonEmpty(rows[i])
  }

  /** list_for_model: every non-deleted version of the model. */
  predicate Version(p: Pricing, provider: string, model: string) {
    !p.deleted && p.provider == provider && p.model == model
  }

  /** None when accepted, otherwise the first conflicting version. */
  method ValidateNoOverlap(rows: seq<Pricing>, p: Pricing) returns (conflict: Option<Pricing>)
    requires Stored(rows) && p.effectiveFrom.Some? && NonEmpty(p)
    ensures conflict.None? <==>
      forall i :: 0 <= i < |rows| && Version(rows[i], p.provider, p.model) && rows[i].id != p.id
        ==> !ShareDate(p, rows[i])
    ensures conflict.Some? ==>
      conflict.value in rows && conflict.value.id != p.id && conflict.value.effectiveFrom.Some?
        && ShareDate(p, conflict.value)
  {
    for n := 0 to |rows|
      invariant forall i ::
        0 <= i < n && Version(rows[i], p.provider, p.model) && rows[i].id != p.id ==> !ShareDate(p, rows[i])
    {
      var existing := rows[n];
      if Version(existing, p.provider, p.model) && existing.id != p.id {
        OverlapMeansSharedDate(p, existing);
        if Overlaps(p, existing) { return Some(existing); }
      }
    }
    return None;
  }

  // ---- Runs of the price table ---------------------------------------------------

  datatype Op = Insert(p: Pricing) | SoftDelete(id: nat) | SetActive(id: nat, active: bool)

  predicate SameVersion(a: Pricing, b: Pricing) {
    a.provider == b.provider && a.model == b.model && a.version == b.version
  }

  /** A record enters the table when both validations pass and neither the
      primary key nor (provider, model, version) is taken. */
  ghost predicate Accepted(rows: seq<Pricing>, p: Pricing) {
    && WellFormed(p) && Stored(rows)
    && (forall i :: 0 <= i < |rows| ==> rows[i].id != p.id && !SameVersion(rows[i], p))
    && (forall i :: 0 <= i < |rows| && Version(rows[i], p.provider, p.model) ==> !ShareDate(p, rows[i]))
  }

  ghost function Apply(rows: seq<Pricing>, op: Op): seq<Pricing> {
    match op
    case Insert(p) => if Accepted(rows, p) then rows + [p] else rows
    case SoftDelete(id) =>
      seq(|rows|, i requires 0 <= i < |rows| => if rows[i].id == id then rows[i].(deleted := true) else rows[i])
    case SetActive(id, b) =>
      seq(|rows|, i requires 0 <= i < |rows| => if rows[i].id == id then rows[i].(active := b) else rows[i])
  }

  /** An accepted price is appended; deleting or switching on and off touches the
      one price with the key, and of it only that mark. */
  lemma ApplyMeaning(rows: seq<Pricing>, op: Op, i: nat)
    requires i < |rows|
    ensures
      var after, p := Apply(rows, op), rows[i];
      match op
      case Insert(q) => after == if Accepted(rows, q) then rows + [q] else rows
      case SoftDelete(id) =>
        |after| == |rows| && (p.id != id ==> after[i] == p)
        && (p.id == id ==> after[i].deleted && after[i].(deleted := p.deleted) == p)
      case SetActive(id, b) =>
        |after| == |rows| && (p.id != id ==> after[i] == p)
        && (p.id == id ==> after[i].active == b && after[i].(active := p.active) == p)
  {
    hide Accepted;
  }

  ghost function Run(ops: seq<Op>): seq<Pricing> {
    if ops == [] then [] else Apply(Run(ops[..|ops| - 1]), ops[|ops| - 1])
  }

  class ModelPricingRepository {
    var rows: seq<Pricing>

    constructor ()
      ensures rows == []
    {
      rows := [];
    }

    /** The create endpoint: both validations, then the INSERT. */
    method Create(p: Pricing) returns (ok: bool)
      requires Disjoint(rows)
      modifies this
      ensures ok == Accepted(old(rows), p)
      ensures rows == Apply(old(rows), Insert(p)) && Disjoint(rows)
    {
      ApplyKeepsDisjoint(rows, Insert(p));
      if !WellFormed(p) { return false; }
      var conflict := ValidateNoOverlap(rows, p);
      if conflict.Some? { return false; }
      ok := forall i :: 0 <= i < |rows| ==> rows[i].id != p.id && !SameVersion(rows[i], p);
      if ok { rows := rows + [p]; }
    }

    method Lookup(provider: string, model: string, day: int) returns (r: Option<Pricing>)
      ensures r == GetForDate(rows, provider, model, day)
    {
      r := GetForDate(rows, provider, model, day);
    }
  }

  ghost predicate Disjoint(rows: seq<Pricing>) {
    && Stored(rows)
    && forall i, j :: 0 <= i < j < |rows| && !rows[i].deleted && !rows[j].deleted
                      && rows[i].provider == rows[j].provider && rows[i].model == rows[j].model
                      ==> !ShareDate(rows[j], rows[i])
  }

  lemma ApplyKeepsDisjoint(rows: seq<Pricing>, op: Op)
    requires Disjoint(rows)
    ensures Disjoint(Apply(rows, op))
  {
    if !op.Insert? {
      var after := Apply(rows, op);
      forall i, j | 0 <= i < j < |after| && !after[i].deleted && !after[j].deleted
                    && after[i].provider == after[j].provider && after[i].model == after[j].model
        ensures !ShareDate(after[j], after[i])
      {
        assert !ShareDate(rows[j], rows[i]);
        if day :| Covers(after[j], day) && Covers(after[i], day) {
          assert Covers(rows[j], day) && Covers(rows[i], day);
        }
      }
    }
  }

  /** Whatever is inserted, deleted or deactivated, the live versions of a
      model never share a date. */
  lemma {:induction false} VersionsStayDisjoint(ops: seq<Op>)
    ensures Disjoint(Run(ops))
    decreases |ops|
  {
    if ops != [] {
      VersionsStayDisjoint(ops[..|ops| - 1]);
      ApplyKeepsDisjoint(Run(ops[..|ops| - 1]), ops[|ops| - 1]);
    }
  }

  /** Named, dated forwards, with both main prices, and nothing negative. */
  predicate Proper(p: Pricing) {
    && Strip(p.provider) != "" && Strip(p.model) != "" && Strip(p.version) != "" && Strip(p.currency) != ""
    && p.effectiveFrom.Some? && (p.effectiveTo.Some? ==> p.effectiveFrom.value < p.effectiveTo.value)
    && p.promptPrice.Some? && p.promptPrice.value >= 0 && p.completionPrice.Some? && p.completionPrice.value >= 0
    && (p.cachedPrice.Some? ==> p.cachedPrice.value >= 0) && (p.audioPrice.Some? ==> p.audioPrice.value >= 0)
    && (p.imagePrice.Some? ==> p.imagePrice.value >= 0) && (p.embeddingPrice.Some? ==> p.embeddingPrice.value >= 0)
  }

  lemma WellFormedIff(p: Pricing)
    ensures WellFormed(p) <==> Proper(p)
  {
    hide Strip;
  }

  /** Every stored price is proper. */
  lemma {:induction false} StoredPrices(ops: seq<Op>, i: nat)
    requires i < |Run(ops)|
    ensures Proper(Run(ops)[i])
    decreases |ops|
  {
    var before, op := Run(ops[..|ops| - 1]), ops[|ops| - 1];
    assert Run(ops) == Apply(before, op);
    hide Run;
    if i < |before| { StoredPrices(ops[..|ops| - 1], i); }
    ApplyKeepsProper(before, op, i);
  }

  lemma ApplyKeepsProper(rows: seq<Pricing>, op: Op, i: nat)
    requires i < |Apply(rows, op)| && (i < |rows| ==> Proper(rows[i]))
    ensures Proper(Apply(rows, op)[i])
  {
    if op.Insert? {
      WellFormedIff(op.p);
      hide WellFormed, Proper, Stored, ShareDate;
    } else {
      hide Strip, Accepted;
    }
  }

  /** No two stored prices share a primary key, or provider, model and version. */
  lemma {:induction false} StoredVersionsDiffer(ops: seq<Op>, i: nat, j: nat)
    requires i < j < |Run(ops)|
    ensures
      var p, q := Run(ops)[i], Run(ops)[j];
      p.id != q.id && !(p.provider == q.provider && p.model == q.model && p.version == q.version)
    decreases |ops|
  {
    var before := Run(ops[..|ops| - 1]);
    if j < |before| { StoredVersionsDiffer(ops[..|ops| - 1], i, j); }
    hide WellFormed, Stored, ShareDate;
  }

  /** When a new price is accepted after any run. */
  lemma AcceptedIff(ops: seq<Op>, p: Pricing)
    ensures
      var rows := Run(ops);
      Accepted(rows, p) <==>
      && Proper(p)
      && (forall i :: 0 <= i < |rows| ==> rows[i].id != p.id)
      && (forall i :: 0 <= i < |rows| ==>
            !(rows[i].provider == p.provider && rows[i].model == p.model && rows[i].version == p.version))
      && (forall i, day ::
            0 <= i < |rows| && !rows[i].deleted && rows[i].provider == p.provider && rows[i].model == p.model ==>
            !(InForce(rows[i], day) && InForce(p, day)))
  {
    VersionsStayDisjoint(ops);
    WellFormedIff(p);
    assert Proper(p) ==> p.effectiveFrom.Some?;
    hide Run, WellFormed, Proper;
    var rows := Run(ops);
    if p.effectiveFrom.Some? {
      forall i | 0 <= i < |rows|
        ensures ShareDate(p, rows[i]) <==> exists day :: InForce(rows[i], day) && InForce(p, day)
      {
        if day :| Covers(p, day) && Covers(rows[i], day) { assert InForce(rows[i], day) && InForce(p, day); }
        if day :| InForce(rows[i], day) && InForce(p, day) { assert Covers(p, day) && Covers(rows[i], day); }
      }
    }
  }

  /** From its first to its last day, both included; without a last day, for good. */
  predicate InForce(p: Pricing, day: int) {
    p.effectiveFrom.Some? && day >= p.effectiveFrom.value && !(p.effectiveTo.Some? && day > p.effectiveTo.value)
  }

  /** The lookup finds an active version that is not deleted and in force on the
      day, the one that started last, and nothing exactly when there is none. */
  lemma LookupMeaning(rows: seq<Pricing>, provider: string, model: string, day: int)
    ensures
      var r := GetForDate(rows, provider, model, day);
      && (r.Some? ==>
            && r.value in rows && r.value.active && !r.value.deleted
            && r.value.provider == provider && r.value.model == model && InForce(r.value, day))
      && (r.None? <==> forall i :: 0 <= i < |rows| ==>
            !(rows[i].active && !rows[i].deleted && rows[i].provider == provider && rows[i].model == model
              && InForce(rows[i], day)))
      && (r.Some? ==> forall i ::
            0 <= i < |rows| && rows[i].active && !rows[i].deleted && rows[i].provider == provider
            && rows[i].model == model && InForce(rows[i], day)
            ==> rows[i].effectiveFrom.value <= r.value.effectiveFrom.value)
  {
    GetForDateFinds(rows, provider, model, day);
  }

  predicate Candidate(p: Pricing, provider: string, model: string, day: int) {
    Version(p, provider, model) && p.active && p.effectiveFrom.Some? && Covers(p, day)
  }

  /** ORDER BY effective_from DESC LIMIT 1 over the candidates. */
  function GetForDate(rows: seq<Pricing>, provider: string, model: string, day: int): Option<Pricing> {
    if rows == [] then None else
      var rest := GetForDate(rows[1..], provider, model, day);
      if !Candidate(rows[0], provider, model, day) then rest
      else if rest.None? || rest.value.effectiveFrom.None?
        || rest.value.effectiveFrom.value <= rows[0].effectiveFrom.value
      then Some(rows[0]) else rest
  }

  lemma {:induction false} GetForDateFinds(rows: seq<Pricing>, provider: string, model: string, day: int)
    ensures var r := GetForDate(rows, provider, model, day);
            && (r.Some? ==> r.value in rows && Candidate(r.value, provider, model, day))
            && (r.None? ==> forall i :: 0 <= i < |rows| ==> !Candidate(rows[i], provider, model, day))
            && (r.Some? ==>
                  forall i :: 0 <= i < |rows| && Candidate(rows[i], provider, model, day)
                    ==> rows[i].effectiveFrom.value <= r.value.effectiveFrom.value)
  {
    if rows != [] { GetForDateFinds(rows[1..], provider, model, day); }
  }

  /** After any run the lookup has at most one candidate and returns it, so
      its ordering decides nothing. */
  lemma LookupIsUnambiguous(ops: seq<Op>, provider: string, model: string, day: int, k: nat)
    requires k < |Run(ops)|
    ensures Candidate(Run(ops)[k], provider, model, day)
            ==> GetForDate(Run(ops), provider, model, day) == Some(Run(ops)[k])
                && forall i :: 0 <= i < |Run(ops)| && i != k ==> !Candidate(Run(ops)[i], provider, model, day)
  {
    var rows := Run(ops);
    VersionsStayDisjoint(ops);
    GetForDateFinds(rows, provider, model, day);
    if Candidate(rows[k], provider, model, day) {
      forall i | 0 <= i < |rows| && i != k ensures !Candidate(rows[i], provider, model, day) {
        if Version(rows[i], provider, model) { CoveredOnce(rows[i], rows[k], day); }
      }
    }
  }

  lemma CoveredOnce(a: Pricing, b: Pricing, day: int)
    requires a.effectiveFrom.Some? && b.effectiveFrom.Some?
    requires !ShareDate(a, b) || !ShareDate(b, a)
    ensures !(Covers(a, day) && Covers(b, day))
  {
  }
}
