/** PricingEngine.calculate_cost. A Decimal with ten fractional digits is an
    integer in units of 10^-10; one unit of the computed costs is 100. */
module PricingEngine {
  import opened Outcomes

  const UNIT := 100
  /** 1.5e-8 */
  const MAX_ERROR := 150

  /** quantize(Decimal("0.00000001"), ROUND_HALF_UP): to the nearest multiple,
      ties away from zero. */
  function Quantize(x: int): int {
    if x >= 0 then (x + UNIT / 2) / UNIT * UNIT else -((-x + UNIT / 2) / UNIT * UNIT)
  }

  datatype Prices = Prices(prompt: int, completion: int, cached: Option<int>)

  datatype Usage = Usage(prompt: int, completion: int, cached: Option<int>)

  datatype Cost = Cost(prompt: int, completion: int, cached: Option<int>, total: int)

  function OrZero(x: Option<int>): int { if x.Some? then x.value else 0 }

  function CalculateCost(p: Prices, u: Usage): Cost {
    var prompt := Quantize(u.prompt * p.prompt);
    var completion := Quantize(u.completion * p.completion);
    var cached := if u.cached.Some? && p.cached.Some? then Some(Quantize(u.cached.value * p.cached.value)) else None;
    Cost(prompt, completion, cached, Quantize(prompt + completion + OrZero(cached)))
  }

  /** The cost before any rounding. */
  function Exact(p: Prices, u: Usage): int {
    u.prompt * p.prompt + u.completion * p.completion
    + if u.cached.Some? && p.cached.Some? then u.cached.value * p.cached.value else 0
  }

  function Abs(x: int): nat { if x < 0 then -x else x }

  predicate Rounded(x: int) { x % UNIT == 0 }

  lemma NearestMultiple(x: nat, q: nat)
    requires q == (x + UNIT / 2) / UNIT * UNIT
    ensures Rounded(q) && x - UNIT / 2 < q <= x + UNIT / 2
    ensures Rounded(x) ==> q == x
  {
  }

  /** Rounding goes to the nearest representable cost, ties away from zero. */
  lemma QuantizeIsNearest(x: int)
    ensures Rounded(Quantize(x)) && Abs(Quantize(x) - x) <= UNIT / 2
    ensures Abs(Quantize(x) - x) == UNIT / 2 ==> Abs(Quantize(x)) > Abs(x)
    ensures Rounded(x) ==> Quantize(x) == x
  {
    var q := Quantize(x);
    if x >= 0 {
      assert q == (x + UNIT / 2) / UNIT * UNIT;
      hide Quantize, Rounded;
      NearestMultiple(x, q);
    } else {
      assert -q == (-x + UNIT / 2) / UNIT * UNIT;
      hide Quantize, Rounded;
      NearestMultiple(-x, -q);
      NegativeRounded(q);
      NegativeRounded(x);
    }
  }

  lemma NegativeRounded(x: int)
    ensures Rounded(-x) <==> Rounded(x)
  {
  }

  lemma QuantizeIsMonotone(x: int, y: int)
    requires x <= y
    ensures Quantize(x) <= Quantize(y)
  {
  }

  /** x is rounded to q: a multiple of 1e-8, nearest, and away from zero from half way. */
  ghost predicate RoundedTo(x: int, q: int) {
    && q % 100 == 0
    && (x >= 0 ==> x - 50 < q <= x + 50)
    && (x < 0 ==> x - 50 <= q < x + 50)
  }

  /** Each part is its own product, rounded; there is a cached part exactly when
      both the cached count and the cached price are known. */
  lemma PartsAreRounded(p: Prices, u: Usage)
    ensures
      var c := CalculateCost(p, u);
      && RoundedTo(u.prompt * p.prompt, c.prompt)
      && RoundedTo(u.completion * p.completion, c.completion)
      && (c.cached.Some? <==> u.cached.Some? && p.cached.Some?)
      && (c.cached.Some? ==> RoundedTo(u.cached.value * p.cached.value, c.cached.value))
  {
    var c := CalculateCost(p, u);
    QuantizeRounds(u.prompt * p.prompt);
    QuantizeRounds(u.completion * p.completion);
    if u.cached.Some? && p.cached.Some? { QuantizeRounds(u.cached.value * p.cached.value); }
    hide Quantize, RoundedTo;
  }

  lemma QuantizeRounds(x: int)
    ensures RoundedTo(x, Quantize(x))
  {
    QuantizeIsNearest(x);
    var q := Quantize(x);
    if x >= 0 { NearestMultiple(x, q); } else { NearestMultiple(-x, -q); }
    hide Quantize;
  }

  /** The final quantize changes nothing: the total is the sum of its parts. */
  lemma TotalIsSumOfParts(p: Prices, u: Usage)
    ensures var c := CalculateCost(p, u); c.total == c.prompt + c.completion + OrZero(c.cached)
  {
    var c := CalculateCost(p, u);
    QuantizeIsNearest(u.prompt * p.prompt);
    QuantizeIsNearest(u.completion * p.completion);
    if c.cached.Some? { QuantizeIsNearest(u.cached.value * p.cached.value); }
    SumIsRounded(c.prompt, c.completion, OrZero(c.cached));
    QuantizeIsNearest(c.prompt + c.completion + OrZero(c.cached));
  }

  lemma SumIsRounded(a: int, b: int, c: int)
    requires Rounded(a) && Rounded(b) && Rounded(c)
    ensures Rounded(a + b + c)
  {
  }

  /** The total is within 1.5e-8 of the exact cost, 1e-8 without a cached part. */
  lemma TotalIsClose(p: Prices, u: Usage)
    ensures Abs(CalculateCost(p, u).total - Exact(p, u)) <= MAX_ERROR
    ensures CalculateCost(p, u).cached.None? ==> Abs(CalculateCost(p, u).total - Exact(p, u)) <= UNIT
  {
    TotalIsSumOfParts(p, u);
    QuantizeIsNearest(u.prompt * p.prompt);
    QuantizeIsNearest(u.completion * p.completion);
    if u.cached.Some? && p.cached.Some? { QuantizeIsNearest(u.cached.value * p.cached.value); }
  }

  /** Both bounds are reached. */
  lemma BoundsAreTight()
    ensures var p, u := Prices(50, 50, Some(50)), Usage(1, 1, Some(1));
            CalculateCost(p, u).total - Exact(p, u) == MAX_ERROR
    ensures var p, u := Prices(50, 50, None), Usage(1, 1, Some(1));
            CalculateCost(p, u).total - Exact(p, u) == UNIT
  {
  }

  lemma ProductIsMonotone(a: int, b: int, price: int)
    requires a <= b && price >= 0
    ensures a * price <= b * price
  {
  }

  /** Without a cached price or count the cached part is the cost of no tokens. */
  lemma CachedPart(p: Prices, u: Usage)
    ensures OrZero(CalculateCost(p, u).cached) == Quantize(OrZero(u.cached) * OrZero(p.cached))
  {
    if u.cached.None? || p.cached.None? { QuantizeIsNearest(0); }
  }

  /** With prices that are not negative, more tokens never cost less; no cached
      count is as good as a count of zero, so one may also appear. */
  lemma TotalIsMonotone(p: Prices, u: Usage, v: Usage)
    requires p.prompt >= 0 && p.completion >= 0 && OrZero(p.cached) >= 0
    requires u.prompt <= v.prompt && u.completion <= v.completion
    requires OrZero(u.cached) <= OrZero(v.cached)
    ensures CalculateCost(p, u).total <= CalculateCost(p, v).total
  {
    ProductIsMonotone(u.prompt, v.prompt, p.prompt);
    ProductIsMonotone(u.completion, v.completion, p.completion);
    ProductIsMonotone(OrZero(u.cached), OrZero(v.cached), OrZero(p.cached));
    QuantizeIsMonotone(u.prompt * p.prompt, v.prompt * p.prompt);
    QuantizeIsMonotone(u.completion * p.completion, v.completion * p.completion);
    QuantizeIsMonotone(OrZero(u.cached) * OrZero(p.cached), OrZero(v.cached) * OrZero(p.cached));
    CachedPart(p, u);
    CachedPart(p, v);
    TotalIsSumOfParts(p, u);
    TotalIsSumOfParts(p, v);
  }

  function SumOfTotals(events: seq<(Prices, Usage)>): int {
    if events == [] then 0 else CalculateCost(events[0].0, events[0].1).total + SumOfTotals(events[1..])
  }

  function SumOfExact(events: seq<(Prices, Usage)>): int {
    if events == [] then 0 else Exact(events[0].0, events[0].1) + SumOfExact(events[1..])
  }

  /** Errors only add up linearly: n events are off by at most n * 1.5e-8. */
  lemma {:induction false} BatchIsClose(events: seq<(Prices, Usage)>)
    ensures Abs(SumOfTotals(events) - SumOfExact(events)) <= |events| * MAX_ERROR
  {
    if events != [] {
      hide CalculateCost, Exact;
      TotalIsClose(events[0].0, events[0].1);
      BatchIsClose(events[1..]);
    }
  }
}
