/** The provider HTTP client: error mapping, backoff and the retry loop. */
module HttpRetry {
  import opened Outcomes

  datatype ProviderError =
    | RateLimited(retryAfter: Option<real>)
    | Network
    | Internal
    | InvalidRequest
    | Authentication
    | Unexpected

  predicate Retryable(e: ProviderError) { e.RateLimited? || e.Network? || e.Internal? }

  /** One transport call: an httpx error, or a response with its Retry-After
      and whether its body is JSON. */
  datatype Attempt = TransportError | Response(status: int, retryAfter: Option<real>, json: bool)

  predicate IsSuccess(status: int) { 200 <= status <= 299 }

  function MapHttpError(status: int, retryAfter: Option<real>): ProviderError {
    if status == 400 || status == 404 || status == 409 || status == 422 then InvalidRequest
    else if status == 401 || status == 403 then Authentication
    else if status == 408 || status == 504 then Network
    else if status == 429 then RateLimited(retryAfter)
    else if status == 500 || status == 502 || status == 503 then Internal
    else Unexpected
  }

  /** What an attempt yields when it is the last one. A success whose body is
      not JSON is an internal error, but one that is never retried. */
  function Outcome(a: Attempt): Result<(), ProviderError> {
    match a
    case TransportError => Err(Network)
    case Response(status, retryAfter, json) =>
      if !IsSuccess(status) then Err(MapHttpError(status, retryAfter))
      else if json then Ok(()) else Err(Internal)
  }

  datatype Backoff = Fixed | Linear | Exponential | Jitter

  datatype Config = Config(maxAttempts: int, initialDelay: real, maxDelay: real, backoff: Backoff, multiplier: real)

  function Power(x: real, n: nat): real { if n == 0 then 1.0 else x * Power(x, n - 1) }

  function MinReal(a: real, b: real): real { if a < b then a else b }

  function Exponent(c: Config, attempt: nat): real
    requires attempt >= 1
  {
    c.initialDelay * Power(c.multiplier, attempt - 1)
  }

  function Jittered(base: real, random: real): real { base * (0.5 + random * 0.5) }

  /** The backoff before it is capped; `random` is the draw of random.random(). */
  function Uncapped(c: Config, attempt: nat, random: real): real
    requires attempt >= 1
  {
    match c.backoff
    case Fixed => c.initialDelay
    case Linear => c.initialDelay * attempt as real
    case Exponential => Exponent(c, attempt)
    case Jitter => Jittered(Exponent(c, attempt), random)
  }

  /** get_delay */
  function GetDelay(c: Config, attempt: nat, random: real): real
    requires attempt >= 1
  {
    MinReal(Uncapped(c, attempt, random), c.maxDelay)
  }

  predicate ShouldRetry(c: Config, attempt: nat, e: ProviderError) {
    attempt < c.maxAttempts && Retryable(e)
  }

  /** The loop goes round again after this attempt. */
  predicate Retried(c: Config, n: nat, a: Attempt) {
    n < c.maxAttempts && (a.TransportError?
      || (!IsSuccess(a.status) && Retryable(MapHttpError(a.status, a.retryAfter))))
  }

  /** How long it sleeps before that: Retry-After, capped, wins over the backoff. */
  function Sleep(c: Config, n: nat, a: Attempt, random: real): real
    requires n >= 1
  {
    if a.Response? && a.status == 429 && a.retryAfter.Some? then MinReal(a.retryAfter.value, c.maxDelay)
    else GetDelay(c, n, random)
  }

  function Max(a: int, b: int): int { if a < b then b else a }

  method Request(c: Config, transport: nat -> Attempt, random: nat -> real)
      returns (r: Result<(), ProviderError>, calls: nat, sleeps: seq<real>)
    ensures 1 <= calls <= Max(1, c.maxAttempts)
    ensures !Retried(c, calls, transport(calls)) && forall n :: 1 <= n < calls ==> Retried(c, n, transport(n))
    ensures r == Outcome(transport(calls))
    ensures |sleeps| == calls - 1
    ensures forall n :: 1 <= n < calls ==> sleeps[n - 1] == Sleep(c, n, transport(n), random(n))
    ensures forall i :: 0 <= i < |sleeps| ==> sleeps[i] <= c.maxDelay
    ensures c.maxDelay >= 0.0 ==> Sum(sleeps) <= (Max(1, c.maxAttempts) - 1) as real * c.maxDelay
  {
    hide Sum;
    calls, sleeps := 0, [];
    while true
      invariant calls <= Max(0, c.maxAttempts - 1) && |sleeps| == calls
      invariant forall n ::
        1 <= n <= calls ==> Retried(c, n, transport(n)) && sleeps[n - 1] == Sleep(c, n, transport(n), random(n))
      invariant forall i :: 0 <= i < |sleeps| ==> sleeps[i] <= c.maxDelay
      decreases c.maxAttempts - calls
    {
      if c.maxDelay >= 0.0 { TotalSleep(c, sleeps); }
      calls := calls + 1;
      var attempt := transport(calls);
      if attempt.TransportError? {
        if ShouldRetry(c, calls, Network) {
          sleeps := sleeps + [GetDelay(c, calls, random(calls))];
          continue;
        }
        return Err(Network), calls, sleeps;
      }
      if !IsSuccess(attempt.status) {
        var e := MapHttpError(attempt.status, attempt.retryAfter);
        if ShouldRetry(c, calls, e) {
          var delay;
          if e.RateLimited? && e.retryAfter.Some? { delay := MinReal(e.retryAfter.value, c.maxDelay); }
          else { delay := GetDelay(c, calls, random(calls)); }
          sleeps := sleeps + [delay];
          continue;
        }
        return Err(e), calls, sleeps;
      }
      return if attempt.json then Ok(()) else Err(Internal), calls, sleeps;
    }
  }

  /** What the last attempt means to the caller. */
  lemma OutcomeMeaning(a: Attempt)
    ensures
      var good := a.Response? && 200 <= a.status <= 299;
      && (Outcome(a).Ok? <==> good && a.json)
      && (Outcome(a) == Err(Internal) <==> (good && !a.json) || (a.Response? && a.status in {500, 502, 503}))
      && (Outcome(a) == Err(Network) <==> a.TransportError? || a.status in {408, 504})
      && (Outcome(a) == Err(InvalidRequest) <==> a.Response? && a.status in {400, 404, 409, 422})
      && (Outcome(a) == Err(Authentication) <==> a.Response? && a.status in {401, 403})
      && (a.Response? && a.status == 429 ==> Outcome(a) == Err(RateLimited(a.retryAfter)))
      && (Outcome(a).Err? && Outcome(a).error.RateLimited? ==> a.Response? && a.status == 429)
  {
  }

  /** base, times the multiplier k times over. */
  function Scaled(base: real, multiplier: real, k: nat): real {
    if k == 0 then base else Scaled(base, multiplier, k - 1) * multiplier
  }

  lemma {:induction false} ScalingIsPower(base: real, x: real, k: nat)
    ensures Scaled(base, x, k) == base * Power(x, k)
  {
    if k > 0 {
      ScalingIsPower(base, x, k - 1);
      assert base * Power(x, k) == base * Power(x, k - 1) * x;
    }
  }

  /** A capped Retry-After wins over the backoff. */
  lemma RetryAfterWins(c: Config, n: nat, a: Attempt, random: real)
    requires n >= 1
    ensures Sleep(c, n, a, random)
      == if a.Response? && a.status == 429 && a.retryAfter.Some? then Least(a.retryAfter.value, c.maxDelay)
         else GetDelay(c, n, random)
  {
    hide Uncapped;
  }

  /** The backoff after attempt n, and never longer than the cap. */
  lemma BackoffMeaning(c: Config, n: nat, random: real)
    requires n >= 1
    ensures
      var d, scaled := GetDelay(c, n, random), Scaled(c.initialDelay, c.multiplier, n - 1);
      match c.backoff
      case Fixed => d == Least(c.initialDelay, c.maxDelay)
      case Linear => d == Least(c.initialDelay * n as real, c.maxDelay)
      case Exponential => d == Least(scaled, c.maxDelay)
      case Jitter => d == Least(scaled * ((1.0 + random) / 2.0), c.maxDelay)
  {
    DelayIsCapped(c, n, random);
    ExponentIsScaled(c, n);
    HalfToWhole(Scaled(c.initialDelay, c.multiplier, n - 1), random);
    hide Exponent, Scaled, Jittered, GetDelay, Least;
  }

  lemma DelayIsCapped(c: Config, n: nat, random: real)
    requires n >= 1
    ensures GetDelay(c, n, random) == Least(Uncapped(c, n, random), c.maxDelay)
  {
    hide Uncapped;
  }

  lemma ExponentIsScaled(c: Config, n: nat)
    requires n >= 1
    ensures Exponent(c, n) == Scaled(c.initialDelay, c.multiplier, n - 1)
  {
    ScalingIsPower(c.initialDelay, c.multiplier, n - 1);
    hide Power, Scaled;
  }

  lemma HalfToWhole(base: real, random: real)
    ensures Jittered(base, random) == base * ((1.0 + random) / 2.0)
  {
    assert 0.5 + random * 0.5 == (1.0 + random) / 2.0;
  }

  function Least(a: real, b: real): real { if a <= b then a else b }

  /** Below the attempt limit, and only there, a transport error is retried, and
      a response exactly for these statuses. */
  lemma RetriedStatuses(c: Config, n: nat, a: Attempt)
    ensures Retried(c, n, a)
            <==> n < c.maxAttempts && (a.TransportError? || a.status in {408, 429, 500, 502, 503, 504})
  {
  }

  function Sum(s: seq<real>): real { if s == [] then 0.0 else s[0] + Sum(s[1..]) }

  lemma {:induction false} SumBound(s: seq<real>, n: nat, cap: real)
    requires |s| <= n && cap >= 0.0 && forall i :: 0 <= i < |s| ==> s[i] <= cap
    ensures Sum(s) <= n as real * cap
    decreases |s|
  {
    if s != [] {
      SumBound(s[1..], n - 1, cap);
      assert n as real == (n - 1) as real + 1.0;
      assert n as real * cap == (n - 1) as real * cap + cap;
    }
  }

  lemma TotalSleep(c: Config, sleeps: seq<real>)
    requires forall i :: 0 <= i < |sleeps| ==> sleeps[i] <= c.maxDelay
    requires |sleeps| < Max(1, c.maxAttempts) && c.maxDelay >= 0.0
    ensures Sum(sleeps) <= (Max(1, c.maxAttempts) - 1) as real * c.maxDelay
  {
    SumBound(sleeps, Max(1, c.maxAttempts) - 1, c.maxDelay);
  }

  lemma {:induction false} PowerGrows(x: real, m: nat, n: nat)
    requires x >= 1.0 && m <= n
    ensures 1.0 <= Power(x, m) <= Power(x, n)
  {
    if n > 0 {
      if m == n {
        PowerGrows(x, m - 1, n - 1);
        ScaleUp(1.0, Power(x, m - 1), x);
      } else {
        PowerGrows(x, m, n - 1);
        ScaleUp(1.0, x, Power(x, n - 1));
      }
    }
  }

  lemma ScaleUp(a: real, b: real, x: real)
    requires a <= b && x >= 0.0
    ensures x * a <= x * b && a * x <= b * x
  {
  }

  lemma ExponentGrows(c: Config, m: nat, n: nat)
    requires 1 <= m <= n && c.initialDelay >= 0.0 && c.multiplier >= 1.0
    ensures 0.0 <= Exponent(c, m) <= Exponent(c, n)
  {
    PowerGrows(c.multiplier, m - 1, n - 1);
    ScaleUp(0.0, c.initialDelay, Power(c.multiplier, m - 1));
    ScaleUp(Power(c.multiplier, m - 1), Power(c.multiplier, n - 1), c.initialDelay);
  }

  /** Without jitter the waits never shrink from one attempt to a later one. */
  lemma DelaysGrow(c: Config, m: nat, n: nat, r: real, s: real)
    requires 1 <= m <= n && !c.backoff.Jitter? && c.initialDelay >= 0.0 && c.multiplier >= 1.0
    ensures GetDelay(c, m, r) <= GetDelay(c, n, s)
  {
    ExponentGrows(c, m, n);
    ScaleUp(m as real, n as real, c.initialDelay);
    hide Exponent;
    assert Uncapped(c, m, r) <= Uncapped(c, n, s);
  }

  /** Jitter waits between half of the exponential delay and all of it. */
  lemma JitterStaysInBand(c: Config, n: nat, random: real)
    requires n >= 1 && c.backoff.Jitter? && 0.0 <= random < 1.0
    requires c.initialDelay >= 0.0 && c.multiplier >= 1.0 && c.maxDelay >= 0.0
    ensures
      var full := GetDelay(c.(backoff := Exponential), n, random);
      full * 0.5 <= GetDelay(c, n, random) <= full
  {
    ExponentGrows(c, n, n);
    assert Exponent(c.(backoff := Exponential), n) == Exponent(c, n);
    JitterShare(Exponent(c, n), random);
    hide Exponent, Jittered;
    MinInBand(Exponent(c, n), Uncapped(c, n, random), c.maxDelay);
  }

  lemma JitterShare(base: real, random: real)
    requires base >= 0.0 && 0.0 <= random < 1.0
    ensures base * 0.5 <= Jittered(base, random) <= base
  {
    ScaleUp(0.0, random, base);
    ScaleUp(random, 1.0, base);
  }

  lemma MinInBand(base: real, delay: real, cap: real)
    requires 0.0 <= base * 0.5 <= delay <= base && cap >= 0.0
    ensures MinReal(base, cap) * 0.5 <= MinReal(delay, cap) <= MinReal(base, cap)
  {
  }
}
