/** Sliding windows and account lockout on the per-process memory backend:
    LoginRateLimiter, EmailRateLimiter and ConnectionRateLimiter. */
module RateLimit {
  import opened Text

  const FAILURE_COUNT_TTL := 900.0

  /** [t for t in entries if t > cut] */
  function After(entries: seq<real>, cut: real): seq<real> {
    if entries == [] then [] else
      var init := After(entries[..|entries| - 1], cut);
      if entries[|entries| - 1] > cut then init + [entries[|entries| - 1]] else init
  }

  /** The three dictionaries of _MemoryBackend. */
  datatype Memory = Memory(windows: map<string, seq<real>>, lockouts: map<string, real>,
                           failures: map<string, (nat, real)>)

  function Entries(m: Memory, key: string): seq<real> { if key in m.windows then m.windows[key] else [] }

  datatype Config = Config(window: int, ipMax: int, maxFailures: nat, lockBase: int, lockMax: int)

  datatype Decision = Allowed | AccountLocked(retryAfter: int) | IpLimited(retryAfter: int)

  function IpKey(ip: string): string { "rl:login:ip:" + ip }
  function LockKey(email: string): string { "rl:login:lock:" + Lower(email) }
  function FailKey(email: string): string { "rl:login:fail:" + Lower(email) }

  function Pruned(m: Memory, key: string, cut: real): Memory {
    m.(windows := m.windows[key := After(Entries(m, key), cut)])
  }

  function Added(m: Memory, key: string, now: real): Memory {
    m.(windows := m.windows[key := Entries(m, key) + [now]])
  }

  /** get_lockout: an expired lock is dropped and reads as 0. */
  function LockedUntil(m: Memory, key: string, now: real): real {
    if key in m.lockouts && m.lockouts[key] > now then m.lockouts[key] else 0.0
  }

  function LockRead(m: Memory, key: string, now: real): Memory {
    if key in m.lockouts && m.lockouts[key] <= now then m.(lockouts := m.lockouts - {key}) else m
  }

  function Max(a: int, b: int): int { if a < b then b else a }
  function Min(a: int, b: int): int { if a < b then a else b }

  function CheckState(c: Config, m: Memory, now: real, ip: string, email: string): Memory {
    var m1 := LockRead(m, LockKey(email), now);
    if LockedUntil(m, LockKey(email), now) > now || ip == "" then m1 else
      var m2 := Pruned(m1, IpKey(ip), now - c.window as real);
      if |Entries(m2, IpKey(ip))| >= c.ipMax then m2 else Added(m2, IpKey(ip), now)
  }

  /** check(); an absent address is the empty string. */
  function CheckDecision(c: Config, m: Memory, now: real, ip: string, email: string): Decision {
    var until := LockedUntil(m, LockKey(email), now);
    if until > now then AccountLocked(Max(1, (until - now).Floor))
    else if ip != "" && |After(Entries(m, IpKey(ip)), now - c.window as real)| >= c.ipMax then IpLimited(c.window)
    else Allowed
  }

  /** get_failures, on the monotonic clock. */
  function FailureCount(m: Memory, key: string, mono: real): nat {
    if key !in m.failures then 0
    else if m.failures[key].1 != 0.0 && m.failures[key].1 < mono then 0 else m.failures[key].0
  }

  function Pow2(n: nat): nat { if n == 0 then 1 else 2 * Pow2(n - 1) }

  /** The lock after the n-th consecutive failure. */
  function LockDuration(c: Config, n: nat): int
    requires n >= c.maxFailures
  {
    Min(c.lockBase * Pow2(n - c.maxFailures), c.lockMax)
  }

  function FailureState(c: Config, m: Memory, now: real, mono: real, email: string): Memory {
    var n := FailureCount(m, FailKey(email), mono) + 1;
    var m1 := m.(failures := m.failures[FailKey(email) := (n, mono + FAILURE_COUNT_TTL)]);
    if n >= c.maxFailures then m1.(lockouts := m1.lockouts[LockKey(email) := now + LockDuration(c, n) as real]) else m1
  }

  function SuccessState(m: Memory, email: string): Memory {
    m.(failures := m.failures - {FailKey(email)})
  }

  class MemoryBackend {
    var windows: map<string, seq<real>>
    var lockouts: map<string, real>
    var failures: map<string, (nat, real)>

    ghost function State(): Memory
      reads this
    {
      Memory(windows, lockouts, failures)
    }

    constructor ()
      ensures State() == Memory(map[], map[], map[])
    {
      windows, lockouts, failures := map[], map[], map[];
    }

    method CountInWindow(key: string, now: real, window: int) returns (n: nat)
      modifies this`windows
      ensures State() == Pruned(old(State()), key, now - window as real)
      ensures n == |After(Entries(old(State()), key), now - window as real)|
    {
      var old_entries := if key in windows then windows[key] else [];
      var entries := [];
      for i := 0 to |old_entries|
        invariant entries == After(old_entries[..i], now - window as real)
      {
        assert old_entries[..i + 1][..i] == old_entries[..i];
        if old_entries[i] > now - window as real { entries := entries + [old_entries[i]]; }
      }
      assert old_entries[..|old_entries|] == old_entries;
      windows := windows[key := entries];
      n := |entries|;
    }

    method AddToWindow(key: string, now: real)
      modifies this`windows
      ensures State() == Added(old(State()), key, now)
    {
      windows := windows[key := (if key in windows then windows[key] else []) + [now]];
    }

    method GetLockout(key: string, now: real) returns (until: real)
      modifies this`lockouts
      ensures State() == LockRead(old(State()), key, now)
      ensures until == LockedUntil(old(State()), key, now)
    {
      until := if key in lockouts then lockouts[key] else 0.0;
      if until <= now {
        lockouts := lockouts - {key};
        until := 0.0;
      }
    }

    method IncrFailures(key: string, mono: real) returns (n: nat)
      modifies this`failures
      ensures n == FailureCount(old(State()), key, mono) + 1
      ensures failures == old(failures)[key := (n, mono + FAILURE_COUNT_TTL)]
    {
      var count := 0;
      if key in failures {
        if failures[key].1 != 0.0 && failures[key].1 < mono { failures := failures - {key}; }
        else { count := failures[key].0; }
      }
      n := count + 1;
      failures := failures[key := (n, mono + FAILURE_COUNT_TTL)];
    }
  }

  class LoginRateLimiter {
    const config: Config
    const memory: MemoryBackend

    constructor (config: Config)
      ensures this.config == config && fresh(memory) && memory.State() == Memory(map[], map[], map[])
    {
      this.config := config;
      memory := new MemoryBackend();
    }

    method Check(now: real, ip: string, email: string) returns (d: Decision)
      requires now >= 0.0
      modifies memory
      ensures memory.State() == CheckState(config, old(memory.State()), now, ip, email)
      ensures d == CheckDecision(config, old(memory.State()), now, ip, email)
    {
      var until := memory.GetLockout(LockKey(email), now);
      if until > now { return AccountLocked(Max(1, (until - now).Floor)); }
      if ip != "" {
        var attempts := memory.CountInWindow(IpKey(ip), now, config.window);
        if attempts >= config.ipMax { return IpLimited(config.window); }
        memory.AddToWindow(IpKey(ip), now);
      }
      return Allowed;
    }

    method RecordFailure(now: real, mono: real, email: string)
      modifies memory
      ensures memory.State() == FailureState(config, old(memory.State()), now, mono, email)
    {
      var n := memory.IncrFailures(FailKey(email), mono);
      if n >= config.maxFailures {
        memory.lockouts := memory.lockouts[LockKey(email) := now + LockDuration(config, n) as real];
      }
    }

    method RecordSuccess(email: string)
      modifies memory
      ensures memory.State() == SuccessState(old(memory.State()), email)
    {
      memory.failures := memory.failures - {FailKey(email)};
    }
  }

  // ---- The window bound, for one key ---------------------------------------------

  /** How many of the times lie in (from, to]. */
  function CountIn(s: seq<real>, from: real, to: real): nat {
    if s == [] then 0 else
      CountIn(s[..|s| - 1], from, to) + if from < s[|s| - 1] <= to then 1 else 0
  }

  /** Each entry, when it was made, was at most the max-th of its window. */
  ghost predicate Limited(history: seq<real>, window: real, max: int) {
    history == [] ||
    (Limited(history[..|history| - 1], window, max)
     && |After(history, history[|history| - 1] - window)| <= max)
  }

  lemma {:induction false} CountAtMostAfter(s: seq<real>, from: real, to: real, cut: real)
    requires cut <= from
    ensures CountIn(s, from, to) <= |After(s, cut)|
  {
    if s != [] { CountAtMostAfter(s[..|s| - 1], from, to, cut); }
  }

  /** Then no window (t - W, t] whatsoever contains more than max entries. */
  lemma {:induction false} LimitedEverywhere(history: seq<real>, window: real, max: nat, t: real)
    requires Limited(history, window, max)
    ensures CountIn(history, t - window, t) <= max
  {
    if history != [] {
      var last := history[|history| - 1];
      if last <= t {
        CountAtMostAfter(history, t - window, t, last - window);
      } else {
        LimitedEverywhere(history[..|history| - 1], window, max, t);
      }
    }
  }

  /** A check drops the account's own lock exactly when it has expired, and no other. */
  lemma ExpiredLockIsDropped(c: Config, m: Memory, now: real, ip: string, email: string)
    ensures
      var key, after := "rl:login:lock:" + Lower(email), CheckState(c, m, now, ip, email).lockouts;
      && (key in after <==> key in m.lockouts && m.lockouts[key] > now)
      && forall k :: k in m.lockouts && (k != key || k in after) ==> k in after && after[k] == m.lockouts[k]
  {
    hide After, Entries;
  }

  /** The entries kept are those that lie in the window. */
  lemma {:induction false} AfterCounts(s: seq<real>, cut: real, to: real)
    requires forall i :: 0 <= i < |s| ==> s[i] <= to
    ensures |After(s, cut)| == CountIn(s, cut, to)
  {
    if s != [] { AfterCounts(s[..|s| - 1], cut, to); }
  }

  lemma {:induction false} AfterAfter(s: seq<real>, a: real, b: real)
    requires a <= b
    ensures After(After(s, a), b) == After(s, b)
  {
    if s != [] {
      AfterAfter(s[..|s| - 1], a, b);
      var init := After(s[..|s| - 1], a);
      if s[|s| - 1] > a { assert (init + [s[|s| - 1]])[..|init|] == init; }
    }
  }

  /** The kept entries agree with the whole history on every window from `since` on. */
  ghost predicate Covers(entries: seq<real>, history: seq<real>, since: real) {
    forall cut :: cut >= since ==> After(entries, cut) == After(history, cut)
  }

  lemma CoverAt(entries: seq<real>, history: seq<real>, since: real)
    requires Covers(entries, history, since)
    ensures After(entries, since) == After(history, since)
  {
  }

  lemma CoversLater(entries: seq<real>, history: seq<real>, since: real, later: real)
    requires Covers(entries, history, since) && since <= later
    ensures Covers(entries, history, later)
  {
  }

  lemma PruneKeepsCover(entries: seq<real>, history: seq<real>, since: real, cut: real)
    requires Covers(entries, history, since) && since <= cut
    ensures Covers(After(entries, cut), history, cut)
  {
    forall c | c >= cut ensures After(After(entries, cut), c) == After(history, c) {
      AfterAfter(entries, cut, c);
    }
  }

  lemma AddKeepsCover(entries: seq<real>, history: seq<real>, since: real, t: real)
    requires Covers(entries, history, since)
    ensures Covers(entries + [t], history + [t], since)
  {
    assert (entries + [t])[..|entries|] == entries && (history + [t])[..|history|] == history;
  }

  lemma AfterAppend(s: seq<real>, t: real, cut: real)
    ensures After(s + [t], cut) == After(s, cut) + if t > cut then [t] else []
  {
    assert (s + [t])[..|s|] == s;
  }

  lemma AllowKeepsLimited(history: seq<real>, now: real, window: real, max: int)
    requires Limited(history, window, max) && |After(history, now - window)| < max
    ensures Limited(history + [now], window, max)
  {
    AfterAppend(history, now, now - window);
    hide After;
    assert (history + [now])[..|history|] == history;
  }

  // ---- Runs of the login limiter -----------------------------------------------------

  datatype Op =
    | Check(now: real, ip: string, email: string)
    | Failure(now: real, mono: real, email: string)
    | Success(now: real, email: string)

  function Step(c: Config, m: Memory, op: Op): Memory {
    match op
    case Check(now, ip, email) => CheckState(c, m, now, ip, email)
    case Failure(now, mono, email) => FailureState(c, m, now, mono, email)
    case Success(_, email) => SuccessState(m, email)
  }

  function Run(c: Config, ops: seq<Op>): Memory {
    if ops == [] then Memory(map[], map[], map[]) else Step(c, Run(c, ops[..|ops| - 1]), ops[|ops| - 1])
  }

  /** The times at which an address was let through. */
  function LetThrough(c: Config, ops: seq<Op>, ip: string): seq<real> {
    if ops == [] then [] else
      var before := LetThrough(c, ops[..|ops| - 1], ip);
      match ops[|ops| - 1]
      case Check(now, i, email) =>
        if i == ip && CheckDecision(c, Run(c, ops[..|ops| - 1]), now, i, email) == Allowed then before + [now]
          else before
      case _ => before
  }

  ghost predicate ClockAdvances(ops: seq<Op>) {
    forall i :: 0 <= i < |ops| - 1 ==> ops[i].now <= ops[i + 1].now
  }

  lemma IpKeysDiffer(a: string, b: string)
    ensures IpKey(a) == IpKey(b) <==> a == b
  {
    assert IpKey(a)[|"rl:login:ip:"|..] == a && IpKey(b)[|"rl:login:ip:"|..] == b;
  }

  lemma CoversNothing(since: real)
    ensures Covers([], [], since)
  {
  }

  /** What one step does to the stored entries of an address. */
  lemma StepOnEntries(c: Config, m: Memory, op: Op, ip: string)
    requires ip != ""
    ensures
      var entries := Entries(m, IpKey(ip));
      var kept := After(entries, op.now - c.window as real);
      var mine := op.Check? && op.ip == ip;
      Entries(Step(c, m, op), IpKey(ip))
      == if mine && CheckDecision(c, m, op.now, ip, op.email) == Allowed then kept + [op.now]
         else if mine && CheckDecision(c, m, op.now, ip, op.email).IpLimited? then kept
         else entries
    ensures op.Check? && CheckDecision(c, m, op.now, ip, op.email) == Allowed ==>
      |After(Entries(m, IpKey(ip)), op.now - c.window as real)| < c.ipMax
  {
    hide After;
    if op.Check? { IpKeysDiffer(op.ip, ip); hide IpKey; }
  }

  lemma StepOnHistory(entries: seq<real>, history: seq<real>, now: real, window: real, max: int)
    requires Covers(entries, history, now - window) && Limited(history, window, max)
    ensures Covers(After(entries, now - window), history, now - window)
    ensures Covers(After(entries, now - window) + [now], history + [now], now - window)
    ensures |After(entries, now - window)| < max ==> Limited(history + [now], window, max)
  {
    hide *;
    var since := now - window;
    CoverAt(entries, history, since);
    PruneKeepsCover(entries, history, since, since);
    AddKeepsCover(After(entries, since), history, since, now);
    if |After(entries, since)| < max { AllowKeepsLimited(history, now, window, max); }
  }

  /** One step on an address's entries and on its history. */
  lemma StepOnAddress(c: Config, m: Memory, op: Op, ip: string, history: seq<real>)
    requires ip != ""
    requires Covers(Entries(m, IpKey(ip)), history, op.now - c.window as real)
    requires Limited(history, c.window as real, c.ipMax)
    ensures
      var history' := if op.Check? && op.ip == ip && CheckDecision(c, m, op.now, ip, op.email) == Allowed
                      then history + [op.now] else history;
      && Limited(history', c.window as real, c.ipMax)
      && Covers(Entries(Step(c, m, op), IpKey(ip)), history', op.now - c.window as real)
  {
    hide *;
    StepOnEntries(c, m, op, ip);
    StepOnHistory(Entries(m, IpKey(ip)), history, op.now, c.window as real, c.ipMax);
  }

  lemma {:induction false} WindowInvariant(c: Config, ops: seq<Op>, ip: string)
    requires ClockAdvances(ops) && ip != ""
    ensures Limited(LetThrough(c, ops, ip), c.window as real, c.ipMax)
    ensures ops != [] ==> Covers(Entries(Run(c, ops), IpKey(ip)), LetThrough(c, ops, ip),
      ops[|ops| - 1].now - c.window as real)
    decreases |ops|
  {
    if ops != [] {
      var init, op := ops[..|ops| - 1], ops[|ops| - 1];
      WindowInvariant(c, init, ip);
      var m, history := Run(c, init), LetThrough(c, init, ip);
      assert init != [] ==> init[|init| - 1] == ops[|ops| - 2] && ops[|ops| - 2].now <= ops[|ops| - 2 + 1].now;
      hide Limited, Covers, Step, After;
      if init == [] { CoversNothing(op.now - c.window as real); }
      else { CoversLater(Entries(m, IpKey(ip)), history, init[|init| - 1].now - c.window as real,
        op.now - c.window as real); }
      StepOnAddress(c, m, op, ip, history);
    }
  }

  /** On a clock that never goes back, in every window (t - W, t] an address is
      let through at most ip_max_attempts times, whatever else happens. */
  lemma LoginWindowBound(c: Config, ops: seq<Op>, ip: string, t: real)
    requires ClockAdvances(ops) && ip != "" && c.ipMax >= 0
    ensures CountIn(LetThrough(c, ops, ip), t - c.window as real, t) <= c.ipMax
  {
    hide *;
    WindowInvariant(c, ops, ip);
    LimitedEverywhere(LetThrough(c, ops, ip), c.window as real, c.ipMax, t);
  }
}
