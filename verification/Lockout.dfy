/** Exponential lockout, over whole runs of the login limiter. */
module Lockout {
  import opened Text
  import opened RateLimit

  lemma {:induction false} Pow2Grows(m: nat, n: nat)
    requires m <= n
    ensures 1 <= Pow2(m) <= Pow2(n)
  {
    if n > 0 { if m == n { Pow2Grows(m - 1, n - 1); } else { Pow2Grows(m, n - 1); } }
  }

  /** The lock never shortens as the streak grows, and never exceeds the cap. */
  lemma LockGrows(c: Config, m: nat, n: nat)
    requires c.maxFailures <= m <= n && c.lockBase >= 0
    ensures LockDuration(c, m) <= LockDuration(c, n) <= c.lockMax
  {
    Pow2Grows(m - c.maxFailures, n - c.maxFailures);
    Times(c.lockBase, Pow2(m - c.maxFailures), Pow2(n - c.maxFailures));
  }

  /** base, doubled k times. */
  function Doubled(base: int, k: nat): int { if k == 0 then base else Doubled(base, k - 1) * 2 }

  lemma {:induction false} DoublingIsPower(base: int, k: nat)
    ensures Doubled(base, k) == base * Pow2(k)
  {
    if k > 0 { DoublingIsPower(base, k - 1); }
  }

  /** The first lock is the base, each further failure doubles it, and the cap cuts it. */
  lemma LockIsDoubled(c: Config, n: nat)
    requires n >= c.maxFailures
    ensures LockDuration(c, n) == Smaller(Doubled(c.lockBase, n - c.maxFailures), c.lockMax)
  {
    DoublingIsPower(c.lockBase, n - c.maxFailures);
  }

  function Smaller(a: int, b: int): int { if a <= b then a else b }

  /** With the defaults, the locks from the fifth failure on. */
  lemma DefaultLocks(c: Config)
    requires c.maxFailures == 5 && c.lockBase == 30 && c.lockMax == 900
    ensures LockDuration(c, 5) == 30 && LockDuration(c, 6) == 60 && LockDuration(c, 7) == 120
    ensures LockDuration(c, 8) == 240 && LockDuration(c, 9) == 480
    ensures forall n :: n >= 10 ==> LockDuration(c, n) == 900
  {
    LockIsDoubled(c, 5);
    LockIsDoubled(c, 6);
    LockIsDoubled(c, 7);
    LockIsDoubled(c, 8);
    LockIsDoubled(c, 9);
    hide LockDuration;
    assert Doubled(30, 1) == 60 && Doubled(30, 2) == 120 && Doubled(30, 3) == 240 && Doubled(30, 4) == 480;
    forall n | n >= 10 ensures LockDuration(c, n) == 900 {
      LockIsDoubled(c, n);
      DoubledGrows(30, 5, n - 5);
      assert Doubled(30, 5) == 960;
    }
  }

  lemma {:induction false} DoubledGrows(base: int, m: nat, n: nat)
    requires base >= 0 && m <= n
    ensures 0 <= Doubled(base, m) <= Doubled(base, n)
  {
    if n > 0 { if m == n { DoubledGrows(base, m - 1, n - 1); } else { DoubledGrows(base, m, n - 1); } }
  }

  lemma Times(a: int, x: int, y: int)
    requires a >= 0 && x <= y
    ensures a * x <= a * y
  {
  }

  // ---- The streak ---------------------------------------------------------------------------------

  /** The failures of the account that count at this moment, read off the history
      alone: those since its last success, as long as no two of them, nor the last
      and now, are further apart than the counter lives. */
  function Streak(ops: seq<Op>, email: string, mono: real): nat {
    if ops == [] then 0 else
      var init := ops[..|ops| - 1];
      match ops[|ops| - 1]
      case Failure(_, at, e) =>
        if Lower(e) != Lower(email) then Streak(init, email, mono)
        else if at + 900.0 < mono then 0
        else Streak(init, email, at) + 1
      case Success(_, e) => if Lower(e) == Lower(email) then 0 else Streak(init, email, mono)
      case _ => Streak(init, email, mono)
  }

  /** The monotonic clock is not negative. */
  ghost predicate ProperClock(ops: seq<Op>) {
    forall i :: 0 <= i < |ops| && ops[i].Failure? ==> ops[i].mono >= 0.0
  }

  lemma FailKeysDiffer(a: string, b: string)
    ensures FailKey(a) == FailKey(b) <==> Lower(a) == Lower(b)
    ensures LockKey(a) == LockKey(b) <==> Lower(a) == Lower(b)
  {
    assert FailKey(a)[|"rl:login:fail:"|..] == Lower(a) && FailKey(b)[|"rl:login:fail:"|..] == Lower(b);
    assert LockKey(a)[|"rl:login:lock:"|..] == Lower(a) && LockKey(b)[|"rl:login:lock:"|..] == Lower(b);
  }

  /** What one step does to the failure counter of an account. */
  lemma StepOnFailures(c: Config, m: Memory, op: Op, email: string, mono: real)
    requires op.Failure? ==> op.mono >= 0.0
    ensures FailureCount(Step(c, m, op), FailKey(email), mono)
      == if op.Failure? && Lower(op.email) == Lower(email) then
           (if op.mono + FAILURE_COUNT_TTL < mono then 0 else FailureCount(m, FailKey(email), op.mono) + 1)
         else if op.Success? && Lower(op.email) == Lower(email) then 0
         else FailureCount(m, FailKey(email), mono)
  {
    FailKeysDiffer(op.email, email);
    hide FailKey, LockKey, Lower, Entries, After, IpKey;
  }

  /** In every run, whatever else it holds, the counter is the streak: a success
      clears it, a lapse restarts it, and other accounts do not touch it. */
  lemma {:induction false} CounterIsStreak(c: Config, ops: seq<Op>, email: string, mono: real)
    requires ProperClock(ops)
    ensures FailureCount(Run(c, ops), FailKey(email), mono) == Streak(ops, email, mono)
    decreases |ops|
  {
    if ops != [] {
      var init, op := ops[..|ops| - 1], ops[|ops| - 1];
      assert ProperClock(init);
      StepOnFailures(c, Run(c, init), op, email, mono);
      CounterIsStreak(c, init, email, if op.Failure? && Lower(op.email) == Lower(email) then op.mono else mono);
      hide FailureCount, Step, Lower, FailKey, ProperClock;
    }
  }

  /** Failures of one account, each within the life of the counter the one before left. */
  predicate Timely(failures: seq<Op>, email: string, mono: real) {
    failures == [] ||
    var last := failures[|failures| - 1];
    && last.Failure? && last.email == email && mono <= last.mono + 900.0
    && Timely(failures[..|failures| - 1], email, last.mono)
  }

  /** After a success the next failures count from one, as long as they follow
      each other within the life of the counter. */
  lemma {:induction false} SuccessResetsStreak(ops: seq<Op>, now: real, email: string, failures: seq<Op>, mono: real)
    requires Timely(failures, email, mono)
    ensures Streak(ops + [Success(now, email)] + failures, email, mono) == |failures|
    decreases |failures|
  {
    var all := ops + [Success(now, email)] + failures;
    if failures == [] {
      assert all == ops + [Success(now, email)] && all[..|ops|] == ops;
    } else {
      var init, last := failures[..|failures| - 1], failures[|failures| - 1];
      var before := ops + [Success(now, email)] + init;
      assert failures == init + [last] && all == before + [last] && all[..|before|] == before;
      SuccessResetsStreak(ops, now, email, init, last.mono);
    }
  }

  // ---- The lock -----------------------------------------------------------------------------------

  /** The streak that a failure of the account completes, if it locks. */
  predicate Locks(c: Config, ops: seq<Op>, op: Op, email: string) {
    op.Failure? && Lower(op.email) == Lower(email) && Streak(ops, email, op.mono) + 1 >= c.maxFailures
  }

  function LockEnd(c: Config, ops: seq<Op>, op: Op, email: string): real
    requires Locks(c, ops, op, email)
  {
    op.now + LockDuration(c, Streak(ops, email, op.mono) + 1) as real
  }

  /** When the account's lock ends, read off the history: as its last locking failure said. */
  function LockedUntilThen(c: Config, ops: seq<Op>, email: string): real {
    if ops == [] then 0.0 else
      var init, op := ops[..|ops| - 1], ops[|ops| - 1];
      if Locks(c, init, op, email) then LockEnd(c, init, op, email) else LockedUntilThen(c, init, email)
  }

  /** The streak of that last locking failure. */
  function LockStreak(c: Config, ops: seq<Op>, email: string): nat {
    if ops == [] then 0 else
      var init, op := ops[..|ops| - 1], ops[|ops| - 1];
      if Locks(c, init, op, email) then Streak(init, email, op.mono) + 1 else LockStreak(c, init, email)
  }

  /** No step of the run is later than `later`. */
  ghost predicate NotAfter(ops: seq<Op>, later: real) { forall i :: 0 <= i < |ops| ==> 0.0 <= ops[i].now <= later }

  /** The stored lock, an expired one possibly dropped. */
  ghost predicate Stored(m: Memory, email: string, until: real, later: real) {
    if LockKey(email) in m.lockouts then m.lockouts[LockKey(email)] == until else until <= later
  }

  lemma StepOnLock(c: Config, ops: seq<Op>, op: Op, email: string, later: real)
    requires ProperClock(ops) && op.now <= later
    requires Stored(Run(c, ops), email, LockedUntilThen(c, ops, email), later)
    ensures Stored(Step(c, Run(c, ops), op), email,
              if Locks(c, ops, op, email) then LockEnd(c, ops, op, email) else LockedUntilThen(c, ops, email), later)
  {
    FailKeysDiffer(op.email, email);
    if op.Failure? {
      CounterIsStreak(c, ops, email, op.mono);
    }
    hide Run, Streak, LockedUntilThen, LockDuration, ProperClock, LockKey, FailKey, Lower, Entries, After, IpKey;
    if op.Failure? && Lower(op.email) == Lower(email) {
      assert FailKey(op.email) == FailKey(email);
    }
  }

  lemma {:induction false} LockIsStored(c: Config, ops: seq<Op>, email: string, later: real)
    requires ProperClock(ops) && NotAfter(ops, later) && later >= 0.0
    ensures Stored(Run(c, ops), email, LockedUntilThen(c, ops, email), later)
    decreases |ops|
  {
    if ops != [] {
      var init, op := ops[..|ops| - 1], ops[|ops| - 1];
      assert ProperClock(init) && NotAfter(init, later);
      LockIsStored(c, init, email, later);
      StepOnLock(c, init, op, email, later);
      hide Stored, Step, Locks, LockEnd, ProperClock, NotAfter;
    }
  }

  /** After every run, a check of the account is refused exactly until its last
      locking failure's lock ends; and whoever waits the announced time finds
      less than a second of lock left. */
  lemma LockedExactlyUntilThen(c: Config, ops: seq<Op>, email: string, later: real, ip: string)
    requires ProperClock(ops) && NotAfter(ops, later) && later >= 0.0
    ensures
      var d, until := CheckDecision(c, Run(c, ops), later, ip, email), LockedUntilThen(c, ops, email);
      && (d.AccountLocked? <==> later < until)
      && (d.AccountLocked? ==> d.retryAfter >= 1 && until - (later + d.retryAfter as real) < 1.0)
      && (d.AccountLocked? ==> d.retryAfter == 1 || later + d.retryAfter as real <= until)
  {
    LockIsStored(c, ops, email, later);
    hide Run, LockedUntilThen, ProperClock, NotAfter, LockKey, Entries, After, IpKey;
  }

  /** A failure that completes a streak of n locks the account for the base lock,
      doubled once for every failure beyond the limit, up to the cap. */
  lemma StreakLocks(c: Config, ops: seq<Op>, email: string)
    requires ops != [] && ops[|ops| - 1].Failure? && Lower(ops[|ops| - 1].email) == Lower(email)
    ensures
      var last := ops[|ops| - 1];
      var n := Streak(ops, email, last.mono);
      && n == Streak(ops[..|ops| - 1], email, last.mono) + 1
      && LockedUntilThen(c, ops, email)
         == if n < c.maxFailures then LockedUntilThen(c, ops[..|ops| - 1], email)
            else last.now + Smaller(Doubled(c.lockBase, n - c.maxFailures), c.lockMax) as real
  {
    var n := Streak(ops, email, ops[|ops| - 1].mono);
    if n >= c.maxFailures { LockIsDoubled(c, n); }
    hide LockDuration;
  }

  lemma LastOf(a: seq<Op>, b: seq<Op>)
    requires b != []
    ensures (a + b)[|a + b| - 1] == b[|b| - 1]
  {
  }

  lemma TimelyLast(failures: seq<Op>, email: string, mono: real)
    requires failures != [] && Timely(failures, email, mono)
    ensures failures[|failures| - 1].Failure? && failures[|failures| - 1].email == email
  {
  }

  /** After a success, n failures in a row within the life of the counter. */
  lemma FreshStreakLocks(c: Config, ops: seq<Op>, now: real, email: string, failures: seq<Op>)
    requires failures != [] && |failures| >= c.maxFailures && failures[|failures| - 1].Failure?
    requires Timely(failures, email, failures[|failures| - 1].mono)
    ensures LockedUntilThen(c, ops + [Success(now, email)] + failures, email)
      == failures[|failures| - 1].now
         + Smaller(Doubled(c.lockBase, |failures| - c.maxFailures), c.lockMax) as real
  {
    hide *;
    var all := ops + [Success(now, email)] + failures;
    var last := failures[|failures| - 1];
    LastOf(ops + [Success(now, email)], failures);
    TimelyLast(failures, email, last.mono);
    SuccessResetsStreak(ops, now, email, failures, last.mono);
    StreakLocks(c, all, email);
  }

  /** A login is let through exactly when the account's lock is over and fewer than
      ip_max_attempts of its address were let through in the window before it; an
      absent address has no window. Otherwise the answer names the lock or the window. */
  lemma LoginAllowedIff(c: Config, ops: seq<Op>, now: real, ip: string, email: string)
    requires ProperClock(ops) && NotAfter(ops, now) && ClockAdvances(ops) && now >= 0.0
    ensures
      var d := CheckDecision(c, Run(c, ops), now, ip, email);
      var recent := CountIn(LetThrough(c, ops, ip), now - c.window as real, now);
      && (d == Allowed <==> LockedUntilThen(c, ops, email) <= now && (ip == "" || recent < c.ipMax))
      && (d.IpLimited? <==> LockedUntilThen(c, ops, email) <= now && ip != "" && recent >= c.ipMax)
      && (d.IpLimited? ==> d.retryAfter == c.window)
  {
    LockedExactlyUntilThen(c, ops, email, now, ip);
    if ip != "" { RecentEntries(c, ops, now, ip); }
    hide Run, LockedUntilThen, ProperClock, NotAfter, ClockAdvances, LockKey, IpKey, Entries, After, LetThrough;
  }

  lemma RecentEntries(c: Config, ops: seq<Op>, now: real, ip: string)
    requires NotAfter(ops, now) && ClockAdvances(ops) && ip != ""
    ensures |After(Entries(Run(c, ops), IpKey(ip)), now - c.window as real)|
      == CountIn(LetThrough(c, ops, ip), now - c.window as real, now)
  {
    if ops != [] { assert ops[|ops| - 1].now <= now; }
    hide *;
    var since := now - c.window as real;
    if ops == [] {
      NothingStored(c, ip);
      AfterCounts([], since, now);
    } else {
      RecentEntriesOf(c, ops, now, ip);
      LetThroughNotAfter(c, ops, ip, now);
      AfterCounts(LetThrough(c, ops, ip), since, now);
    }
  }

  lemma RecentEntriesOf(c: Config, ops: seq<Op>, now: real, ip: string)
    requires ops != [] && ops[|ops| - 1].now <= now && ClockAdvances(ops) && ip != ""
    ensures After(Entries(Run(c, ops), IpKey(ip)), now - c.window as real)
      == After(LetThrough(c, ops, ip), now - c.window as real)
  {
    hide *;
    var since := now - c.window as real;
    WindowInvariant(c, ops, ip);
    CoversLater(Entries(Run(c, ops), IpKey(ip)), LetThrough(c, ops, ip), ops[|ops| - 1].now - c.window as real, since);
    CoverAt(Entries(Run(c, ops), IpKey(ip)), LetThrough(c, ops, ip), since);
  }

  lemma NothingStored(c: Config, ip: string)
    ensures Entries(Run(c, []), IpKey(ip)) == [] && LetThrough(c, [], ip) == []
  {
    hide After, CheckDecision;
  }

  lemma {:induction false} LetThroughNotAfter(c: Config, ops: seq<Op>, ip: string, now: real)
    requires NotAfter(ops, now)
    ensures forall i :: 0 <= i < |LetThrough(c, ops, ip)| ==> LetThrough(c, ops, ip)[i] <= now
    decreases |ops|
  {
    if ops != [] {
      LetThroughNotAfter(c, ops[..|ops| - 1], ip, now);
      hide CheckDecision, Run;
    }
  }

  // ---- When a lock is shortened -----------------------------------------------------------------------

  /** Whoever checks the account after step k and before `end` is refused. */
  ghost predicate LockedThroughout(c: Config, ops: seq<Op>, k: nat, email: string, ip: string, end: real) {
    forall m, later :: k < m <= |ops| && ops[m - 1].now <= later < end ==>
      CheckDecision(c, Run(c, ops[..m]), later, ip, email).AccountLocked?
  }

  /** No step after k, taken before `end`, leaves a lock that ends sooner. */
  ghost predicate NeverShorter(c: Config, ops: seq<Op>, k: nat, email: string, end: real) {
    forall m :: k < m <= |ops| && ops[m - 1].now < end ==> LockedUntilThen(c, ops[..m], email) >= end
  }

  /** The lock set by step k is in force at every moment of the run until it ends
      exactly when no later step leaves a shorter one before that. */
  lemma LockHoldsIff(c: Config, ops: seq<Op>, k: nat, email: string, ip: string)
    requires k < |ops| && Locks(c, ops[..k], ops[k], email) && ProperClock(ops) && ClockAdvances(ops)
    requires 0.0 <= ops[0].now
    ensures
      var end := LockEnd(c, ops[..k], ops[k], email);
      LockedThroughout(c, ops, k, email, ip, end) <==> NeverShorter(c, ops, k, email, end)
  {
    var end := LockEnd(c, ops[..k], ops[k], email);
    hide Locks, LockEnd;
    forall m, later | k < m <= |ops| && ops[m - 1].now <= later < end
      ensures CheckDecision(c, Run(c, ops[..m]), later, ip, email).AccountLocked?
              <==> later < LockedUntilThen(c, ops[..m], email)
    {
      PrefixClock(ops, m, later);
      LockedExactlyUntilThen(c, ops[..m], email, later, ip);
    }
    hide CheckDecision, Run, LockedUntilThen, ProperClock, ClockAdvances;
    forall m | k < m <= |ops| && ops[m - 1].now < end
      ensures LockedThroughout(c, ops, k, email, ip, end) ==> LockedUntilThen(c, ops[..m], email) >= end
    {
      var until := LockedUntilThen(c, ops[..m], email);
      var later := if until < ops[m - 1].now then ops[m - 1].now else until;
      assert later < end ==> !CheckDecision(c, Run(c, ops[..m]), later, ip, email).AccountLocked?;
    }
  }

  lemma PrefixClock(ops: seq<Op>, m: nat, later: real)
    requires 0 < m <= |ops| && ProperClock(ops) && ClockAdvances(ops) && 0.0 <= ops[0].now && ops[m - 1].now <= later
    ensures ProperClock(ops[..m]) && NotAfter(ops[..m], later) && later >= 0.0
  {
    forall i | 0 <= i < m ensures 0.0 <= ops[i].now <= ops[m - 1].now {
      ClockOrder(ops, 0, i);
      ClockOrder(ops, i, m - 1);
    }
  }

  lemma {:induction false} ClockOrder(ops: seq<Op>, i: nat, j: nat)
    requires i <= j < |ops| && ClockAdvances(ops)
    ensures ops[i].now <= ops[j].now
    decreases j
  {
    if i < j {
      ClockOrder(ops, i, j - 1);
      assert ops[j - 1].now <= ops[j - 1 + 1].now;
    }
  }

  /** A failure can shorten the lock only if the streak has been restarted, by a
      success or by a lapse, since the lock was set. */
  lemma ShorterOnlyAfterRestart(c: Config, ops: seq<Op>, op: Op, email: string)
    requires Locks(c, ops, op, email) && c.lockBase >= 0 && c.lockMax >= 0
    requires NotAfter(ops, op.now) && op.now >= 0.0
    ensures LockEnd(c, ops, op, email) < LockedUntilThen(c, ops, email)
      ==> Streak(ops, email, op.mono) + 1 < LockStreak(c, ops, email)
  {
    LockIsDated(c, ops, email, op.now);
    var n, before := Streak(ops, email, op.mono) + 1, LockStreak(c, ops, email);
    LockIsNotNegative(c, n);
    hide Streak, LockStreak, LockedUntilThen, LockDuration;
    if c.maxFailures <= before <= n { LockGrows(c, before, n); }
  }

  /** The lock in force is that of its streak, counted from a moment that is past. */
  lemma {:induction false} LockIsDated(c: Config, ops: seq<Op>, email: string, later: real)
    requires NotAfter(ops, later) && c.lockBase >= 0
    ensures LockStreak(c, ops, email) < c.maxFailures || LockStreak(c, ops, email) == 0
      ==> LockedUntilThen(c, ops, email) == 0.0
    ensures c.maxFailures <= LockStreak(c, ops, email) && LockStreak(c, ops, email) > 0 ==>
      LockedUntilThen(c, ops, email) <= later + LockDuration(c, LockStreak(c, ops, email)) as real
    decreases |ops|
  {
    if ops != [] {
      assert NotAfter(ops[..|ops| - 1], later);
      LockIsDated(c, ops[..|ops| - 1], email, later);
      hide Streak, LockDuration;
    }
  }

  /** It cannot happen when failures are recorded only while no lock is in force. */
  lemma UnlockedFailureNeverShortens(c: Config, ops: seq<Op>, op: Op, email: string)
    requires Locks(c, ops, op, email) && c.lockBase >= 0 && c.lockMax >= 0
    requires op.now >= LockedUntilThen(c, ops, email)
    ensures LockEnd(c, ops, op, email) >= LockedUntilThen(c, ops, email)
  {
    LockIsNotNegative(c, Streak(ops, email, op.mono) + 1);
    hide LockDuration;
  }

  lemma LockIsNotNegative(c: Config, n: nat)
    requires n >= c.maxFailures && c.lockBase >= 0 && c.lockMax >= 0
    ensures LockDuration(c, n) >= 0
  {
    Pow2Grows(0, n - c.maxFailures);
    Times(c.lockBase, 0, Pow2(n - c.maxFailures));
  }

  /** But it can happen: requests that were checked before the lock may still record
      a success and new failures, and a fresh streak brings the shortest lock,
      whatever lock there was. */
  lemma RestartedStreakSetsShortestLock(c: Config, ops: seq<Op>, now: real, email: string, failures: seq<Op>)
    requires c.maxFailures >= 1 && |failures| == c.maxFailures
    requires failures[|failures| - 1].Failure? && Timely(failures, email, failures[|failures| - 1].mono)
    ensures LockedUntilThen(c, ops + [Success(now, email)] + failures, email)
      == failures[|failures| - 1].now + Min(c.lockBase, c.lockMax) as real
  {
    var all := ops + [Success(now, email)] + failures;
    var init, last := failures[..|failures| - 1], failures[|failures| - 1];
    assert all[..|all| - 1] == ops + [Success(now, email)] + init && all[|all| - 1] == last;
    SuccessResetsStreak(ops, now, email, init, last.mono);
  }
}
