/** The two plain sliding windows: mails per scope and address, and real-time
    connections per client address. */
module SendLimits {
  import opened Text
  import opened RateLimit

  /** EmailRateLimiter.check_and_record on one key: recorded only when allowed. */
  function EmailStep(entries: seq<real>, now: real, window: int, max: int): (seq<real>, bool) {
    var kept := After(entries, now - window as real);
    if |kept| >= max then (kept, false) else (kept + [now], true)
  }

  /** ConnectionRateLimiter.check on one key: recorded always, allowed up to max. */
  function ConnectionStep(hits: seq<real>, now: real, window: int, max: int): (seq<real>, bool) {
    var kept := After(hits, now - window as real) + [now];
    (kept, |kept| <= max)
  }

  function EmailKey(scope: string, key: string): string { "rl:email:" + scope + ":" + key }

  /** check_and_record on the whole memory. */
  function EmailCheck(m: Memory, now: real, scope: string, key: string, window: int, max: int): (Memory, bool) {
    var r := EmailStep(Entries(m, EmailKey(scope, key)), now, window, max);
    (m.(windows := m.windows[EmailKey(scope, key) := r.0]), r.1)
  }

  type Hits = map<string, seq<real>>

  function HitsOf(hits: Hits, key: string): seq<real> { if key in hits then hits[key] else [] }

  function ConnectionKey(ip: string): string { "rl:realtime:conn:" + ip }

  /** check on all addresses; a missing address, the empty string, is always allowed. */
  function ConnectionCheck(hits: Hits, now: real, ip: string, window: int, max: int): (Hits, bool) {
    if ip == "" then (hits, true) else
      var r := ConnectionStep(HitsOf(hits, ConnectionKey(ip)), now, window, max);
      (hits[ConnectionKey(ip) := r.0], r.1)
  }

  class EmailRateLimiter {
    const window: int
    const maxAttempts: int
    const memory: MemoryBackend

    constructor (window: int := 300, maxAttempts: int := 3)
      ensures this.window == window && this.maxAttempts == maxAttempts
      ensures fresh(memory) && memory.State() == Memory(map[], map[], map[])
    {
      this.window, this.maxAttempts := window, maxAttempts;
      memory := new MemoryBackend();
    }

    method CheckAndRecord(now: real, scope: string, key: string) returns (allowed: bool)
      modifies memory
      ensures (memory.State(), allowed) == EmailCheck(old(memory.State()), now, scope, key, window, maxAttempts)
    {
      var windowKey := "rl:email:" + scope + ":" + key;
      var attempts := memory.CountInWindow(windowKey, now, window);
      if attempts >= maxAttempts { return false; }
      memory.AddToWindow(windowKey, now);
      assert windowKey == EmailKey(scope, key);
      hide After, EmailKey;
      assert memory.windows == EmailCheck(old(memory.State()), now, scope, key, window, maxAttempts).0.windows;
      return true;
    }
  }

  class ConnectionRateLimiter {
    const window: int
    const maxAttempts: int
    var hits: Hits

    constructor (window: int := 60, maxAttempts: int := 30)
      ensures this.window == window && this.maxAttempts == maxAttempts && hits == map[]
    {
      this.window, this.maxAttempts := window, maxAttempts;
      hits := map[];
    }

    method Check(now: real, ip: string) returns (allowed: bool)
      modifies this
      ensures (hits, allowed) == ConnectionCheck(old(hits), now, ip, window, maxAttempts)
    {
      if ip == "" { return true; }
      var key := "rl:realtime:conn:" + ip;
      var kept := After(if key in hits then hits[key] else [], now - window as real) + [now];
      hits := hits[key := kept];
      allowed := |kept| <= maxAttempts;
    }
  }

  // ---- One key by itself ---------------------------------------------------------------------------

  /** The stored entries and the allowed times after a series of attempts. */
  function EmailAttempts(times: seq<real>, window: int, max: int): (seq<real>, seq<real>) {
    if times == [] then ([], []) else
      var before := EmailAttempts(times[..|times| - 1], window, max);
      var now := times[|times| - 1];
      var r := EmailStep(before.0, now, window, max);
      (r.0, if r.1 then before.1 + [now] else before.1)
  }

  function ConnectionAttempts(times: seq<real>, window: int, max: int): (seq<real>, seq<real>) {
    if times == [] then ([], []) else
      var before := ConnectionAttempts(times[..|times| - 1], window, max);
      var now := times[|times| - 1];
      var r := ConnectionStep(before.0, now, window, max);
      (r.0, if r.1 then before.1 + [now] else before.1)
  }

  ghost predicate Sorted(times: seq<real>) {
    forall i :: 0 <= i < |times| - 1 ==> times[i] <= times[i + 1]
  }

  lemma EmailStepKeeps(entries: seq<real>, allowed: seq<real>, now: real, window: int, max: int)
    requires Covers(entries, allowed, now - window as real) && Limited(allowed, window as real, max)
    ensures
      var r := EmailStep(entries, now, window, max);
      var allowed' := if r.1 then allowed + [now] else allowed;
      Covers(r.0, allowed', now - window as real) && Limited(allowed', window as real, max)
  {
    hide Covers, Limited, After;
    StepOnHistory(entries, allowed, now, window as real, max);
  }

  lemma {:induction false} EmailInvariant(times: seq<real>, window: int, max: int, since: real)
    requires Sorted(times) && (times != [] ==> times[|times| - 1] - window as real <= since)
    ensures Limited(EmailAttempts(times, window, max).1, window as real, max)
    ensures Covers(EmailAttempts(times, window, max).0, EmailAttempts(times, window, max).1, since)
    decreases |times|
  {
    if times != [] {
      var init, now := times[..|times| - 1], times[|times| - 1];
      assert init != [] ==> times[|times| - 2] <= times[|times| - 2 + 1];
      var before := EmailAttempts(init, window, max);
      hide Limited, Covers, EmailStep;
      EmailInvariant(init, window, max, now - window as real);
      EmailStepKeeps(before.0, before.1, now, window, max);
      CoversLater(EmailAttempts(times, window, max).0, EmailAttempts(times, window, max).1, now - window as real,
        since);
    }
  }

  lemma OneKeyEmailBound(times: seq<real>, window: int, max: nat, t: real)
    requires Sorted(times)
    ensures CountIn(EmailAttempts(times, window, max).1, t - window as real, t) <= max
  {
    hide EmailAttempts, Limited, Covers, CountIn;
    EmailInvariant(times, window, max, if times == [] then 0.0 else times[|times| - 1] - window as real);
    LimitedEverywhere(EmailAttempts(times, window, max).1, window as real, max, t);
  }

  lemma {:induction false} AllowedAreAttempts(times: seq<real>, window: int, max: int, cut: real)
    ensures |After(ConnectionAttempts(times, window, max).1, cut)| <= |After(times, cut)|
    decreases |times|
  {
    if times != [] {
      var init := times[..|times| - 1];
      AllowedAreAttempts(init, window, max, cut);
      AfterAppend(ConnectionAttempts(init, window, max).1, times[|times| - 1], cut);
    }
  }

  lemma ConnectionStepKeeps(entries: seq<real>, times: seq<real>, allowed: seq<real>, now: real, window: int, max: int)
    requires Covers(entries, times, now - window as real) && Limited(allowed, window as real, max)
    requires |After(allowed, now - window as real)| <= |After(times, now - window as real)|
    ensures
      var r := ConnectionStep(entries, now, window, max);
      Covers(r.0, times + [now], now - window as real)
      && Limited(if r.1 then allowed + [now] else allowed, window as real, max)
  {
    hide Covers, Limited, After;
    var since := now - window as real;
    CoverAt(entries, times, since);
    PruneKeepsCover(entries, times, since, since);
    AddKeepsCover(After(entries, since), times, since, now);
    if |After(entries, since)| + 1 <= max { AllowKeepsLimited(allowed, now, window as real, max); }
  }

  lemma {:induction false} ConnectionInvariant(times: seq<real>, window: int, max: int, since: real)
    requires Sorted(times) && (times != [] ==> times[|times| - 1] - window as real <= since)
    ensures Limited(ConnectionAttempts(times, window, max).1, window as real, max)
    ensures Covers(ConnectionAttempts(times, window, max).0, times, since)
    decreases |times|
  {
    if times != [] {
      var init, now := times[..|times| - 1], times[|times| - 1];
      assert init != [] ==> times[|times| - 2] <= times[|times| - 2 + 1];
      assert init + [now] == times;
      var before := ConnectionAttempts(init, window, max);
      AllowedAreAttempts(init, window, max, now - window as real);
      hide Limited, Covers, ConnectionStep, After;
      ConnectionInvariant(init, window, max, now - window as real);
      ConnectionStepKeeps(before.0, init, before.1, now, window, max);
      CoversLater(ConnectionAttempts(times, window, max).0, times, now - window as real, since);
    }
  }

  lemma OneAddressConnectionBound(times: seq<real>, window: int, max: nat, t: real)
    requires Sorted(times)
    ensures CountIn(ConnectionAttempts(times, window, max).1, t - window as real, t) <= max
  {
    hide ConnectionAttempts, Limited, Covers, CountIn;
    ConnectionInvariant(times, window, max, if times == [] then 0.0 else times[|times| - 1] - window as real);
    LimitedEverywhere(ConnectionAttempts(times, window, max).1, window as real, max, t);
  }

  // ---- Runs of the mail limiter ------------------------------------------------------------------------

  datatype Mail = Mail(now: real, scope: string, key: string)

  function MailRun(ops: seq<Mail>, window: int, max: int): Memory {
    if ops == [] then Memory(map[], map[], map[]) else
      var op := ops[|ops| - 1];
      EmailCheck(MailRun(ops[..|ops| - 1], window, max), op.now, op.scope, op.key, window, max).0
  }

  predicate MailAllowed(before: seq<Mail>, op: Mail, window: int, max: int) {
    EmailCheck(MailRun(before, window, max), op.now, op.scope, op.key, window, max).1
  }

  /** The times at which a mail under this window key was allowed. */
  function MailsLetThrough(ops: seq<Mail>, windowKey: string, window: int, max: int): seq<real> {
    if ops == [] then [] else
      var init, op := ops[..|ops| - 1], ops[|ops| - 1];
      var before := MailsLetThrough(init, windowKey, window, max);
      if EmailKey(op.scope, op.key) == windowKey && MailAllowed(init, op, window, max) then before + [op.now]
        else before
  }

  /** The attempts under this window key, whatever others come in between. */
  function MailTimes(ops: seq<Mail>, windowKey: string): seq<real> {
    if ops == [] then [] else
      var before, op := MailTimes(ops[..|ops| - 1], windowKey), ops[|ops| - 1];
      if EmailKey(op.scope, op.key) == windowKey then before + [op.now] else before
  }

  ghost predicate MailClock(ops: seq<Mail>) {
    forall i :: 0 <= i < |ops| - 1 ==> ops[i].now <= ops[i + 1].now
  }

  /** Interleaved keys do not disturb each other: each sees its own attempts only. */
  lemma {:induction false} MailRunIsPerKey(ops: seq<Mail>, windowKey: string, window: int, max: int)
    ensures
      var own := EmailAttempts(MailTimes(ops, windowKey), window, max);
      Entries(MailRun(ops, window, max), windowKey) == own.0 && MailsLetThrough(ops, windowKey, window, max) == own.1
    decreases |ops|
  {
    if ops != [] {
      var init, op := ops[..|ops| - 1], ops[|ops| - 1];
      MailRunIsPerKey(init, windowKey, window, max);
      var times := MailTimes(init, windowKey);
      assert (times + [op.now])[..|times|] == times;
      hide EmailStep, EmailKey;
    }
  }

  lemma {:induction false} MailTimesAscend(ops: seq<Mail>, windowKey: string)
    requires MailClock(ops)
    ensures Sorted(MailTimes(ops, windowKey))
    ensures MailTimes(ops, windowKey) != [] ==>
      MailTimes(ops, windowKey)[|MailTimes(ops, windowKey)| - 1] <= ops[|ops| - 1].now
    decreases |ops|
  {
    if ops != [] {
      var init := ops[..|ops| - 1];
      MailTimesAscend(init, windowKey);
      assert init != [] ==> ops[|ops| - 2].now <= ops[|ops| - 2 + 1].now && init[|init| - 1] == ops[|ops| - 2];
      hide EmailKey;
    }
  }

  /** In every window at most max_attempts mails of a key are allowed, whatever
      scopes and keys the run interleaves. */
  lemma EmailWindowBound(ops: seq<Mail>, scope: string, key: string, window: int, max: nat, t: real)
    requires MailClock(ops)
    ensures CountIn(MailsLetThrough(ops, EmailKey(scope, key), window, max), t - window as real, t) <= max
  {
    hide *;
    MailRunIsPerKey(ops, EmailKey(scope, key), window, max);
    MailTimesAscend(ops, EmailKey(scope, key));
    OneKeyEmailBound(MailTimes(ops, EmailKey(scope, key)), window, max, t);
  }

  /** Nor is a mail refused for any other reason: it is allowed exactly when fewer
      than max_attempts of its key were allowed in the window before it. */
  lemma MailAllowedIff(ops: seq<Mail>, op: Mail, window: int, max: nat)
    requires MailClock(ops) && (ops != [] ==> ops[|ops| - 1].now <= op.now)
    ensures MailAllowed(ops, op, window, max) <==>
      |After(MailsLetThrough(ops, EmailKey(op.scope, op.key), window, max), op.now - window as real)| < max
  {
    MailAllowedMeaning(MailRun(ops, window, max), op, window, max);
    assert MailAllowed(ops, op, window, max)
      == EmailCheck(MailRun(ops, window, max), op.now, op.scope, op.key, window, max).1;
    hide *;
    var windowKey, since := EmailKey(op.scope, op.key), op.now - window as real;
    var times := MailTimes(ops, windowKey);
    MailRunIsPerKey(ops, windowKey, window, max);
    MailTimesAscend(ops, windowKey);
    EmailInvariant(times, window, max, since);
    CoverAt(Entries(MailRun(ops, window, max), windowKey), MailsLetThrough(ops, windowKey, window, max), since);
  }

  lemma MailAllowedMeaning(m: Memory, op: Mail, window: int, max: int)
    ensures EmailCheck(m, op.now, op.scope, op.key, window, max).1
      <==> |After(Entries(m, EmailKey(op.scope, op.key)), op.now - window as real)| < max
  {
    hide After, EmailKey, Entries;
  }

  /** Scopes without a colon keep their quotas apart. */
  lemma EmailKeysDiffer(a: string, x: string, b: string, y: string)
    requires ':' !in a && ':' !in b
    ensures EmailKey(a, x) == EmailKey(b, y) <==> a == b && x == y
  {
    if EmailKey(a, x) == EmailKey(b, y) {
      var prefix := "rl:email:";
      assert EmailKey(a, x) == prefix + (a + ":" + x) && EmailKey(b, y) == prefix + (b + ":" + y);
      assert EmailKey(a, x)[|prefix|..] == a + ":" + x && EmailKey(b, y)[|prefix|..] == b + ":" + y;
      SplitFirst(a, x, b, y, ':');
    }
  }

  // ---- Runs of the connection limiter ------------------------------------------------------------------

  datatype Attempt = Attempt(now: real, ip: string)

  function ConnectionRun(ops: seq<Attempt>, window: int, max: int): Hits {
    if ops == [] then map[] else
      var op := ops[|ops| - 1];
      ConnectionCheck(ConnectionRun(ops[..|ops| - 1], window, max), op.now, op.ip, window, max).0
  }

  predicate ConnectionAllowed(before: seq<Attempt>, op: Attempt, window: int, max: int) {
    ConnectionCheck(ConnectionRun(before, window, max), op.now, op.ip, window, max).1
  }

  /** The times at which a connection from this address was allowed. */
  function ConnectionsLetThrough(ops: seq<Attempt>, ip: string, window: int, max: int): seq<real> {
    if ops == [] then [] else
      var init, op := ops[..|ops| - 1], ops[|ops| - 1];
      var before := ConnectionsLetThrough(init, ip, window, max);
      if op.ip == ip && ConnectionAllowed(init, op, window, max) then before + [op.now] else before
  }

  function AttemptTimes(ops: seq<Attempt>, ip: string): seq<real> {
    if ops == [] then [] else
      var before, op := AttemptTimes(ops[..|ops| - 1], ip), ops[|ops| - 1];
      if op.ip == ip then before + [op.now] else before
  }

  ghost predicate AttemptClock(ops: seq<Attempt>) {
    forall i :: 0 <= i < |ops| - 1 ==> ops[i].now <= ops[i + 1].now
  }

  lemma ConnectionKeysDiffer(a: string, b: string)
    ensures ConnectionKey(a) == ConnectionKey(b) <==> a == b
  {
    var prefix := "rl:realtime:conn:";
    assert ConnectionKey(a)[|prefix|..] == a && ConnectionKey(b)[|prefix|..] == b;
  }

  lemma {:induction false} ConnectionRunIsPerAddress(ops: seq<Attempt>, ip: string, window: int, max: int)
    requires ip != ""
    ensures
      var own := ConnectionAttempts(AttemptTimes(ops, ip), window, max);
      HitsOf(ConnectionRun(ops, window, max), ConnectionKey(ip)) == own.0
      && ConnectionsLetThrough(ops, ip, window, max) == own.1
    decreases |ops|
  {
    if ops != [] {
      var init, op := ops[..|ops| - 1], ops[|ops| - 1];
      ConnectionRunIsPerAddress(init, ip, window, max);
      ConnectionKeysDiffer(op.ip, ip);
      var times := AttemptTimes(init, ip);
      assert (times + [op.now])[..|times|] == times;
      hide ConnectionStep, ConnectionKey;
    }
  }

  lemma {:induction false} AttemptTimesAscend(ops: seq<Attempt>, ip: string)
    requires AttemptClock(ops)
    ensures Sorted(AttemptTimes(ops, ip))
    ensures AttemptTimes(ops, ip) != [] ==> AttemptTimes(ops, ip)[|AttemptTimes(ops, ip)| - 1] <= ops[|ops| - 1].now
    decreases |ops|
  {
    if ops != [] {
      var init := ops[..|ops| - 1];
      AttemptTimesAscend(init, ip);
      assert init != [] ==> ops[|ops| - 2].now <= ops[|ops| - 2 + 1].now && init[|init| - 1] == ops[|ops| - 2];
    }
  }

  /** In every window at most max_attempts connections of an address are allowed,
      whatever addresses the run interleaves, although refused attempts count too. */
  lemma ConnectionWindowBound(ops: seq<Attempt>, ip: string, window: int, max: nat, t: real)
    requires AttemptClock(ops) && ip != ""
    ensures CountIn(ConnectionsLetThrough(ops, ip, window, max), t - window as real, t) <= max
  {
    hide *;
    ConnectionRunIsPerAddress(ops, ip, window, max);
    AttemptTimesAscend(ops, ip);
    OneAddressConnectionBound(AttemptTimes(ops, ip), window, max, t);
  }

  /** An attempt is allowed exactly when, itself included, at most max_attempts of
      its address, refused ones too, fall into the window that ends with it. */
  lemma ConnectionAllowedIff(ops: seq<Attempt>, op: Attempt, window: int, max: nat)
    requires AttemptClock(ops) && (ops != [] ==> ops[|ops| - 1].now <= op.now)
    ensures ConnectionAllowed(ops, op, window, max) <==>
      op.ip == "" || |After(AttemptTimes(ops, op.ip), op.now - window as real)| + 1 <= max
  {
    if op.ip == "" { return; }
    ConnectionAllowedMeaning(ConnectionRun(ops, window, max), op, window, max);
    assert ConnectionAllowed(ops, op, window, max)
      == ConnectionCheck(ConnectionRun(ops, window, max), op.now, op.ip, window, max).1;
    hide *;
    var since := op.now - window as real;
    var times := AttemptTimes(ops, op.ip);
    ConnectionRunIsPerAddress(ops, op.ip, window, max);
    AttemptTimesAscend(ops, op.ip);
    ConnectionInvariant(times, window, max, since);
    CoverAt(HitsOf(ConnectionRun(ops, window, max), ConnectionKey(op.ip)), times, since);
  }

  lemma ConnectionAllowedMeaning(hits: Hits, op: Attempt, window: int, max: int)
    requires op.ip != ""
    ensures ConnectionCheck(hits, op.now, op.ip, window, max).1
      <==> |After(HitsOf(hits, ConnectionKey(op.ip)), op.now - window as real)| + 1 <= max
  {
    hide After, ConnectionKey, HitsOf;
  }
}
