/** The fixed-window rate limiter: the atomic script over a store of expiring counters, the Go method around it, and the
    middleware that turns its outcome into a served or a rejected request. */
module RateLimiter {
  import opened Durations
  import opened LimiterKeys
  import opened Options
  import opened Text

  /** A stored counter; a key without an expiry has None. */
  datatype Counter = Counter(count: nat, expiresAt: Option<int>)

  /** The script's two results: the verdict, and the remaining window in milliseconds. */
  datatype Verdict = Verdict(allowed: bool, ttl: int)

  /** A store call can fail before the script has run, or after. */
  datatype Fault = NoFault | BeforeScript | AfterScript

  /** A counter is dead from its expiry instant on. */
  function Alive(cell: Option<Counter>, now: int): Option<Counter> {
    if cell.Some? && cell.value.expiresAt.Some? && cell.value.expiresAt.value <= now then None else cell
  }

  /** One atomic run of the script on the counter of its key. */
  function Script(cell: Option<Counter>, now: int, limit: int, windowMs: int): (Counter, Verdict) {
    var live := Alive(cell, now);
    var current := if live.Some? then live.value.count + 1 else 1;
    var expiresAt := if current == 1 then Some(now + windowMs) else live.value.expiresAt;
    var ttl := if expiresAt.Some? && expiresAt.value >= now then expiresAt.value - now else windowMs;
    (Counter(current, expiresAt), Verdict(current <= limit, ttl))
  }

  function CellOf(counters: map<string, Counter>, key: string): Option<Counter> {
    if key in counters then Some(counters[key]) else None
  }

  class CounterStore {
    var now: int
    var counters: map<string, Counter>

    constructor ()
      ensures now == 0 && counters == map[]
    {
      now, counters := 0, map[];
    }

    method Advance(d: nat)
      modifies this`now
      ensures now == old(now) + d
    {
      now := now + d;
    }

    method Incr(key: string) returns (current: nat)
      modifies this`counters
      ensures var live := Alive(CellOf(old(counters), key), now);
        && current == (if live.Some? then live.value.count + 1 else 1)
        && counters == old(counters)[key := Counter(current, if live.Some? then live.value.expiresAt else None)]
    {
      var live := Alive(CellOf(counters, key), now);
      current := if live.Some? then live.value.count + 1 else 1;
      counters := counters[key := Counter(current, if live.Some? then live.value.expiresAt else None)];
    }

    method PExpire(key: string, ms: int)
      requires ms > 0 && key in counters
      modifies this`counters
      ensures counters == old(counters)[key := old(counters)[key].(expiresAt := Some(now + ms))]
    {
      counters := counters[key := counters[key].(expiresAt := Some(now + ms))];
    }

    /** -2 for a missing key, -1 for one without an expiry. */
    method PTtl(key: string) returns (ttl: int)
      ensures ttl == match Alive(CellOf(counters, key), now)
                     case None => -2
                     case Some(c) => if c.expiresAt.Some? then c.expiresAt.value - now else -1
    {
      var live := Alive(CellOf(counters, key), now);
      match live
      case None => ttl := -2;
      case Some(c) => ttl := if c.expiresAt.Some? then c.expiresAt.value - now else -1;
    }

    method RunLimitScript(key: string, limit: int, windowMs: int) returns (verdict: Verdict)
      requires windowMs > 0
      modifies this`counters
      ensures var (counter, v) := Script(CellOf(old(counters), key), now, limit, windowMs);
        verdict == v && counters == old(counters)[key := counter]
    {
      var current := Incr(key);
      if current == 1 {
        PExpire(key, windowMs);
      }
      var ttl := PTtl(key);
      if ttl < 0 {
        ttl := windowMs;
      }
      if current > limit {
        return Verdict(false, ttl);
      }
      verdict := Verdict(true, ttl);
    }
  }

  // ----- The Go method around the script -----

  datatype Outcome = Decided(allowed: bool, retryAfter: int) | InvalidLimit | InvalidWindow | StoreFailed

  /** The window in milliseconds, rounded down but never below one. */
  function WindowMs(window: int): (ms: int)
    requires window > 0
    ensures ms > 0
    ensures window < MILLISECOND ==> ms == 1
    ensures window >= MILLISECOND ==> ms * MILLISECOND <= window < (ms + 1) * MILLISECOND
  {
    if window / MILLISECOND <= 0 then 1 else window / MILLISECOND
  }

  /** What one Allow does to the counter of its key, and returns. */
  function AllowStep(cell: Option<Counter>, now: int, limit: int, window: int, fault: Fault)
    : (Option<Counter>, Outcome)
  {
    if limit <= 0 then (cell, InvalidLimit)
    else if window <= 0 then (cell, InvalidWindow)
    else if fault.BeforeScript? then (cell, StoreFailed)
    else
      var (counter, v) := Script(cell, now, limit, WindowMs(window));
      (Some(counter), if fault.AfterScript? then StoreFailed else Decided(v.allowed, v.ttl * MILLISECOND))
  }

  class RateLimiter {
    const store: CounterStore

    constructor (store: CounterStore)
      ensures this.store == store
    {
      this.store := store;
    }

    method Allow(key: string, limit: int, window: int, fault: Fault) returns (outcome: Outcome)
      modifies store`counters
      ensures var (cell, o) := AllowStep(CellOf(old(store.counters), key), store.now, limit, window, fault);
        && outcome == o
        && store.counters == if cell.Some? then old(store.counters)[key := cell.value] else old(store.counters)
    {
      if limit <= 0 {
        return InvalidLimit;
      }
      if window <= 0 {
        return InvalidWindow;
      }
      var windowMs := window / MILLISECOND;
      if windowMs <= 0 {
        windowMs := 1;
      }
      if fault.BeforeScript? {
        return StoreFailed;
      }
      var verdict := store.RunLimitScript(key, limit, windowMs);
      if fault.AfterScript? {
        return StoreFailed;
      }
      outcome := Decided(verdict.allowed, verdict.ttl * MILLISECOND);
    }
  }

  // ----- Retry-After -----

  /** The least positive whole number of seconds not below d nanoseconds. */
  function CeilSeconds(d: int): (n: nat)
    ensures n >= 1 && d <= n * SECOND
    ensures n == 1 || (n - 1) * SECOND < d
  {
    if d <= 0 then 1 else (d + SECOND - 1) / SECOND
  }

  lemma CeilSecondsIsLeast(d: int, m: nat)
    requires m >= 1 && d <= m * SECOND
    ensures CeilSeconds(d) <= m
  {
    var n := CeilSeconds(d);
    assert n > m ==> m * SECOND <= (n - 1) * SECOND;
  }

  /** Waiting the seconds covers the milliseconds. */
  lemma CeilSecondsCover(ms: int)
    ensures ms <= 1000 * CeilSeconds(ms * MILLISECOND)
  {
  }

  method RetryAfterSeconds(d: int) returns (text: string)
    ensures text == Decimal(CeilSeconds(d))
  {
    if d <= 0 {
      return "1";
    }
    var seconds := d / SECOND;
    if d % SECOND != 0 {
      seconds := seconds + 1;
    }
    if seconds <= 0 {
      seconds := 1;
    }
    text := Decimal(seconds);
  }

  // ----- The middleware -----

  datatype Handling = Passed | Rejected(retryAfter: Option<string>)

  datatype Rule = Rule(limit: int, window: int, failClosed: bool)

  function HandlingOf(rule: Rule, outcome: Outcome): Handling {
    match outcome
    case Decided(true, _) => Passed
    case Decided(false, retryAfter) => Rejected(Some(Decimal(CeilSeconds(retryAfter))))
    case _ => if rule.failClosed then Rejected(None) else Passed
  }

  /** What one request does to the counters, and how it is handled: requests outside every route pass untouched; the
      others are handled by the outcome on their own key. */
  function HandleStep(rule: Rule, counters: map<string, Counter>, now: int, ip: string, verb: string, path: string,
                      fault: Fault): (map<string, Counter>, Handling)
  {
    if path == "" then (counters, Passed) else
      var key := BuildKey(ip, verb, path);
      var (cell, outcome) := AllowStep(CellOf(counters, key), now, rule.limit, rule.window, fault);
      (if cell.Some? then counters[key := cell.value] else counters, HandlingOf(rule, outcome))
  }

  /** A route registered with a limit or a window that is not positive never reaches the store: it passes every request
      if it is fail-open, and rejects every one, without a Retry-After, if it is fail-closed. So it goes for requests
      whose store call fails before the script; after it, the request has been counted. */
  lemma ErrorsByRule(
    rule: Rule, counters: map<string, Counter>, now: int, ip: string, verb: string, path: string, fault: Fault)
    requires path != ""
    ensures
      var (counters', handling) := HandleStep(rule, counters, now, ip, verb, path, fault);
      var key := BuildKey(ip, verb, path);
      && (rule.limit <= 0 || rule.window <= 0 || !fault.NoFault? ==>
            handling == if rule.failClosed then Rejected(None) else Passed)
      && (rule.limit <= 0 || rule.window <= 0 || fault.BeforeScript? ==> counters' == counters)
      && (rule.limit > 0 && rule.window > 0 && fault.AfterScript? ==>
            counters' == HandleStep(rule, counters, now, ip, verb, path, NoFault).0 && key in counters')
      && (rule.limit > 0 && rule.window > 0 && fault.NoFault? ==>
            handling.Passed? || (handling.Rejected? && handling.retryAfter.Some?))
  {
  }

  class RateLimitMiddleware {
    const limiter: RateLimiter?
    const rule: Rule

    constructor (limiter: RateLimiter?, rule: Rule)
      ensures this.limiter == limiter && this.rule == rule
    {
      this.limiter, this.rule := limiter, rule;
    }

    /** Without a limiter every request passes untouched. */
    method Handle(ip: string, verb: string, path: string, fault: Fault) returns (handling: Handling)
      modifies if limiter == null then {} else {limiter.store}
      ensures limiter == null || path == "" ==> handling == Passed
      ensures limiter != null && path == "" ==> limiter.store.counters == old(limiter.store.counters)
      ensures limiter != null ==>
        && limiter.store.now == old(limiter.store.now)
        && (limiter.store.counters, handling)
           == HandleStep(rule, old(limiter.store.counters), limiter.store.now, ip, verb, path, fault)
    {
      if limiter == null {
        return Passed;
      }
      if path == "" {
        return Passed;
      }
      var key := BuildKey(ip, verb, path);
      var outcome := limiter.Allow(key, rule.limit, rule.window, fault);
      if !outcome.Decided? {
        return if rule.failClosed then Rejected(None) else Passed;
      }
      if !outcome.allowed {
        var seconds := RetryAfterSeconds(outcome.retryAfter);
        return Rejected(Some(seconds));
      }
      handling := Passed;
    }
  }
}
