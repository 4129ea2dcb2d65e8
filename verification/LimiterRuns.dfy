/** What the rate limiter guarantees over whole sequences of requests. Times and windows are milliseconds. */
module LimiterRuns {
  import opened Options
  import opened RateLimiter

  /** A request as its counter sees it: when, and how the store behaves. */
  datatype Arrival = Arrival(time: int, fault: Fault)

  predicate Chronological(arrivals: seq<Arrival>) {
    forall i, j :: 0 <= i < j < |arrivals| ==> arrivals[i].time <= arrivals[j].time
  }

  /** The counter after one arrival. */
  function Next(cell: Option<Counter>, a: Arrival, limit: int, windowMs: int): Option<Counter> {
    if a.fault.BeforeScript? then cell else Some(Script(cell, a.time, limit, windowMs).0)
  }

  /** The verdict the middleware receives; none when the store fails. */
  function Ruling(cell: Option<Counter>, a: Arrival, limit: int, windowMs: int): Option<Verdict> {
    if a.fault.NoFault? then Some(Script(cell, a.time, limit, windowMs).1) else None
  }

  /** Verdicts and errors as the middleware turns them into requests served. */
  function Serves(failClosed: bool, ruling: Option<Verdict>): bool {
    match ruling
    case Some(v) => v.allowed
    case None => !failClosed
  }

  function Rulings(cell: Option<Counter>, arrivals: seq<Arrival>, limit: int, windowMs: int): (rs: seq<Option<Verdict>>)
    ensures |rs| == |arrivals|
    decreases |arrivals|
  {
    if arrivals == [] then [] else
      [Ruling(cell, arrivals[0], limit, windowMs)]
      + Rulings(Next(cell, arrivals[0], limit, windowMs), arrivals[1..], limit, windowMs)
  }

  function After(cell: Option<Counter>, arrivals: seq<Arrival>, limit: int, windowMs: int): Option<Counter>
    decreases |arrivals|
  {
    if arrivals == [] then cell else After(Next(cell, arrivals[0], limit, windowMs), arrivals[1..], limit, windowMs)
  }

  /** The number of arrivals in [from, to) that are served. */
  function ServedIn(failClosed: bool, arrivals: seq<Arrival>, rulings: seq<Option<Verdict>>, from: int, to: int): nat
    requires |rulings| == |arrivals|
    decreases |arrivals|
  {
    if arrivals == [] then 0 else
      (if from <= arrivals[0].time < to && Serves(failClosed, rulings[0]) then 1 else 0)
      + ServedIn(failClosed, arrivals[1..], rulings[1..], from, to)
  }

  /** The number of arrivals in [from, to) for which the limiter reports an error. */
  function ErrorsIn(arrivals: seq<Arrival>, from: int, to: int): nat {
    if arrivals == [] then 0 else
      (if from <= arrivals[0].time < to && !arrivals[0].fault.NoFault? then 1 else 0)
      + ErrorsIn(arrivals[1..], from, to)
  }

  // ----- Reachable counters -----

  /** A counter the script itself left behind, as seen at a later time. */
  ghost predicate Sound(cell: Option<Counter>, now: int, windowMs: int) {
    cell.Some? ==> cell.value.count >= 1 && cell.value.expiresAt.Some? && cell.value.expiresAt.value <= now + windowMs
  }

  /** The distance to the expiry, if there is one. */
  function TimeLeft(cell: Option<Counter>, now: int): Option<int> {
    if cell.Some? && cell.value.expiresAt.Some? then Some(cell.value.expiresAt.value - now) else None
  }

  lemma NextSound(cell: Option<Counter>, a: Arrival, limit: int, windowMs: int, since: int)
    requires Sound(cell, since, windowMs) && since <= a.time && windowMs > 0
    ensures Sound(Next(cell, a, limit, windowMs), a.time, windowMs)
    ensures Ruling(cell, a, limit, windowMs).Some? ==>
      && TimeLeft(Next(cell, a, limit, windowMs), a.time) == Some(Ruling(cell, a, limit, windowMs).value.ttl)
      && 1 <= Ruling(cell, a, limit, windowMs).value.ttl <= windowMs
  {
  }

  /** The time of the last arrival, or of the start if there is none. */
  function LastTime(arrivals: seq<Arrival>, since: int): int {
    if arrivals == [] then since else arrivals[|arrivals| - 1].time
  }

  lemma {:induction false} AfterSound(
    arrivals: seq<Arrival>, limit: int, windowMs: int, cell: Option<Counter>, since: int)
    requires Chronological(arrivals) && windowMs > 0 && Sound(cell, since, windowMs)
    requires forall i :: 0 <= i < |arrivals| ==> since <= arrivals[i].time
    ensures Sound(After(cell, arrivals, limit, windowMs), LastTime(arrivals, since), windowMs)
    decreases |arrivals|
  {
    if arrivals == [] {
    } else {
      NextSound(cell, arrivals[0], limit, windowMs, since);
      AfterSound(arrivals[1..], limit, windowMs, Next(cell, arrivals[0], limit, windowMs), arrivals[0].time);
    }
  }

  /** Every stored counter has an expiry, so the script's fallback for a missing one is never taken: the remaining
      window it reports is the distance to the expiry of the counter it leaves, at least 1 and at most the window. */
  lemma ReachableCounters(
    arrivals: seq<Arrival>, limit: int, windowMs: int, cell: Option<Counter>, since: int, i: nat)
    requires Chronological(arrivals) && windowMs > 0 && Sound(cell, since, windowMs) && i < |arrivals|
    requires forall j :: 0 <= j < |arrivals| ==> since <= arrivals[j].time
    ensures
      var left, ruling := After(cell, arrivals[..i + 1], limit, windowMs), Rulings(cell, arrivals, limit, windowMs)[i];
      && Sound(left, arrivals[i].time, windowMs)
      && (ruling.Some? ==>
            TimeLeft(left, arrivals[i].time) == Some(ruling.value.ttl) && 1 <= ruling.value.ttl <= windowMs)
  {
    var before, a := arrivals[..i], arrivals[i];
    var found := After(cell, before, limit, windowMs);
    AfterSound(before, limit, windowMs, cell, since);
    NextSound(found, a, limit, windowMs, LastTime(before, since));
    AfterLast(cell, before, a, limit, windowMs);
    assert arrivals[..i + 1] == before + [a];
    RulingAt(cell, arrivals, limit, windowMs, i);
  }

  // ----- The sliding-interval bound -----

  /** The most requests any interval of one window's length can see served. */
  function MostServed(limit: int, windowMs: int): int {
    if windowMs == 1 then limit else 2 * limit - 1
  }

  /** Inside a window that opened at or after the interval began, only what the limit leaves can be served. */
  lemma {:induction false} ServedInOneWindow(
    cell: Option<Counter>, arrivals: seq<Arrival>, limit: int, windowMs: int, from: int, expiry: int)
    requires Chronological(arrivals) && cell.Some? && cell.value.expiresAt == Some(expiry) && expiry >= from + windowMs
    requires cell.value.count >= 1
    ensures
      var rulings := Rulings(cell, arrivals, limit, windowMs);
      var left := limit - cell.value.count;
      ServedIn(true, arrivals, rulings, from, from + windowMs) <= if left > 0 then left else 0
    decreases |arrivals|
  {
    if arrivals == [] {
    } else {
      var next := Next(cell, arrivals[0], limit, windowMs);
      if arrivals[0].time < expiry {
        ServedInOneWindow(next, arrivals[1..], limit, windowMs, from, expiry);
      } else {
        NothingAfter(arrivals, Rulings(cell, arrivals, limit, windowMs), from, from + windowMs);
      }
    }
  }

  lemma {:induction false} NothingAfter(arrivals: seq<Arrival>, rulings: seq<Option<Verdict>>, from: int, to: int)
    requires |rulings| == |arrivals| && forall i :: 0 <= i < |arrivals| ==> to <= arrivals[i].time
    ensures ServedIn(true, arrivals, rulings, from, to) == 0
    decreases |arrivals|
  {
    if arrivals == [] {
    } else {
      NothingAfter(arrivals[1..], rulings[1..], from, to);
    }
  }

  /** What can still be served in the interval: a window that reaches into it has spent its opener before it, and one
      more whole window may follow. */
  lemma {:induction false} ServedFromCell(
    cell: Option<Counter>, arrivals: seq<Arrival>, limit: int, windowMs: int, since: int, from: int)
    requires Chronological(arrivals) && limit >= 1 && windowMs >= 1 && Sound(cell, since, windowMs)
    requires forall i :: 0 <= i < |arrivals| ==> since <= arrivals[i].time
    requires cell.Some? ==> cell.value.expiresAt.value < from + windowMs
    ensures
      var served := ServedIn(true, arrivals, Rulings(cell, arrivals, limit, windowMs), from, from + windowMs);
      && served <= MostServed(limit, windowMs)
      && (cell.Some? && cell.value.expiresAt.value > from ==>
            served <= limit + if limit > cell.value.count then limit - cell.value.count else 0)
    decreases |arrivals|
  {
    if arrivals == [] {
    } else {
      var a := arrivals[0];
      var next := Next(cell, a, limit, windowMs);
      NextSound(cell, a, limit, windowMs, since);
      if next.Some? && next.value.expiresAt.value >= from + windowMs {
        ServedInOneWindow(next, arrivals[1..], limit, windowMs, from, next.value.expiresAt.value);
      } else {
        ServedFromCell(next, arrivals[1..], limit, windowMs, a.time, from);
      }
    }
  }

  /** The sliding-interval bound. For every sequence of requests on one key, however the store fails, a fail-closed
      route serves at most 2L - 1 of those that fall into any half-open interval of one window's length; L if the window
      is one millisecond. */
  lemma SlidingBound(arrivals: seq<Arrival>, limit: int, windowMs: int, from: int)
    requires Chronological(arrivals) && limit >= 1 && windowMs >= 1
    ensures ServedIn(true, arrivals, Rulings(None, arrivals, limit, windowMs), from, from + windowMs)
              <= MostServed(limit, windowMs)
  {
    var since := if arrivals == [] then 0 else arrivals[0].time;
    ServedFromCell(None, arrivals, limit, windowMs, since, from);
  }

  lemma {:induction false} OpenServesErrorsToo(
    cell: Option<Counter>, arrivals: seq<Arrival>, limit: int, windowMs: int, from: int, to: int)
    ensures
      var rulings := Rulings(cell, arrivals, limit, windowMs);
      ServedIn(false, arrivals, rulings, from, to)
        == ServedIn(true, arrivals, rulings, from, to) + ErrorsIn(arrivals, from, to)
    decreases |arrivals|
  {
    if arrivals == [] {
    } else {
      OpenServesErrorsToo(Next(cell, arrivals[0], limit, windowMs), arrivals[1..], limit, windowMs, from, to);
    }
  }

  /** A fail-open route serves at most the number of limiter errors more. */
  lemma SlidingBoundFailOpen(arrivals: seq<Arrival>, limit: int, windowMs: int, from: int)
    requires Chronological(arrivals) && limit >= 1 && windowMs >= 1
    ensures ServedIn(false, arrivals, Rulings(None, arrivals, limit, windowMs), from, from + windowMs)
              <= MostServed(limit, windowMs) + ErrorsIn(arrivals, from, from + windowMs)
  {
    SlidingBound(arrivals, limit, windowMs, from);
    OpenServesErrorsToo(None, arrivals, limit, windowMs, from, from + windowMs);
  }

  /** Either bound, by the route's rule. */
  lemma ServedLimited(failClosed: bool, arrivals: seq<Arrival>, limit: int, windowMs: int, from: int)
    requires Chronological(arrivals) && limit >= 1 && windowMs >= 1
    ensures ServedIn(failClosed, arrivals, Rulings(None, arrivals, limit, windowMs), from, from + windowMs)
              <= MostServed(limit, windowMs) + if failClosed then 0 else ErrorsIn(arrivals, from, from + windowMs)
  {
    if failClosed {
      SlidingBound(arrivals, limit, windowMs, from);
    } else {
      SlidingBoundFailOpen(arrivals, limit, windowMs, from);
    }
  }

  // ----- The bound is attained -----

  /** So many requests at one instant. */
  function Burst(n: nat, time: int): seq<Arrival> {
    if n == 0 then [] else [Arrival(time, NoFault)] + Burst(n - 1, time)
  }

  lemma {:induction false} BurstTimes(n: nat, time: int)
    ensures |Burst(n, time)| == n && forall i :: 0 <= i < n ==> Burst(n, time)[i].time == time
  {
    if n == 0 {
    } else {
      BurstTimes(n - 1, time);
    }
  }

  lemma ServedFirst(
    cell: Option<Counter>, a: Arrival, rest: seq<Arrival>, limit: int, windowMs: int, from: int, to: int)
    ensures ServedIn(true, [a] + rest, Rulings(cell, [a] + rest, limit, windowMs), from, to)
      == (if from <= a.time < to && Serves(true, Ruling(cell, a, limit, windowMs)) then 1 else 0)
         + ServedIn(true, rest, Rulings(Next(cell, a, limit, windowMs), rest, limit, windowMs), from, to)
  {
    assert ([a] + rest)[1..] == rest;
  }

  /** A burst that the limit still allows is served whole. */
  lemma {:induction false} BurstServed(
    count: nat, expiry: int, n: nat, time: int, rest: seq<Arrival>, limit: int, windowMs: int, from: int, to: int)
    requires 1 <= count && count + n <= limit && time < expiry && from <= time < to
    ensures
      var arrivals := Burst(n, time) + rest;
      ServedIn(true, arrivals, Rulings(Some(Counter(count, Some(expiry))), arrivals, limit, windowMs), from, to)
        == n + ServedIn(true, rest, Rulings(Some(Counter(count + n, Some(expiry))), rest, limit, windowMs), from, to)
    decreases n
  {
    if n == 0 {
      assert Burst(0, time) + rest == rest;
    } else {
      var next := Counter(count + 1, Some(expiry));
      assert Next(Some(Counter(count, Some(expiry))), Arrival(time, NoFault), limit, windowMs) == Some(next);
      BurstServed(count + 1, expiry, n - 1, time, rest, limit, windowMs, from, to);
      var tail := Burst(n - 1, time) + rest;
      assert Burst(n, time) + rest == [Arrival(time, NoFault)] + tail;
      ServedFirst(Some(Counter(count, Some(expiry))), Arrival(time, NoFault), tail, limit, windowMs, from, to);
    }
  }

  /** A full allowance at one instant. */
  function FullHouse(limit: nat, time: int): seq<Arrival>
    requires limit >= 1
  {
    [Arrival(time, NoFault)] + Burst(limit - 1, time)
  }

  lemma FullHouseServed(cell: Option<Counter>, limit: nat, windowMs: int, time: int, from: int)
    requires limit >= 1 && windowMs >= 1 && Alive(cell, time).None? && from <= time < from + windowMs
    ensures
      var house := FullHouse(limit, time);
      ServedIn(true, house, Rulings(cell, house, limit, windowMs), from, from + windowMs) == limit
  {
    var burst := Burst(limit - 1, time);
    BurstServed(1, time + windowMs, limit - 1, time, [], limit, windowMs, from, from + windowMs);
    assert burst + [] == burst;
    assert FullHouse(limit, time)[1..] == burst;
  }

  /** The opener of a window, its remaining allowance at the window's last millisecond, and a full allowance the moment
      it expires. */
  function Crowd(limit: nat, windowMs: int): seq<Arrival>
    requires limit >= 1
  {
    [Arrival(0, NoFault)] + (Burst(limit - 1, windowMs - 1) + FullHouse(limit, windowMs))
  }

  lemma CrowdServed(limit: nat, windowMs: int)
    requires limit >= 1 && windowMs >= 2
    ensures ServedIn(true, Crowd(limit, windowMs), Rulings(None, Crowd(limit, windowMs), limit, windowMs),
                     windowMs - 1, 2 * windowMs - 1) == 2 * limit - 1
  {
    var from := windowMs - 1;
    var last := FullHouse(limit, windowMs);
    FullHouseServed(Some(Counter(limit, Some(windowMs))), limit, windowMs, windowMs, from);
    BurstServed(1, windowMs, limit - 1, windowMs - 1, last, limit, windowMs, from, from + windowMs);
    assert Crowd(limit, windowMs)[1..] == Burst(limit - 1, windowMs - 1) + last;
  }

  lemma FullHouseAt(limit: nat, time: int)
    requires limit >= 1
    ensures forall i :: 0 <= i < |FullHouse(limit, time)| ==> FullHouse(limit, time)[i].time == time
  {
    BurstTimes(limit - 1, time);
  }

  lemma CrowdInOrder(limit: nat, windowMs: int)
    requires limit >= 1 && windowMs >= 1
    ensures Chronological(Crowd(limit, windowMs))
  {
    var first, rest := Burst(limit - 1, windowMs - 1), FullHouse(limit, windowMs);
    BurstTimes(limit - 1, windowMs - 1);
    FullHouseAt(limit, windowMs);
    var later: seq<Arrival> := first + rest;
    forall i, j | 0 <= i < j < |later| ensures later[i].time <= later[j].time {
      assert later[i].time == if i < |first| then windowMs - 1 else windowMs;
      assert later[j].time == if j < |first| then windowMs - 1 else windowMs;
    }
  }

  /** The bound is sharp: for every limit and every window, some sequence attains it. */
  lemma SlidingBoundAttained(limit: nat, windowMs: int) returns (arrivals: seq<Arrival>, from: int)
    requires limit >= 1 && windowMs >= 1
    ensures Chronological(arrivals)
    ensures ServedIn(true, arrivals, Rulings(None, arrivals, limit, windowMs), from, from + windowMs)
              == MostServed(limit, windowMs)
  {
    if windowMs == 1 {
      arrivals, from := FullHouse(limit, 1), 1;
      FullHouseAt(limit, 1);
      FullHouseServed(None, limit, 1, 1, 1);
    } else {
      arrivals, from := Crowd(limit, windowMs), windowMs - 1;
      CrowdInOrder(limit, windowMs);
      CrowdServed(limit, windowMs);
    }
  }

  // ----- Retry-After -----

  /** The limit is used up until the expiry. */
  predicate Exhausted(cell: Option<Counter>, limit: int, expiry: int) {
    cell.Some? && cell.value.count >= 1 && cell.value.count >= limit && cell.value.expiresAt == Some(expiry)
  }

  lemma {:induction false} ExhaustedUntil(
    cell: Option<Counter>, arrivals: seq<Arrival>, limit: int, windowMs: int, expiry: int, n: nat)
    requires limit >= 1 && windowMs >= 1 && Exhausted(cell, limit, expiry) && n < |arrivals|
    requires forall i :: 0 <= i < n ==> arrivals[i].time < expiry || arrivals[i].fault.BeforeScript?
    ensures var r := Rulings(cell, arrivals, limit, windowMs)[n];
      r.Some? ==> (r.value.allowed <==> expiry <= arrivals[n].time)
    decreases n
  {
    if n == 0 {
    } else {
      var next := Next(cell, arrivals[0], limit, windowMs);
      ExhaustedUntil(next, arrivals[1..], limit, windowMs, expiry, n - 1);
      assert Rulings(cell, arrivals, limit, windowMs)[n] == Rulings(next, arrivals[1..], limit, windowMs)[n - 1];
    }
  }

  /** Retry-After is sound and tight. After a denial that reports so much time left, whatever arrives next on the key
      and however the store fails, no request before that time is up is admitted, and the first one from then on is. */
  lemma {:induction false} RetryAfterSound(
    cell: Option<Counter>, denied: Arrival, later: seq<Arrival>, limit: int, windowMs: int, since: int, n: nat)
    requires limit >= 1 && windowMs >= 1 && Sound(cell, since, windowMs) && since <= denied.time
    requires Ruling(cell, denied, limit, windowMs).Some? && !Ruling(cell, denied, limit, windowMs).value.allowed
    requires n < |later| && later[n].fault.NoFault?
    ensures
      var until := denied.time + Ruling(cell, denied, limit, windowMs).value.ttl;
      var r := Rulings(Next(cell, denied, limit, windowMs), later, limit, windowMs)[n];
      (forall i :: 0 <= i < n ==> later[i].time < until || later[i].fault.BeforeScript?) ==>
        r.Some? && (r.value.allowed <==> until <= later[n].time)
  {
    var until := denied.time + Ruling(cell, denied, limit, windowMs).value.ttl;
    var next := Next(cell, denied, limit, windowMs);
    if forall i :: 0 <= i < n ==> later[i].time < until || later[i].fault.BeforeScript? {
      assert Exhausted(next, limit, until);
      ExhaustedUntil(next, later, limit, windowMs, until, n);
      RulingAt(next, later, limit, windowMs, n);
    }
  }

  /** A ruling is the script's on the counter the earlier arrivals left. */
  lemma {:induction false} RulingAt(cell: Option<Counter>, arrivals: seq<Arrival>, limit: int, windowMs: int, n: nat)
    requires n < |arrivals|
    ensures Rulings(cell, arrivals, limit, windowMs)[n]
              == Ruling(After(cell, arrivals[..n], limit, windowMs), arrivals[n], limit, windowMs)
    decreases n
  {
    if n == 0 {
    } else {
      var next := Next(cell, arrivals[0], limit, windowMs);
      RulingAt(next, arrivals[1..], limit, windowMs, n - 1);
      assert arrivals[..n][1..] == arrivals[1..][..n - 1];
    }
  }

  /** With a limit of one, as the routes configure it, requests admitted are at least a window apart. */
  lemma {:induction false} AdmittedAreSpaced(
    cell: Option<Counter>, admitted: Arrival, later: seq<Arrival>, windowMs: int, since: int, n: nat)
    requires windowMs >= 1 && Sound(cell, since, windowMs) && since <= admitted.time
    requires Ruling(cell, admitted, 1, windowMs).Some? && Ruling(cell, admitted, 1, windowMs).value.allowed
    requires Chronological([admitted] + later) && n < |later|
    requires var r := Rulings(Next(cell, admitted, 1, windowMs), later, 1, windowMs)[n]; r.Some? && r.value.allowed
    ensures admitted.time + windowMs <= later[n].time
  {
    var next, until := Next(cell, admitted, 1, windowMs), admitted.time + windowMs;
    assert Exhausted(next, 1, until);
    if later[n].time < until {
      forall i | 0 <= i < n ensures later[i].time < until {
        assert ([admitted] + later)[i + 1].time <= ([admitted] + later)[n + 1].time;
      }
      ExhaustedUntil(next, later, 1, windowMs, until, n);
    }
  }

  // ----- The history the counter stands for -----

  /** The times at which the script ran. */
  function Executed(arrivals: seq<Arrival>): seq<int>
    decreases |arrivals|
  {
    if arrivals == [] then [] else
      var init, last := arrivals[..|arrivals| - 1], arrivals[|arrivals| - 1];
      Executed(init) + if last.fault.BeforeScript? then [] else [last.time]
  }

  /** The index of the request that opened the window of the i-th one: a request opens a window when the previous window
      is over. */
  function Opener(times: seq<int>, windowMs: int, i: nat): (o: nat)
    requires i < |times|
    ensures o <= i
  {
    if i == 0 then 0
    else if times[i] < times[Opener(times, windowMs, i - 1)] + windowMs then Opener(times, windowMs, i - 1)
    else i
  }

  lemma {:induction false} OpenerOfPrefix(times: seq<int>, windowMs: int, i: nat, n: nat)
    requires i < n <= |times|
    ensures Opener(times[..n], windowMs, i) == Opener(times, windowMs, i)
  {
    if i == 0 {
    } else {
      OpenerOfPrefix(times, windowMs, i - 1, n);
    }
  }

  /** The counter a history stands for: how many requests its last window has seen, and when that window ends. */
  function CounterOf(times: seq<int>, windowMs: int): Option<Counter> {
    if times == [] then None else
      var o := Opener(times, windowMs, |times| - 1);
      Some(Counter(|times| - o, Some(times[o] + windowMs)))
  }

  lemma CounterStep(times: seq<int>, t: int, limit: int, windowMs: int)
    requires windowMs >= 1
    ensures
      var times' := times + [t];
      var o := Opener(times', windowMs, |times|);
      var (counter, verdict) := Script(CounterOf(times, windowMs), t, limit, windowMs);
      && Some(counter) == CounterOf(times', windowMs)
      && (verdict.allowed <==> |times| - o < limit)
  {
    if times != [] {
      var times' := times + [t];
      OpenerOfPrefix(times', windowMs, |times| - 1, |times|);
      assert times'[..|times|] == times;
    }
  }

  lemma {:induction false} AfterIsCounterOf(arrivals: seq<Arrival>, limit: int, windowMs: int)
    requires windowMs >= 1
    ensures After(None, arrivals, limit, windowMs) == CounterOf(Executed(arrivals), windowMs)
    decreases |arrivals|
  {
    if arrivals == [] {
    } else {
      var init, last := arrivals[..|arrivals| - 1], arrivals[|arrivals| - 1];
      assert init + [last] == arrivals;
      AfterIsCounterOf(init, limit, windowMs);
      AfterLast(None, init, last, limit, windowMs);
      assert Executed(init) + [] == Executed(init);
      CounterStep(Executed(init), last.time, limit, windowMs);
    }
  }

  lemma {:induction false} AfterLast(
    cell: Option<Counter>, init: seq<Arrival>, last: Arrival, limit: int, windowMs: int)
    ensures After(cell, init + [last], limit, windowMs)
      == Next(After(cell, init, limit, windowMs), last, limit, windowMs)
    decreases |init|
  {
    if init == [] {
      assert init + [last] == [last];
    } else {
      AfterLast(Next(cell, init[0], limit, windowMs), init[1..], last, limit, windowMs);
      assert (init + [last])[1..] == init[1..] + [last];
    }
  }

  /** History refinement. The counter and its expiry stand for the history of the requests the script has run for: a
      request is admitted if and only if fewer than the limit have arrived since its window opened. Requests lost before
      the script leave no trace; those lost after it count. */
  lemma AdmitsFewerThanLimit(arrivals: seq<Arrival>, n: nat, limit: int, windowMs: int)
    requires windowMs >= 1 && n < |arrivals| && arrivals[n].fault.NoFault?
    ensures
      var times := Executed(arrivals[..n]) + [arrivals[n].time];
      var r := Rulings(None, arrivals, limit, windowMs)[n];
      && r.Some?
      && (r.value.allowed <==> |times| - 1 - Opener(times, windowMs, |times| - 1) < limit)
  {
    RulingAt(None, arrivals, limit, windowMs, n);
    AfterIsCounterOf(arrivals[..n], limit, windowMs);
    CounterStep(Executed(arrivals[..n]), arrivals[n].time, limit, windowMs);
  }
}
