/** The limiter under the traffic of many clients on many routes: each client and route is limited as if alone. */
module LimiterIsolation {
  import opened Durations
  import opened LimiterKeys
  import opened LimiterRuns
  import opened Options
  import opened RateLimiter
  import opened Text

  datatype Request = Request(ip: string, verb: string, path: string, time: int, fault: Fault)

  /** The rule each route is registered with, by method and path. */
  type Rules = (string, string) -> Rule

  /** A rule as the limiter accepts it. */
  predicate Accepted(rule: Rule) {
    rule.limit >= 1 && rule.window > 0
  }

  predicate AllWellFormed(requests: seq<Request>) {
    forall i :: 0 <= i < |requests| ==> WellFormed(requests[i].ip, requests[i].verb, requests[i].path)
  }

  function RuleOf(rules: Rules, r: Request): Rule {
    rules(Verb(r.verb), r.path)
  }

  function KeyOf(r: Request): string {
    BuildKey(r.ip, r.verb, r.path)
  }

  /** What the middleware of the request's route does with it. */
  function Handle(rules: Rules, counters: map<string, Counter>, r: Request): (map<string, Counter>, Handling) {
    HandleStep(RuleOf(rules, r), counters, r.time, r.ip, r.verb, r.path, r.fault)
  }

  function Handlings(rules: Rules, counters: map<string, Counter>, requests: seq<Request>): (hs: seq<Handling>)
    ensures |hs| == |requests|
    decreases |requests|
  {
    if requests == [] then [] else
      var (counters', handling) := Handle(rules, counters, requests[0]);
      [handling] + Handlings(rules, counters', requests[1..])
  }

  /** The two requests are of the same client, method and route. */
  predicate Same(r: Request, q: Request) {
    r.ip == q.ip && Verb(r.verb) == Verb(q.verb) && r.path == q.path
  }

  /** The arrivals of one client on one route, out of everybody's. */
  function ArrivalsOf(requests: seq<Request>, q: Request): (arrivals: seq<Arrival>)
    ensures forall i :: 0 <= i < |arrivals| ==> exists j :: 0 <= j < |requests| && arrivals[i].time == requests[j].time
    decreases |requests|
  {
    if requests == [] then [] else
      var rest := ArrivalsOf(requests[1..], q);
      assert forall j :: 0 <= j < |requests[1..]| ==> requests[1..][j] == requests[j + 1];
      if Same(requests[0], q) then [Arrival(requests[0].time, requests[0].fault)] + rest else rest
  }

  function HandlingsOf(requests: seq<Request>, handlings: seq<Handling>, q: Request): seq<Handling>
    requires |handlings| == |requests|
    decreases |requests|
  {
    if requests == [] then [] else
      (if Same(requests[0], q) then [handlings[0]] else []) + HandlingsOf(requests[1..], handlings[1..], q)
  }

  /** How a route answers the rulings of its one counter. */
  function Answers(rule: Rule, rulings: seq<Option<Verdict>>): (hs: seq<Handling>)
    ensures |hs| == |rulings|
  {
    if rulings == [] then [] else
      [match rulings[0]
       case Some(v) => if v.allowed then Passed else Rejected(Some(Decimal(CeilSeconds(v.ttl * MILLISECOND))))
       case None => if rule.failClosed then Rejected(None) else Passed]
      + Answers(rule, rulings[1..])
  }

  /** Only requests of the same client, method and route move a counter. */
  lemma OthersLeaveCell(rules: Rules, counters: map<string, Counter>, r: Request, q: Request)
    requires Accepted(RuleOf(rules, q)) && WellFormed(r.ip, r.verb, r.path) && WellFormed(q.ip, q.verb, q.path)
    ensures
      var cell, (counters', handling) := CellOf(counters, KeyOf(q)), Handle(rules, counters, r);
      var rule, a := RuleOf(rules, q), Arrival(r.time, r.fault);
      if Same(r, q) then
        && CellOf(counters', KeyOf(q)) == Next(cell, a, rule.limit, WindowMs(rule.window))
        && [handling] == Answers(rule, [Ruling(cell, a, rule.limit, WindowMs(rule.window))])
      else CellOf(counters', KeyOf(q)) == cell
  {
    BuildKeyInjective(r.ip, r.verb, r.path, q.ip, q.verb, q.path);
  }

  lemma AnswersFirst(rule: Rule, ruling: Option<Verdict>, rest: seq<Option<Verdict>>)
    ensures Answers(rule, [ruling] + rest) == Answers(rule, [ruling]) + Answers(rule, rest)
  {
    assert ([ruling] + rest)[1..] == rest;
  }

  /** Key isolation. Picking one client's requests on one route out of a run of everybody's leaves exactly the run of a
      counter of its own: same arrivals, same answers, Retry-After headers included. */
  lemma {:induction false} Isolation(rules: Rules, counters: map<string, Counter>, requests: seq<Request>, q: Request)
    requires Accepted(RuleOf(rules, q)) && AllWellFormed(requests) && WellFormed(q.ip, q.verb, q.path)
    ensures
      var rule := RuleOf(rules, q);
      HandlingsOf(requests, Handlings(rules, counters, requests), q)
        == Answers(rule, Rulings(CellOf(counters, KeyOf(q)), ArrivalsOf(requests, q), rule.limit,
                                 WindowMs(rule.window)))
    decreases |requests|
  {
    if requests == [] {
    } else {
      var rule := RuleOf(rules, q);
      OthersLeaveCell(rules, counters, requests[0], q);
      var counters' := Handle(rules, counters, requests[0]).0;
      Isolation(rules, counters', requests[1..], q);
      if Same(requests[0], q) {
        var cell, a, rest := CellOf(counters, KeyOf(q)), Arrival(requests[0].time, requests[0].fault),
          ArrivalsOf(requests[1..], q);
        var next := Next(cell, a, rule.limit, WindowMs(rule.window));
        AnswersFirst(rule, Ruling(cell, a, rule.limit, WindowMs(rule.window)),
                     Rulings(next, rest, rule.limit, WindowMs(rule.window)));
      }
    }
  }

  /** The number of a client's requests on a route in [from, to) that pass. */
  function PassedIn(requests: seq<Request>, handlings: seq<Handling>, q: Request, from: int, to: int): nat
    requires |handlings| == |requests|
    decreases |requests|
  {
    if requests == [] then 0 else
      (if Same(requests[0], q) && from <= requests[0].time < to && handlings[0].Passed? then 1 else 0)
      + PassedIn(requests[1..], handlings[1..], q, from, to)
  }

  lemma {:induction false} PassedIsServed(
    rules: Rules, counters: map<string, Counter>, requests: seq<Request>, q: Request, from: int, to: int)
    requires Accepted(RuleOf(rules, q)) && AllWellFormed(requests) && WellFormed(q.ip, q.verb, q.path)
    ensures
      var rule, arrivals := RuleOf(rules, q), ArrivalsOf(requests, q);
      PassedIn(requests, Handlings(rules, counters, requests), q, from, to)
        == ServedIn(rule.failClosed, arrivals,
                    Rulings(CellOf(counters, KeyOf(q)), arrivals, rule.limit, WindowMs(rule.window)), from, to)
    decreases |requests|
  {
    if requests == [] {
    } else {
      OthersLeaveCell(rules, counters, requests[0], q);
      PassedIsServed(rules, Handle(rules, counters, requests[0]).0, requests[1..], q, from, to);
    }
  }

  /** Requests reach the store in the order of its clock. */
  predicate InOrder(requests: seq<Request>) {
    forall i, j :: 0 <= i < j < |requests| ==> requests[i].time <= requests[j].time
  }

  lemma {:induction false} ArrivalsInOrder(requests: seq<Request>, q: Request)
    requires InOrder(requests)
    ensures Chronological(ArrivalsOf(requests, q))
    decreases |requests|
  {
    if requests == [] {
    } else {
      ArrivalsInOrder(requests[1..], q);
      var rest := ArrivalsOf(requests[1..], q);
      forall i | 0 <= i < |rest| ensures requests[0].time <= rest[i].time {
        var j :| 0 <= j < |requests[1..]| && rest[i].time == requests[1..][j].time;
        assert requests[1..][j] == requests[j + 1];
      }
    }
  }

  /** The limiter's promise, for the whole system: whatever all clients send and however the store fails, no client gets
      more than 2L - 1 requests through a fail-closed route within any interval of one window's length; a fail-open
      route adds at most its errors. */
  lemma {:induction false} EveryClientIsLimited(rules: Rules, requests: seq<Request>, q: Request, from: int)
    requires Accepted(RuleOf(rules, q)) && AllWellFormed(requests) && WellFormed(q.ip, q.verb, q.path)
    requires InOrder(requests)
    ensures
      var rule := RuleOf(rules, q);
      var to := from + WindowMs(rule.window);
      PassedIn(requests, Handlings(rules, map[], requests), q, from, to)
        <= MostServed(rule.limit, WindowMs(rule.window))
           + if rule.failClosed then 0 else ErrorsIn(ArrivalsOf(requests, q), from, to)
  {
    var rule, arrivals := RuleOf(rules, q), ArrivalsOf(requests, q);
    PassedIsServed(rules, map[], requests, q, from, from + WindowMs(rule.window));
    ArrivalsInOrder(requests, q);
    ServedLimited(rule.failClosed, arrivals, rule.limit, WindowMs(rule.window), from);
  }

  // ----- Retry-After, in everybody's traffic -----

  /** The counters before each request, and after the last. */
  ghost predicate Handled(rules: Rules, requests: seq<Request>, tables: seq<map<string, Counter>>) {
    |tables| == |requests| + 1 && forall k :: 0 <= k < |requests| ==> HandledAt(rules, requests, tables, k)
  }

  ghost predicate HandledAt(rules: Rules, requests: seq<Request>, tables: seq<map<string, Counter>>, k: nat)
    requires k < |requests| < |tables|
  {
    tables[k + 1] == Handle(rules, tables[k], requests[k]).0
  }

  lemma {:induction false} TablesOf(rules: Rules, counters: map<string, Counter>, requests: seq<Request>)
    returns (tables: seq<map<string, Counter>>)
    ensures Handled(rules, requests, tables) && tables[0] == counters
    decreases |requests|
  {
    if requests == [] {
      tables := [counters];
    } else {
      var rest := TablesOf(rules, Handle(rules, counters, requests[0]).0, requests[1..]);
      tables := [counters] + rest;
      forall k | 0 <= k < |requests| ensures HandledAt(rules, requests, tables, k) {
        if k > 0 {
          assert HandledAt(rules, requests[1..], rest, k - 1);
        }
      }
    }
  }

  lemma {:induction false} HandlingsRest(rules: Rules, counters: map<string, Counter>, requests: seq<Request>, n: nat)
    requires 0 < n < |requests|
    ensures Handlings(rules, counters, requests)[n]
      == Handlings(rules, Handle(rules, counters, requests[0]).0, requests[1..])[n - 1]
  {
  }

  /** Each request is handled on the counters before it. */
  lemma {:induction false} HandlingsBy(
    rules: Rules, requests: seq<Request>, tables: seq<map<string, Counter>>, n: nat)
    requires Handled(rules, requests, tables) && n < |requests|
    ensures Handlings(rules, tables[0], requests)[n] == Handle(rules, tables[n], requests[n]).1
    decreases n
  {
    if n == 0 {
    } else {
      HandlingsRest(rules, tables[0], requests, n);
      assert HandledAt(rules, requests, tables, 0);
      forall k | 0 <= k < |requests[1..]| ensures HandledAt(rules, requests[1..], tables[1..], k) {
        assert HandledAt(rules, requests, tables, k + 1);
      }
      HandlingsBy(rules, requests[1..], tables[1..], n - 1);
    }
  }

  /** At every request each client's counter is one the script itself has left behind. */
  lemma {:induction false} SoundBefore(
    rules: Rules, requests: seq<Request>, tables: seq<map<string, Counter>>, q: Request, n: nat)
    requires Accepted(RuleOf(rules, q)) && AllWellFormed(requests) && WellFormed(q.ip, q.verb, q.path)
    requires Handled(rules, requests, tables) && tables[0] == map[] && InOrder(requests) && n < |requests|
    ensures Sound(CellOf(tables[n], KeyOf(q)), requests[n].time, WindowMs(RuleOf(rules, q).window))
    decreases n
  {
    if n == 0 {
    } else {
      SoundBefore(rules, requests, tables, q, n - 1);
      assert HandledAt(rules, requests, tables, n - 1);
      SoundStep(rules, tables[n - 1], requests[n - 1], q);
    }
  }

  lemma SoundStep(rules: Rules, counters: map<string, Counter>, r: Request, q: Request)
    requires Accepted(RuleOf(rules, q)) && WellFormed(r.ip, r.verb, r.path) && WellFormed(q.ip, q.verb, q.path)
    requires Sound(CellOf(counters, KeyOf(q)), r.time, WindowMs(RuleOf(rules, q).window))
    ensures Sound(CellOf(Handle(rules, counters, r).0, KeyOf(q)), r.time, WindowMs(RuleOf(rules, q).window))
  {
    var rule := RuleOf(rules, q);
    OthersLeaveCell(rules, counters, r, q);
    NextSound(CellOf(counters, KeyOf(q)), Arrival(r.time, r.fault), rule.limit, WindowMs(rule.window), r.time);
  }

  /** A rejection with a Retry-After leaves the counter exhausted until some instant, and the header is the least whole
      number of seconds that reaches it. */
  lemma RejectionExhausts(rules: Rules, counters: map<string, Counter>, r: Request, q: Request, since: int)
    returns (until: int)
    requires Accepted(RuleOf(rules, q)) && WellFormed(r.ip, r.verb, r.path) && WellFormed(q.ip, q.verb, q.path)
    requires Same(r, q) && since <= r.time
    requires Sound(CellOf(counters, KeyOf(q)), since, WindowMs(RuleOf(rules, q).window))
    requires Handle(rules, counters, r).1.Rejected? && Handle(rules, counters, r).1.retryAfter.Some?
    ensures Exhausted(CellOf(Handle(rules, counters, r).0, KeyOf(q)), RuleOf(rules, q).limit, until)
    ensures r.time < until
    ensures Handle(rules, counters, r).1 == Rejected(Some(Decimal(CeilSeconds((until - r.time) * MILLISECOND))))
  {
    var rule, a, cell := RuleOf(rules, q), Arrival(r.time, r.fault), CellOf(counters, KeyOf(q));
    OthersLeaveCell(rules, counters, r, q);
    NextSound(cell, a, rule.limit, WindowMs(rule.window), since);
    var ruling := Ruling(cell, a, rule.limit, WindowMs(rule.window));
    assert Answers(rule, [ruling])[0] == Handle(rules, counters, r).1;
    until := r.time + ruling.value.ttl;
  }

  /** An exhausted counter, and one more request: it stays exhausted through requests of others, requests before its
      expiry, and those that do not reach the store; and a verdict lets a request pass exactly from the expiry on. */
  lemma ExhaustedStep(rules: Rules, counters: map<string, Counter>, r: Request, q: Request, until: int)
    requires Accepted(RuleOf(rules, q)) && WellFormed(r.ip, r.verb, r.path) && WellFormed(q.ip, q.verb, q.path)
    requires Exhausted(CellOf(counters, KeyOf(q)), RuleOf(rules, q).limit, until)
    ensures !Same(r, q) || r.time < until || r.fault.BeforeScript? ==>
      Exhausted(CellOf(Handle(rules, counters, r).0, KeyOf(q)), RuleOf(rules, q).limit, until)
    ensures Same(r, q) && r.fault.NoFault? ==> (Handle(rules, counters, r).1.Passed? <==> until <= r.time)
  {
    OthersLeaveCell(rules, counters, r, q);
  }

  /** The requests of the client that reach the store between the two come before that instant. */
  predicate AllBefore(requests: seq<Request>, q: Request, i: nat, n: nat, until: int)
    requires n <= |requests|
  {
    forall k :: i < k < n && Same(requests[k], q) ==> requests[k].time < until || requests[k].fault.BeforeScript?
  }

  lemma {:induction false} StaysExhausted(
    rules: Rules, requests: seq<Request>, tables: seq<map<string, Counter>>, q: Request, i: nat, n: nat, until: int)
    requires Accepted(RuleOf(rules, q)) && AllWellFormed(requests) && WellFormed(q.ip, q.verb, q.path)
    requires Handled(rules, requests, tables) && i < n <= |requests| && AllBefore(requests, q, i, n, until)
    requires Exhausted(CellOf(tables[i + 1], KeyOf(q)), RuleOf(rules, q).limit, until)
    ensures Exhausted(CellOf(tables[n], KeyOf(q)), RuleOf(rules, q).limit, until)
    decreases n
  {
    if n == i + 1 {
    } else {
      StaysExhausted(rules, requests, tables, q, i, n - 1, until);
      assert HandledAt(rules, requests, tables, n - 1);
      ExhaustedStep(rules, tables[n - 1], requests[n - 1], q, until);
    }
  }

  /** A rejection with a Retry-After in everybody's traffic: what it says, and the counter it leaves. */
  lemma {:induction false} RejectedAt(
    rules: Rules, requests: seq<Request>, tables: seq<map<string, Counter>>, q: Request, i: nat, denied: Handling)
    returns (until: int)
    requires Accepted(RuleOf(rules, q)) && AllWellFormed(requests) && WellFormed(q.ip, q.verb, q.path)
    requires Handled(rules, requests, tables) && tables[0] == map[] && InOrder(requests) && i < |requests|
    requires Same(requests[i], q) && denied == Handlings(rules, tables[0], requests)[i]
    requires denied.Rejected? && denied.retryAfter.Some?
    ensures Exhausted(CellOf(tables[i + 1], KeyOf(q)), RuleOf(rules, q).limit, until)
    ensures requests[i].time < until
    ensures denied == Rejected(Some(Decimal(CeilSeconds((until - requests[i].time) * MILLISECOND))))
  {
    HandlingsBy(rules, requests, tables, i);
    SoundBefore(rules, requests, tables, q, i);
    until := RejectionExhausts(rules, tables[i], requests[i], q, requests[i].time);
    assert HandledAt(rules, requests, tables, i);
  }

  /** The first verdict from the expiry on. */
  lemma {:induction false} PassesFrom(
    rules: Rules, requests: seq<Request>, tables: seq<map<string, Counter>>, q: Request, i: nat, n: nat, until: int)
    requires Accepted(RuleOf(rules, q)) && AllWellFormed(requests) && WellFormed(q.ip, q.verb, q.path)
    requires Handled(rules, requests, tables) && i < n < |requests| && AllBefore(requests, q, i, n, until)
    requires Same(requests[n], q) && requests[n].fault.NoFault?
    requires Exhausted(CellOf(tables[i + 1], KeyOf(q)), RuleOf(rules, q).limit, until)
    ensures Handlings(rules, tables[0], requests)[n].Passed? <==> until <= requests[n].time
  {
    StaysExhausted(rules, requests, tables, q, i, n, until);
    ExhaustedStep(rules, tables[n], requests[n], q, until);
    HandlingsBy(rules, requests, tables, n);
  }

  /** Retry-After, for the whole system. Let a client be rejected on a route with a Retry-After. There is an instant,
      which the header names to the second above, such that whatever all clients send, and however the store fails, no
      later request of this client on this route passes by verdict before it; the first one to reach the store from then
      on passes, and in particular the first one to do so after waiting the seconds of the header. */
  lemma {:induction false} RetryAfterHolds(
    rules: Rules, requests: seq<Request>, handlings: seq<Handling>, q: Request, i: nat, n: nat)
    returns (until: int)
    requires Accepted(RuleOf(rules, q)) && AllWellFormed(requests) && WellFormed(q.ip, q.verb, q.path)
    requires InOrder(requests) && handlings == Handlings(rules, map[], requests) && i < n < |requests|
    requires Same(requests[i], q) && Same(requests[n], q) && requests[n].fault.NoFault?
    requires handlings[i].Rejected? && handlings[i].retryAfter.Some?
    ensures
      var seconds := CeilSeconds((until - requests[i].time) * MILLISECOND);
      && handlings[i] == Rejected(Some(Decimal(seconds)))
      && requests[i].time < until <= requests[i].time + 1000 * seconds
    ensures requests[n].time < until ==> !handlings[n].Passed?
    ensures until <= requests[n].time && AllBefore(requests, q, i, n, until) ==> handlings[n].Passed?
  {
    var tables := TablesOf(rules, map[], requests);
    until := RejectedAt(rules, requests, tables, q, i, handlings[i]);
    CeilSecondsCover(until - requests[i].time);
    if AllBefore(requests, q, i, n, until) {
      PassesFrom(rules, requests, tables, q, i, n, until);
    }
  }
}
