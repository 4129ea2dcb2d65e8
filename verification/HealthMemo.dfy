/** The health endpoint's one-second memo, under any number of concurrent requests. The two sections that touch the
    memo are atomic; the clock reading before them, and the check between them, are not. Times are Unix nanoseconds. */
module HealthMemo {
  import opened Durations
  import opened Options

  /** Go's zero time, year 1, as Unix nanoseconds. */
  const ZERO_TIME: int := -62_135_596_800 * SECOND

  /** What HealthCheck returns: nothing, or an error text. */
  type Outcome = Option<string>

  /** The captured variables last, lastOK and lastErr. */
  datatype Memo = Memo(last: int, ok: bool, err: Option<string>)

  const INITIAL := Memo(ZERO_TIME, false, None)

  function MemoOf(now: int, outcome: Outcome): Memo {
    Memo(now, outcome.None?, outcome)
  }

  /** The response: 200 with or without the cached flag, or 503 with a message; Crash is a nil error dereferenced. */
  datatype Response = Healthy(cached: bool) | Unhealthy(message: string) | Crash

  predicate Fresh(now: int, memo: Memo) {
    now - memo.last < SECOND
  }

  /** The answer read off a fresh memo. */
  function FromMemo(memo: Memo): Response {
    if memo.ok then Healthy(true)
    else if memo.err.Some? then Unhealthy("unhealthy: " + memo.err.value)
    else Crash
  }

  function FromCheck(outcome: Outcome): Response {
    match outcome
    case None => Healthy(false)
    case Some(err) => Unhealthy("unhealthy: " + err)
  }

  /** The closure's captured state, and its two critical sections. */
  class HealthEndpoint {
    var last: int
    var lastOK: bool
    var lastErr: Option<string>

    constructor ()
      ensures Contents() == INITIAL
    {
      last, lastOK, lastErr := ZERO_TIME, false, None;
    }

    ghost function Contents(): Memo
      reads this
    {
      Memo(last, lastOK, lastErr)
    }

    /** Under the read lock: an answer, if the memo is fresh enough for a request that read the clock at now. */
    method Read(now: int) returns (r: Option<Response>)
      ensures r == if Fresh(now, Contents()) then Some(FromMemo(Contents())) else None
      ensures r.Some? <==> now < last + SECOND
      ensures r.Some? && lastOK ==> r.value == Healthy(true)
      ensures r.Some? && !lastOK && lastErr.Some? ==> r.value == Unhealthy("unhealthy: " + lastErr.value)
    {
      var cachedLast, cachedOK, cachedErr := last, lastOK, lastErr;
      if now - cachedLast < SECOND {
        if cachedOK {
          return Some(Healthy(true));
        }
        return Some(if cachedErr.Some? then Unhealthy("unhealthy: " + cachedErr.value) else Crash);
      }
      r := None;
    }

    /** Under the write lock: the outcome of a check, under the clock reading its request began with. */
    method Publish(now: int, outcome: Outcome) returns (r: Response)
      modifies this
      ensures Contents() == MemoOf(now, outcome) && r == FromCheck(outcome)
      ensures outcome.None? ==> r == Healthy(false) && lastOK
      ensures outcome.Some? ==> r == Unhealthy("unhealthy: " + outcome.value) && !lastOK && lastErr == outcome
    {
      last := now;
      lastOK := outcome.None?;
      lastErr := outcome;
      if outcome.Some? {
        return Unhealthy("unhealthy: " + outcome.value);
      }
      r := Healthy(false);
    }
  }

  // ----- Interleavings -----

  datatype Request =
    | Began(now: int)                        // has read the clock
    | Checking(now: int)                     // found the memo too old; the check is running
    | Checked(now: int, outcome: Outcome)    // the check has completed
    | Published(now: int, outcome: Outcome, response: Response)  // has overwritten the memo; answers by its own check
    | Served(now: int, response: Response)                       // answered from the memo

  datatype State = State(clock: int, memo: Memo, requests: seq<Request>)

  datatype Event =
    | Tick(d: nat)
    | Arrive
    | ReadMemo(r: nat)
    | Finish(r: nat, outcome: Outcome)
    | WriteMemo(r: nat)

  /** The clock is past the epoch when the endpoint is set up. */
  predicate Initial(s: State) {
    s.clock >= 0 && s.memo == INITIAL && s.requests == []
  }

  predicate Enabled(s: State, e: Event) {
    match e
    case Tick(_) => true
    case Arrive => true
    case ReadMemo(r) => r < |s.requests| && s.requests[r].Began?
    case Finish(r, _) => r < |s.requests| && s.requests[r].Checking?
    case WriteMemo(r) => r < |s.requests| && s.requests[r].Checked?
  }

  function Apply(s: State, e: Event): State
    requires Enabled(s, e)
  {
    match e
    case Tick(d) => s.(clock := s.clock + d)
    case Arrive => s.(requests := s.requests + [Began(s.clock)])
    case ReadMemo(r) =>
      var now := s.requests[r].now;
      s.(requests := s.requests[r := if Fresh(now, s.memo) then Served(now, FromMemo(s.memo)) else Checking(now)])
    case Finish(r, outcome) => s.(requests := s.requests[r := Checked(s.requests[r].now, outcome)])
    case WriteMemo(r) =>
      var Checked(now, outcome) := s.requests[r];
      s.(memo := MemoOf(now, outcome), requests := s.requests[r := Published(now, outcome, FromCheck(outcome))])
  }

  ghost predicate IsRun(states: seq<State>, events: seq<Event>) {
    && |states| == |events| + 1
    && Initial(states[0])
    && forall i :: 0 <= i < |events| ==> StepAt(states, events, i)
  }

  ghost predicate StepAt(states: seq<State>, events: seq<Event>, i: nat)
    requires i < |events| < |states|
  {
    Enabled(states[i], events[i]) && states[i + 1] == Apply(states[i], events[i])
  }

  /** The request has completed a check, begun at that reading and with that outcome, and published it. */
  predicate IsPublished(request: Request, now: int, outcome: Outcome) {
    request.Published? && request.now == now && request.outcome == outcome
  }

  /** Some request has. */
  ghost predicate CheckPublished(s: State, now: int, outcome: Outcome) {
    exists r :: 0 <= r < |s.requests| && IsPublished(s.requests[r], now, outcome)
  }

  /** The response of a check's own request as later requests repeat it: the cached flag is set when healthy. */
  function Repeated(response: Response): Response {
    if response == Healthy(false) then Healthy(true) else response
  }

  /** A cached answer repeats that of a request whose check began later than one second before the request did. */
  ghost predicate Explained(s: State, now: int, response: Response) {
    exists r :: 0 <= r < |s.requests| && Explains(s.requests[r], now, response)
  }

  predicate Explains(publisher: Request, now: int, response: Response) {
    publisher.Published? && now - SECOND < publisher.now && response == Repeated(publisher.response)
  }

  ghost predicate Invariant(s: State) {
    && s.clock >= 0
    && (s.memo == INITIAL ||
        exists began, outcome :: CheckPublished(s, began, outcome) && s.memo == MemoOf(began, outcome))
    && (forall r :: 0 <= r < |s.requests| ==>
          0 <= s.requests[r].now <= s.clock
          && (s.requests[r].Published? ==> s.requests[r].response == FromCheck(s.requests[r].outcome))
          && (s.requests[r].Served? ==> Explained(s, s.requests[r].now, s.requests[r].response)))
  }

  lemma PublishedStays(s: State, e: Event, now: int, outcome: Outcome)
    requires Enabled(s, e) && CheckPublished(s, now, outcome)
    ensures CheckPublished(Apply(s, e), now, outcome)
  {
    var r :| 0 <= r < |s.requests| && IsPublished(s.requests[r], now, outcome);
    assert Apply(s, e).requests[r] == s.requests[r];
  }

  lemma ExplainedStays(s: State, e: Event, now: int, response: Response)
    requires Enabled(s, e) && Explained(s, now, response)
    ensures Explained(Apply(s, e), now, response)
  {
    var r :| 0 <= r < |s.requests| && Explains(s.requests[r], now, response);
    assert Apply(s, e).requests[r] == s.requests[r];
  }

  lemma MemoKept(s: State, e: Event)
    requires Invariant(s) && Enabled(s, e)
    ensures var s' := Apply(s, e);
      s'.memo == INITIAL ||
      exists began, outcome :: CheckPublished(s', began, outcome) && s'.memo == MemoOf(began, outcome)
  {
    var s' := Apply(s, e);
    if e.WriteMemo? {
      var Checked(now, outcome) := s.requests[e.r];
      assert IsPublished(s'.requests[e.r], now, outcome);
    } else if s.memo != INITIAL {
      var began, outcome :| CheckPublished(s, began, outcome) && s.memo == MemoOf(began, outcome);
      PublishedStays(s, e, began, outcome);
    }
  }

  /** The memo is fresh only if it has been written: the zero time is more than a second before every reading. */
  lemma FreshMemoExplains(s: State, now: int)
    requires Invariant(s) && now >= 0 && Fresh(now, s.memo)
    ensures Explained(s, now, FromMemo(s.memo))
  {
    assert s.memo != INITIAL;
    var began, outcome :| CheckPublished(s, began, outcome) && s.memo == MemoOf(began, outcome);
    var r :| 0 <= r < |s.requests| && IsPublished(s.requests[r], began, outcome);
    assert Explains(s.requests[r], now, FromMemo(s.memo));
  }

  lemma InvariantKept(s: State, e: Event)
    requires Invariant(s) && Enabled(s, e)
    ensures Invariant(Apply(s, e))
  {
    var s' := Apply(s, e);
    MemoKept(s, e);
    forall r | 0 <= r < |s'.requests|
      ensures 0 <= s'.requests[r].now <= s'.clock
      ensures s'.requests[r].Published? ==> s'.requests[r].response == FromCheck(s'.requests[r].outcome)
      ensures s'.requests[r].Served? ==> Explained(s', s'.requests[r].now, s'.requests[r].response)
    {
      if r < |s.requests| && s'.requests[r].Served? {
        if s.requests[r].Began? {
          FreshMemoExplains(s, s.requests[r].now);
        }
        ExplainedStays(s, e, s'.requests[r].now, s'.requests[r].response);
      }
    }
  }

  lemma {:induction false} RunInvariant(states: seq<State>, events: seq<Event>, n: nat)
    requires IsRun(states, events) && n < |states|
    ensures Invariant(states[n])
  {
    if n == 0 {
    } else {
      RunInvariant(states, events, n - 1);
      assert StepAt(states, events, n - 1);
      InvariantKept(states[n - 1], events[n - 1]);
    }
  }

  /** In every interleaving a request that ran its own check is answered by that check: 200 without the cached flag if
      it reported no error, and otherwise 503 with its error. */
  lemma OwnCheckAnswers(states: seq<State>, events: seq<Event>, n: nat, r: nat)
    requires IsRun(states, events) && n < |states| && r < |states[n].requests| && states[n].requests[r].Published?
    ensures
      var Published(_, outcome, response) := states[n].requests[r];
      && (response == Healthy(false) <==> outcome.None?)
      && (outcome.Some? ==> response == Unhealthy("unhealthy: " + outcome.value))
  {
    RunInvariant(states, events, n);
  }

  /** In every interleaving each cached answer is that of a request which completed its own check, with the same status
      and message and the cached flag when healthy, and whose clock reading is later than this request's minus one
      second; and the failing branch never finds a nil error. */
  lemma CachedAnswersAreRecent(states: seq<State>, events: seq<Event>, n: nat, r: nat)
    requires IsRun(states, events) && n < |states| && r < |states[n].requests| && states[n].requests[r].Served?
    ensures states[n].requests[r].response != Crash
    ensures exists p ::
      && 0 <= p < |states[n].requests|
      && Explains(states[n].requests[p], states[n].requests[r].now, states[n].requests[r].response)
  {
    RunInvariant(states, events, n);
    assert Explained(states[n], states[n].requests[r].now, states[n].requests[r].response);
  }

  /** A published outcome is that of a check which that very request ran, finished before it was published. */
  lemma {:induction false} PublishedWasChecked(states: seq<State>, events: seq<Event>, n: nat, r: nat)
    requires IsRun(states, events) && n < |states| && r < |states[n].requests|
    requires states[n].requests[r].Published? || states[n].requests[r].Checked?
    ensures exists i :: 0 <= i < n && events[i] == Finish(r, states[n].requests[r].outcome)
              && r < |states[i].requests| && states[i].requests[r] == Checking(states[n].requests[r].now)
  {
    assert StepAt(states, events, n - 1);
    var s, e := states[n - 1], events[n - 1];
    if e == Finish(r, states[n].requests[r].outcome) {
    } else {
      assert r < |s.requests|;
      PublishedWasChecked(states, events, n - 1, r);
    }
  }

  /** The i-th event is the last write of the memo before the n-th state. */
  ghost predicate LastWrite(states: seq<State>, events: seq<Event>, n: nat, i: nat)
    requires n <= |events| < |states|
  {
    && i < n && events[i].WriteMemo? && Enabled(states[i], events[i])
    && forall j :: i < j < n ==> !events[j].WriteMemo?
  }

  lemma {:induction false} MemoIsLastWrite(states: seq<State>, events: seq<Event>, n: nat, i: nat)
    requires IsRun(states, events) && n <= |events| && LastWrite(states, events, n, i)
    ensures var Checked(now, outcome) := states[i].requests[events[i].r];
      states[n].memo == MemoOf(now, outcome)
  {
    assert StepAt(states, events, n - 1);
    if i == n - 1 {
    } else {
      MemoIsLastWrite(states, events, n - 1, i);
    }
  }

  lemma {:induction false} MemoUnwritten(states: seq<State>, events: seq<Event>, n: nat)
    requires IsRun(states, events) && n <= |events| && forall j :: 0 <= j < n ==> !events[j].WriteMemo?
    ensures states[n].memo == INITIAL
  {
    if n == 0 {
    } else {
      MemoUnwritten(states, events, n - 1);
      assert StepAt(states, events, n - 1);
    }
  }

  /** Until a check has been published every request runs one of its own. */
  lemma FirstRequestsCheck(states: seq<State>, events: seq<Event>, n: nat)
    requires IsRun(states, events) && n < |events| && events[n].ReadMemo?
    requires forall j :: 0 <= j < n ==> !events[j].WriteMemo?
    ensures var r := events[n].r;
      r < |states[n].requests| && r < |states[n + 1].requests|
      && states[n + 1].requests[r] == Checking(states[n].requests[r].now)
  {
    MemoUnwritten(states, events, n);
    RunInvariant(states, events, n);
    assert StepAt(states, events, n);
  }

  /** What the memo buys: a request starts a check of its own only if the last check published, whenever that was, began
      at least a second before the request's reading; any other request answers with that check's outcome. */
  lemma ChecksAreSpaced(states: seq<State>, events: seq<Event>, n: nat, i: nat)
    requires IsRun(states, events) && n < |events| && events[n].ReadMemo? && LastWrite(states, events, n, i)
    ensures
      var Checked(began, outcome) := states[i].requests[events[i].r];
      var r := events[n].r;
      && r < |states[n].requests| && r < |states[n + 1].requests|
      && var now := states[n].requests[r].now;
         if states[n + 1].requests[r].Checking? then began + SECOND <= now
         else now < began + SECOND
              && states[n + 1].requests[r] == Served(now, if outcome.None? then Healthy(true)
                                                          else Unhealthy("unhealthy: " + outcome.value))
  {
    MemoIsLastWrite(states, events, n, i);
    assert StepAt(states, events, n);
  }

  // ----- Late finishers -----

  /** The event publishes a check after one with a later clock reading has been published. */
  ghost predicate PublishesLate(s: State, e: Event) {
    && e.WriteMemo? && Enabled(s, e)
    && exists began, outcome :: CheckPublished(s, began, outcome) && s.requests[e.r].now < began
  }

  /** No event so far has done that. */
  ghost predicate NoneLate(states: seq<State>, events: seq<Event>, n: nat)
    requires n <= |events| < |states|
  {
    forall i :: 0 <= i < n ==> !PublishesLate(states[i], events[i])
  }

  /** No published check has a later reading than the memo. */
  ghost predicate HoldsNewest(s: State) {
    forall began, outcome :: CheckPublished(s, began, outcome) ==> began <= s.memo.last
  }

  ghost predicate NewestSoFar(states: seq<State>, n: nat)
    requires n < |states|
  {
    forall m :: 0 <= m <= n ==> HoldsNewest(states[m])
  }

  ghost predicate NeverMovesBack(states: seq<State>, n: nat)
    requires n < |states|
  {
    forall i :: 0 <= i < n ==> states[i].memo.last <= states[i + 1].memo.last
  }

  lemma PublishedByStep(s: State, e: Event, began: int, outcome: Outcome)
    requires Enabled(s, e) && CheckPublished(Apply(s, e), began, outcome)
    ensures CheckPublished(s, began, outcome) || (e.WriteMemo? && began == s.requests[e.r].now)
  {
    var r :| 0 <= r < |Apply(s, e).requests| && IsPublished(Apply(s, e).requests[r], began, outcome);
    assert (r < |s.requests| && s.requests[r] == Apply(s, e).requests[r]) || (e.WriteMemo? && e.r == r);
  }

  /** A step that publishes nothing late keeps the newest reading, and does not move the memo back. */
  lemma NewestKept(s: State, e: Event)
    requires Invariant(s) && Enabled(s, e) && HoldsNewest(s) && !PublishesLate(s, e)
    ensures HoldsNewest(Apply(s, e)) && s.memo.last <= Apply(s, e).memo.last
  {
    var s' := Apply(s, e);
    forall began, outcome | CheckPublished(s', began, outcome) ensures began <= s'.memo.last {
      PublishedByStep(s, e, began, outcome);
    }
    if e.WriteMemo? && s.memo != INITIAL {
      var began, outcome :| CheckPublished(s, began, outcome) && s.memo == MemoOf(began, outcome);
    }
  }

  /** A step that does not move the memo back keeps the newest reading. */
  lemma ForwardKeepsNewest(s: State, e: Event)
    requires Enabled(s, e) && HoldsNewest(s) && s.memo.last <= Apply(s, e).memo.last
    ensures HoldsNewest(Apply(s, e))
  {
    var s' := Apply(s, e);
    forall began, outcome | CheckPublished(s', began, outcome) ensures began <= s'.memo.last {
      PublishedByStep(s, e, began, outcome);
    }
  }

  /** After a late publication the memo does not hold the newest reading. */
  lemma LateLosesNewest(s: State, e: Event)
    requires Enabled(s, e) && PublishesLate(s, e)
    ensures !HoldsNewest(Apply(s, e))
  {
    var began, outcome :| CheckPublished(s, began, outcome) && s.requests[e.r].now < began;
    PublishedStays(s, e, began, outcome);
  }

  lemma {:induction false} NoneLateIsNewest(states: seq<State>, events: seq<Event>, n: nat)
    requires IsRun(states, events) && n <= |events| && NoneLate(states, events, n)
    ensures NewestSoFar(states, n) && NeverMovesBack(states, n)
  {
    if n == 0 {
    } else {
      NoneLateIsNewest(states, events, n - 1);
      RunInvariant(states, events, n - 1);
      assert StepAt(states, events, n - 1);
      NewestKept(states[n - 1], events[n - 1]);
    }
  }

  lemma {:induction false} ForwardIsNewest(states: seq<State>, events: seq<Event>, n: nat)
    requires IsRun(states, events) && n <= |events| && NeverMovesBack(states, n)
    ensures NewestSoFar(states, n)
  {
    if n == 0 {
    } else {
      ForwardIsNewest(states, events, n - 1);
      assert StepAt(states, events, n - 1);
      ForwardKeepsNewest(states[n - 1], events[n - 1]);
    }
  }

  lemma NewestIsNoneLate(states: seq<State>, events: seq<Event>, n: nat)
    requires IsRun(states, events) && n <= |events| && NewestSoFar(states, n)
    ensures NoneLate(states, events, n)
  {
    forall i | 0 <= i < n ensures !PublishesLate(states[i], events[i]) {
      assert StepAt(states, events, i);
      if PublishesLate(states[i], events[i]) {
        LateLosesNewest(states[i], events[i]);
      }
    }
  }

  /** Exactly when the memo keeps the newest outcome. Its time never moves back if and only if no request has published
      after one with a later clock reading; and if and only if the memo has always held the greatest reading published.
      */
  lemma MemoNeverMovesBackExactly(states: seq<State>, events: seq<Event>, n: nat)
    requires IsRun(states, events) && n <= |events|
    ensures NeverMovesBack(states, n) <==> NoneLate(states, events, n)
    ensures NewestSoFar(states, n) <==> NoneLate(states, events, n)
  {
    if NoneLate(states, events, n) {
      NoneLateIsNewest(states, events, n);
    }
    if NeverMovesBack(states, n) {
      ForwardIsNewest(states, events, n);
    }
    if NewestSoFar(states, n) {
      NewestIsNoneLate(states, events, n);
    }
  }

  /** Some check published so far began less than a second before that reading, or after it. */
  ghost predicate RecentlyChecked(s: State, now: int) {
    exists began, outcome :: CheckPublished(s, began, outcome) && now - SECOND < began
  }

  /** The memo answers every request that some published check could answer. */
  ghost predicate AnswersAll(s: State) {
    forall now: nat :: Fresh(now, s.memo) <==> RecentlyChecked(s, now)
  }

  lemma NewestAnswersAll(s: State)
    requires Invariant(s)
    ensures HoldsNewest(s) <==> AnswersAll(s)
  {
    if HoldsNewest(s) {
      forall now: nat ensures Fresh(now, s.memo) <==> RecentlyChecked(s, now) {
        if Fresh(now, s.memo) {
          assert s.memo != INITIAL;
          var began, outcome :| CheckPublished(s, began, outcome) && s.memo == MemoOf(began, outcome);
        }
      }
    }
    if AnswersAll(s) {
      forall began, outcome | CheckPublished(s, began, outcome) ensures began <= s.memo.last {
        var r :| 0 <= r < |s.requests| && IsPublished(s.requests[r], began, outcome);
        var now: nat := began + SECOND - 1;
        assert RecentlyChecked(s, now);
        assert Fresh(now, s.memo);
      }
    }
  }

  /** What that buys, exactly. In the runs without a late publication, and in no others, the memo has at every instant
      answered whatever reading some published check could answer. */
  lemma AnswersAllExactly(states: seq<State>, events: seq<Event>, n: nat)
    requires IsRun(states, events) && n <= |events|
    ensures NoneLate(states, events, n) <==> forall m :: 0 <= m <= n ==> AnswersAll(states[m])
  {
    MemoNeverMovesBackExactly(states, events, n);
    forall m | 0 <= m <= n ensures HoldsNewest(states[m]) <==> AnswersAll(states[m]) {
      RunInvariant(states, events, m);
      NewestAnswersAll(states[m]);
    }
  }

  /** So in such a run a request runs a check of its own if and only if no published check began less than a second
      before its reading. */
  lemma ChecksOnlyWhenNeeded(states: seq<State>, events: seq<Event>, n: nat)
    requires IsRun(states, events) && n < |events| && events[n].ReadMemo? && NoneLate(states, events, n)
    ensures var r := events[n].r;
      && r < |states[n].requests| && r < |states[n + 1].requests|
      && (states[n + 1].requests[r].Checking? <==> !RecentlyChecked(states[n], states[n].requests[r].now))
  {
    AnswersAllExactly(states, events, n);
    RunInvariant(states, events, n);
    assert StepAt(states, events, n);
    assert AnswersAll(states[n]);
  }

  /** A late finisher moves the memo back, and costs a check: whatever the two readings and outcomes, and whenever a
      request comes that the newer outcome could still answer and the older one cannot. */
  lemma LateFinisherMovesBack(early: nat, later: nat, now: int, ok: Outcome, late: Outcome)
    returns (states: seq<State>, events: seq<Event>)
    requires early < later <= now && early + SECOND <= now < later + SECOND
    ensures IsRun(states, events) && |events| == 12
    ensures states[8].memo == MemoOf(later, ok) && states[9].memo == MemoOf(early, late)
    ensures PublishesLate(states[8], events[8])
    ensures RecentlyChecked(states[11], now)
    ensures |states[12].requests| == 3 && states[12].requests[2] == Checking(now)
  {
    states, events := TwoChecks(early, later, ok, late);
    var published := Published(later, ok, FromCheck(ok));
    var both := [Published(early, late, FromCheck(late)), published];
    states, events := Extend(states, events, WriteMemo(1),
                             State(later, MemoOf(later, ok), [Checked(early, late), published]));
    assert PublishesLate(states[8], WriteMemo(0)) by {
      assert IsPublished(states[8].requests[1], later, ok);
      assert CheckPublished(states[8], later, ok);
    }
    states, events := Extend(states, events, WriteMemo(0), State(later, MemoOf(early, late), both));
    states, events := Extend(states, events, Tick(now - later), State(now, MemoOf(early, late), both));
    states, events := Extend(states, events, Arrive, State(now, MemoOf(early, late), both + [Began(now)]));
    assert CheckPublished(states[11], later, ok) by {
      assert IsPublished(states[11].requests[1], later, ok);
    }
    states, events := Extend(states, events, ReadMemo(2), State(now, MemoOf(early, late), both + [Checking(now)]));
  }

  /** Two requests whose checks overlap; the first is still to publish when the second has finished. */
  lemma TwoChecks(early: nat, later: nat, ok: Outcome, late: Outcome) returns (states: seq<State>, events: seq<Event>)
    requires early < later
    ensures IsRun(states, events) && |events| == 7
    ensures states[7] == State(later, INITIAL, [Checked(early, late), Checked(later, ok)])
  {
    states, events := [State(early, INITIAL, [])], [];
    states, events := Extend(states, events, Arrive, State(early, INITIAL, [Began(early)]));
    states, events := Extend(states, events, ReadMemo(0), State(early, INITIAL, [Checking(early)]));
    states, events := Extend(states, events, Tick(later - early), State(later, INITIAL, [Checking(early)]));
    states, events := Extend(states, events, Arrive, State(later, INITIAL, [Checking(early), Began(later)]));
    states, events := Extend(states, events, ReadMemo(1), State(later, INITIAL, [Checking(early), Checking(later)]));
    states, events := Extend(
      states, events, Finish(1, ok), State(later, INITIAL, [Checking(early), Checked(later, ok)]));
    states, events := Extend(
      states, events, Finish(0, late), State(later, INITIAL, [Checked(early, late), Checked(later, ok)]));
  }

  lemma Extend(states: seq<State>, events: seq<Event>, e: Event, s: State)
    returns (states': seq<State>, events': seq<Event>)
    requires IsRun(states, events) && Enabled(states[|events|], e) && s == Apply(states[|events|], e)
    ensures IsRun(states', events') && events' == events + [e] && states' == states + [s]
  {
    states', events' := states + [s], events + [e];
    forall i | 0 <= i < |events'| ensures StepAt(states', events', i) {
      if i < |events| {
        assert StepAt(states, events, i);
      }
    }
  }
}
