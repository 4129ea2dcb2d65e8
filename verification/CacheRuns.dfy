/** What holds over every run of the cache protocol: any number of readers and writers, in any interleaving, with any
    failures. */
module CacheRuns {
  import opened CacheExpiry
  import opened CacheProtocol
  import opened Durations
  import opened Options
  import opened ProductCodec
  import opened Products

  /** A run: an initial state, and one state more per event. */
  ghost predicate IsRun(states: seq<State>, events: seq<Event>) {
    && |states| == |events| + 1
    && Initial(states[0])
    && forall i :: 0 <= i < |events| ==> StepAt(states, events, i)
  }

  ghost predicate StepAt(states: seq<State>, events: seq<Event>, i: nat)
    requires i < |events| < |states|
  {
    Enabled(states[i], events[i]) && states[i + 1] == Apply(states[i], events[i])
  }

  lemma {:induction false} RunInvariant(states: seq<State>, events: seq<Event>, n: nat)
    requires IsRun(states, events) && n < |states|
    ensures Invariant(states[n])
  {
    if n == 0 {
      InitialInvariant(states[0]);
    } else {
      RunInvariant(states, events, n - 1);
      assert StepAt(states, events, n - 1);
      InvariantKept(states[n - 1], events[n - 1]);
    }
  }

  lemma ClockStep(s: State, e: Event)
    requires Enabled(s, e)
    ensures s.clock <= Apply(s, e).clock && Apply(s, e).ttl == s.ttl
  {
  }

  lemma {:induction false} ClockAdvances(states: seq<State>, events: seq<Event>, i: nat, j: nat)
    requires IsRun(states, events) && i <= j < |states|
    ensures states[i].clock <= states[j].clock && states[i].ttl == states[j].ttl
  {
    if i == j {
    } else {
      ClockAdvances(states, events, i, j - 1);
      assert StepAt(states, events, j - 1);
      ClockStep(states[j - 1], events[j - 1]);
    }
  }

  // ----- Versions -----

  /** The event is a commit of the id that takes effect, acknowledged or not. */
  predicate CommitsKey(s: State, e: Event, id: nat) {
    e.Commit? && e.p < |s.processes| && s.processes[e.p].Writing? && s.processes[e.p].id == id
    && TakesEffect(s.table, id, s.processes[e.p].value, e.fault)
  }

  lemma VersionStep(s: State, e: Event, id: nat)
    requires Enabled(s, e)
    ensures Version(Apply(s, e).writes, id) == Version(s.writes, id) + if CommitsKey(s, e, id) then 1 else 0
  {
  }

  /** Versions never fall, and a version grows exactly if a commit of the id takes effect in between. */
  lemma {:induction false} VersionsGrow(states: seq<State>, events: seq<Event>, i: nat, j: nat, id: nat)
    requires IsRun(states, events) && i <= j < |states|
    ensures Version(states[i].writes, id) <= Version(states[j].writes, id)
    ensures Version(states[i].writes, id) < Version(states[j].writes, id) <==>
      exists k :: i <= k < j && CommitsKey(states[k], events[k], id)
    decreases j
  {
    if i == j {
    } else {
      VersionsGrow(states, events, i, j - 1, id);
      assert StepAt(states, events, j - 1);
      VersionStep(states[j - 1], events[j - 1], id);
    }
  }

  // ----- Authenticity -----

  /** The repository held this value for the id in one of the states up to n. */
  ghost predicate HeldBy(states: seq<State>, n: nat, id: nat, value: Option<Product>)
    requires n < |states|
  {
    exists j :: 0 <= j <= n && Lookup(states[j].table, id) == value
  }

  /** Every numbered value was what a query returned, at some instant of the run. */
  lemma {:induction false} VersionsWereHeld(states: seq<State>, events: seq<Event>, n: nat, id: nat, v: nat)
    requires IsRun(states, events) && n < |states| && v <= Version(states[n].writes, id)
    ensures HeldBy(states, n, id, ValueAt(states[n].writes, id, v))
  {
    RunInvariant(states, events, n);
    if v == Version(states[n].writes, id) {
      assert Lookup(states[n].table, id) == ValueAt(states[n].writes, id, v);
    } else if n > 0 {
      assert StepAt(states, events, n - 1);
      WritesGrow(states[n - 1], events[n - 1], id);
      VersionsWereHeld(states, events, n - 1, id, v);
      var j :| 0 <= j <= n - 1 && Lookup(states[j].table, id) == ValueAt(states[n - 1].writes, id, v);
    }
  }

  lemma ReplyWasHeld(states: seq<State>, events: seq<Event>, n: nat, id: nat, text: string, v: nat)
    requires IsRun(states, events) && n < |states| && IsVersion(states[n].writes, id, v, text)
    ensures exists j :: 0 <= j <= n && AnswerOfText(text) == PlainAnswer(Lookup(states[j].table, id))
    ensures AnswerOfText(text).Found? ==> AnswerOfText(text).product.id == id
  {
    RunInvariant(states, events, n);
    VersionsWereHeld(states, events, n, id, v);
    var value := ValueAt(states[n].writes, id, v);
    TextKeepsAnswer(value);
    var j :| 0 <= j <= n && Lookup(states[j].table, id) == value;
    assert AnswerOfText(text) == PlainAnswer(Lookup(states[j].table, id));
  }

  /** Every answer GetByID derives from a cached or loaded text is one the service without a cache would have given at
      some instant of the run; in particular a product returned was held for that very id, and the text always decodes.
      */
  lemma AnswersAuthentic(states: seq<State>, events: seq<Event>, n: nat, p: nat)
    requires IsRun(states, events) && n < |states| && p < |states[n].processes|
    requires states[n].processes[p].Answered? && states[n].processes[p].reply.Text?
    ensures
      var Answered(id, Text(text, _)) := states[n].processes[p];
      && (exists j :: 0 <= j <= n && AnswerOfText(text) == PlainAnswer(Lookup(states[j].table, id)))
      && (AnswerOfText(text).Found? ==> AnswerOfText(text).product.id == id)
  {
    RunInvariant(states, events, n);
    assert ProcessAuthentic(states[n].writes, states[n].processes[p]);
    var Answered(id, Text(text, v)) := states[n].processes[p];
    ReplyWasHeld(states, events, n, id, text, v);
  }

  // ----- How old an answer can be -----

  /** The text a call holds, in whatever stage. */
  function TextHeld(stage: Stage): Option<Reply> {
    match stage
    case Loaded(text, version) => Some(Text(text, version))
    case Returning(reply) => if reply.Text? then Some(reply) else None
    case Landed(reply) => if reply.Text? then Some(reply) else None
    case _ => None
  }

  /** The event is where a call obtains this text: its second lookup hits, or it queries the repository. */
  predicate FlightObtains(s: State, e: Event, c: nat, reply: Reply) {
    && c < |s.calls| && Enabled(s, e)
    && var id := s.calls[c].id;
       || (e == Recheck(c, false) && Hit(s, id).Some? && reply == HitReply(s, id))
       || (e == Load(c, false) && reply == Text(TextOf(Lookup(s.table, id)), Version(s.writes, id)))
  }

  /** The event is where a reader's own first lookup hits. */
  predicate ReaderHits(s: State, e: Event, p: nat, reply: Reply) {
    && e == FirstGet(p, false) && Enabled(s, e)
    && var id := s.processes[p].id; Hit(s, id).Some? && reply == HitReply(s, id)
  }

  lemma TextOrigin(s: State, e: Event, c: nat, reply: Reply)
    requires Enabled(s, e) && c < |Apply(s, e).calls| && TextHeld(Apply(s, e).calls[c].stage) == Some(reply)
    ensures c < |s.calls| && (TextHeld(s.calls[c].stage) == Some(reply) || FlightObtains(s, e, c, reply))
  {
    if !CallStep(e, c) {
      OthersLeaveCall(s, e, c);
    }
  }

  /** Every text a call holds was obtained by that call, at one event of the run. */
  lemma {:induction false} FlightTextObtained(states: seq<State>, events: seq<Event>, n: nat, c: nat, reply: Reply)
    requires IsRun(states, events) && n < |states| && c < |states[n].calls|
    requires TextHeld(states[n].calls[c].stage) == Some(reply)
    ensures exists j :: 0 <= j < n && FlightObtains(states[j], events[j], c, reply)
    ensures forall j :: 0 <= j < n && c < |states[j].calls| ==> states[j].calls[c].id == states[n].calls[c].id
  {
    if n == 0 {
    } else {
      CallIdsStay(states, events, n, c);
      assert StepAt(states, events, n - 1);
      TextOrigin(states[n - 1], events[n - 1], c, reply);
      if TextHeld(states[n - 1].calls[c].stage) == Some(reply) {
        FlightTextObtained(states, events, n - 1, c, reply);
      }
    }
  }

  lemma {:induction false} CallIdsStay(states: seq<State>, events: seq<Event>, n: nat, c: nat)
    requires IsRun(states, events) && n < |states| && c < |states[n].calls|
    ensures forall j :: 0 <= j < n && c < |states[j].calls| ==> states[j].calls[c].id == states[n].calls[c].id
  {
    if n == 0 {
    } else {
      assert StepAt(states, events, n - 1);
      if c < |states[n - 1].calls| {
        CallsKeepIds(states[n - 1], events[n - 1], c);
        CallIdsStay(states, events, n - 1, c);
      } else {
        CallsGrow(states, events, n - 1);
      }
    }
  }

  lemma StepGrows(s: State, e: Event)
    requires Enabled(s, e)
    ensures |s.calls| <= |Apply(s, e).calls| && |s.processes| <= |Apply(s, e).processes|
  {
  }

  lemma {:induction false} CallsGrow(states: seq<State>, events: seq<Event>, n: nat)
    requires IsRun(states, events) && n < |states|
    ensures forall j :: 0 <= j < n ==> |states[j].calls| <= |states[n].calls|
  {
    if n == 0 {
    } else {
      CallsGrow(states, events, n - 1);
      assert StepAt(states, events, n - 1);
      StepGrows(states[n - 1], events[n - 1]);
    }
  }

  /** The j-th event is where the answer of the reader p came from: its own hit, or the text the call it waited on
      obtained. */
  ghost predicate AnswerFrom(states: seq<State>, events: seq<Event>, n: nat, p: nat, reply: Reply, j: nat)
    requires n < |states| == |events| + 1
  {
    && j < n
    && (|| ReaderHits(states[j], events[j], p, reply)
        || exists m :: j < m < n && p < |states[m].processes| && states[m].processes[p].Waiting?
                       && FlightObtains(states[j], events[j], states[m].processes[p].call, reply))
  }

  /** What the lookup at that event was for, and when the text was current. */
  lemma AnswerOrigin(s: State, e: Event, p: nat)
    requires Enabled(s, e) && p < |Apply(s, e).processes| && Apply(s, e).processes[p].Answered?
    requires Apply(s, e).processes[p].reply.Text?
    ensures p < |s.processes|
    ensures
      var reply := Apply(s, e).processes[p].reply;
      || s.processes[p] == Apply(s, e).processes[p]
      || (ReaderHits(s, e, p, reply) && s.processes[p].id == Apply(s, e).processes[p].id)
      || (s.processes[p].Waiting? && s.processes[p].id == Apply(s, e).processes[p].id
          && s.processes[p].call < |s.calls| && s.calls[s.processes[p].call].stage == Landed(reply))
  {
    if !ProcessStep(e, p) {
      OthersLeaveProcess(s, e, p);
    }
  }

  /** The text was read from the entry of the id, or from the repository at its version then. */
  predicate ObtainedFor(s: State, e: Event, id: nat, reply: Reply) {
    if e.Load? then reply == Text(TextOf(Lookup(s.table, id)), Version(s.writes, id))
    else Hit(s, id).Some? && reply == HitReply(s, id)
  }

  /** The text a reader collects from a landed call was obtained by that call, for the reader's id. */
  lemma CollectedText(states: seq<State>, events: seq<Event>, n: nat, p: nat, reply: Reply) returns (j: nat)
    requires IsRun(states, events) && n < |states| && p < |states[n].processes| && states[n].processes[p].Waiting?
    requires reply.Text? && states[n].processes[p].call < |states[n].calls|
    requires states[n].calls[states[n].processes[p].call].stage == Landed(reply)
    ensures j < n && FlightObtains(states[j], events[j], states[n].processes[p].call, reply)
    ensures ObtainedFor(states[j], events[j], states[n].processes[p].id, reply)
  {
    var c := states[n].processes[p].call;
    RunInvariant(states, events, n);
    assert WaitersMatch(states[n].processes, states[n].calls);
    FlightTextObtained(states, events, n, c, reply);
    j :| 0 <= j < n && FlightObtains(states[j], events[j], c, reply);
  }

  lemma {:induction false} AnswerObtained(states: seq<State>, events: seq<Event>, n: nat, p: nat) returns (j: nat)
    requires IsRun(states, events) && n < |states| && p < |states[n].processes|
    requires states[n].processes[p].Answered? && states[n].processes[p].reply.Text?
    ensures j < n && AnswerFrom(states, events, n, p, states[n].processes[p].reply, j)
    ensures ObtainedFor(states[j], events[j], states[n].processes[p].id, states[n].processes[p].reply)
  {
    assert n > 0;
    var s, e, q := states[n - 1], events[n - 1], states[n].processes[p];
    assert StepAt(states, events, n - 1);
    AnswerOrigin(s, e, p);
    if s.processes[p] == q {
      j := AnswerObtained(states, events, n - 1, p);
    } else if ReaderHits(s, e, p, q.reply) {
      j := n - 1;
    } else {
      j := CollectedText(states, events, n - 1, p, q.reply);
    }
  }

  /** The i-th event is the arrival of the reader p, for this id. */
  ghost predicate ReaderStarts(states: seq<State>, events: seq<Event>, i: nat, p: nat, id: nat)
    requires i < |events| < |states|
  {
    events[i] == StartRead(id) && |states[i].processes| == p
  }

  /** How old an answer is, exactly. Each text answered was obtained at one event: the reader's own hit, or the second
      hit or the query of the flight it joined. It is older than the record was at the reader's start if and only if
      that was a hit on an entry already stale, as of the hit or the start, whichever came first; or a commit of the id
      took effect between that event and the start, which only a flight under way at the start allows. */
  lemma AnswerAge(states: seq<State>, events: seq<Event>, n: nat, i: nat, p: nat) returns (j: nat)
    requires IsRun(states, events) && n < |states| && i < |events| && p < |states[n].processes|
    requires states[n].processes[p].Answered? && states[n].processes[p].reply.Text?
    requires ReaderStarts(states, events, i, p, states[n].processes[p].id)
    ensures
      var Answered(id, reply) := states[n].processes[p];
      && j < n && AnswerFrom(states, events, n, p, reply, j) && ObtainedFor(states[j], events[j], id, reply)
      && IsVersion(states[n].writes, id, reply.read, reply.text)
      && (reply.read < Version(states[i].writes, id) <==>
          || (!events[j].Load? && reply.read < Version(states[if i < j then i else j].writes, id))
          || (exists k :: j <= k < i && CommitsKey(states[k], events[k], id)))
      && (j <= i ==> !events[j].FirstGet?)
  {
    var id, reply := states[n].processes[p].id, states[n].processes[p].reply;
    j := AnswerObtained(states, events, n, p);
    RunInvariant(states, events, n);
    assert ProcessAuthentic(states[n].writes, states[n].processes[p]);
    RunInvariant(states, events, j);
    if j <= i {
      VersionsGrow(states, events, j, i, id);
      ProcessesGrow(states, events, j, i);
    } else {
      VersionsGrow(states, events, i, j, id);
    }
    if !events[j].Load? {
      assert EntryAuthentic(states[j].writes, id, states[j].cache[id]);
    }
  }

  lemma {:induction false} ProcessesGrow(states: seq<State>, events: seq<Event>, i: nat, j: nat)
    requires IsRun(states, events) && i <= j < |states|
    ensures |states[i].processes| <= |states[j].processes|
    decreases j
  {
    if i == j {
    } else {
      ProcessesGrow(states, events, i, j - 1);
      assert StepAt(states, events, j - 1);
      StepGrows(states[j - 1], events[j - 1]);
    }
  }

  // ----- Flights -----

  /** At most one call of a key is between its second lookup and its Set: the others wait for it. */
  lemma OneLoaderPerKey(states: seq<State>, events: seq<Event>, n: nat, c: nat, d: nat)
    requires IsRun(states, events) && n < |states| && c < |states[n].calls| && d < |states[n].calls|
    requires Active(states[n].calls[c]) && Active(states[n].calls[d]) && states[n].calls[c].id == states[n].calls[d].id
    ensures c == d
  {
    RunInvariant(states, events, n);
  }

  lemma LandedKept(s: State, e: Event, c: nat)
    requires Enabled(s, e) && c < |s.calls| && s.calls[c].stage.Landed?
    ensures c < |Apply(s, e).calls| && Apply(s, e).calls[c] == s.calls[c]
  {
  }

  lemma {:induction false} LandedStays(states: seq<State>, events: seq<Event>, i: nat, k: nat, c: nat)
    requires IsRun(states, events) && i <= k < |states|
    requires c < |states[i].calls| && states[i].calls[c].stage.Landed?
    ensures c < |states[k].calls| && states[k].calls[c] == states[i].calls[c]
  {
    if i == k {
    } else {
      LandedStays(states, events, i, k - 1, c);
      assert StepAt(states, events, k - 1);
      LandedKept(states[k - 1], events[k - 1], c);
    }
  }

  /** Whoever led or joined a flight receives that flight's one result, whenever each collects it. */
  lemma FlightSharesOneResult(states: seq<State>, events: seq<Event>, i: nat, k: nat, p: nat, q: nat)
    requires IsRun(states, events) && i <= k < |events| && events[i] == Collect(p) && events[k] == Collect(q)
    requires Enabled(states[i], events[i]) && Enabled(states[k], events[k])
    requires states[i].processes[p].call == states[k].processes[q].call
    ensures p < |states[i + 1].processes| && q < |states[k + 1].processes|
    ensures states[i + 1].processes[p] == states[k + 1].processes[q] == Answered(
              states[i].processes[p].id, states[i].calls[states[i].processes[p].call].stage.reply)
  {
    RunInvariant(states, events, i);
    RunInvariant(states, events, k);
    LandedStays(states, events, i, k, states[i].processes[p].call);
    assert StepAt(states, events, i);
    assert StepAt(states, events, k);
  }

  /** The next step of an active call. */
  function NextOf(s: State, c: nat): Event
    requires c < |s.calls| && Active(s.calls[c])
  {
    match s.calls[c].stage
    case Rechecking => Recheck(c, false)
    case Loading => Load(c, false)
    case Loaded(_, _) => Store(c, false, 0)
    case Returning(_) => EndFlight(c)
  }

  function StepsLeft(stage: Stage): nat {
    match stage
    case Rechecking => 4
    case Loading => 3
    case Loaded(_, _) => 2
    case Returning(_) => 1
    case Landed(_) => 0
  }

  /** Every step of a flight, failed or not, brings it nearer to landing; other steps leave it alone. */
  lemma FlightsAdvance(s: State, e: Event, c: nat)
    requires Enabled(s, e) && c < |s.calls|
    ensures c < |Apply(s, e).calls|
    ensures if CallStep(e, c) then StepsLeft(Apply(s, e).calls[c].stage) < StepsLeft(s.calls[c].stage)
            else Apply(s, e).calls[c] == s.calls[c]
  {
    if !CallStep(e, c) {
      OthersLeaveCall(s, e, c);
    }
  }

  /** No waiter is ever stuck: it can collect, or the call it waits on can take its next step. */
  lemma WaitersAdvance(states: seq<State>, events: seq<Event>, n: nat, p: nat)
    requires IsRun(states, events) && n < |states| && p < |states[n].processes| && states[n].processes[p].Waiting?
    ensures states[n].processes[p].call < |states[n].calls|
    ensures
      var c := states[n].processes[p].call;
      if Active(states[n].calls[c])
      then
        var next := NextOf(states[n], c);
        Enabled(states[n], next) && Apply(states[n], next).calls[c] != states[n].calls[c]
      else Enabled(states[n], Collect(p))
  {
    RunInvariant(states, events, n);
  }

  // ----- Bounded staleness -----

  /** From here on the versions below v are gone from every load, and die in the cache by the deadline. */
  ghost predicate Receding(s: State, id: nat, v: nat, deadline: int) {
    && v <= Version(s.writes, id)
    && NoOldLoad(s, id, v)
    && (id in s.cache && s.cache[id].read < v ==> s.cache[id].expiresAt <= deadline)
  }

  /** No load of the id that read a version below v has its Set still to do. */
  ghost predicate NoOldLoad(s: State, id: nat, v: nat) {
    forall c :: 0 <= c < |s.calls| && s.calls[c].id == id && s.calls[c].stage.Loaded? ==> v <= s.calls[c].stage.version
  }

  lemma RecedingKept(s: State, e: Event, id: nat, v: nat, deadline: int)
    requires Receding(s, id, v, deadline) && Enabled(s, e)
    ensures Receding(Apply(s, e), id, v, deadline)
  {
    WritesGrow(s, e, id);
    if id in Apply(s, e).cache {
      EntryOrigin(s, e, id);
    }
  }

  lemma {:induction false} Recedes(states: seq<State>, events: seq<Event>, k: nat, m: nat, id: nat, v: nat)
    requires IsRun(states, events) && k <= m < |states|
    requires v <= Version(states[k].writes, id) && NoOldLoad(states[k], id, v)
    ensures Receding(states[m], id, v, Horizon(states[k].clock, states[k].ttl))
  {
    if k == m {
      RunInvariant(states, events, k);
    } else {
      Recedes(states, events, k, m - 1, id, v);
      assert StepAt(states, events, m - 1);
      RecedingKept(states[m - 1], events[m - 1], id, v, Horizon(states[k].clock, states[k].ttl));
    }
  }

  /** Bounded staleness. Let the v-th write of an id have committed by state k, with every load that read an older value
      past its Set. From the TTL plus the jitter range later on, no lookup of the id hits an older value, whatever the
      interleaving and whichever Gets, Sets and Dels fail. */
  lemma BoundedStaleness(states: seq<State>, events: seq<Event>, k: nat, m: nat, id: nat, v: nat)
    requires IsRun(states, events) && k <= m < |states|
    requires v <= Version(states[k].writes, id) && NoOldLoad(states[k], id, v)
    requires states[k].clock + states[k].ttl + LeastOf(60 * SECOND, states[k].ttl / 10) <= states[m].clock
    ensures Hit(states[m], id).Some? ==>
      exists u :: v <= u && IsVersion(states[m].writes, id, u, Hit(states[m], id).value)
  {
    Recedes(states, events, k, m, id, v);
    RunInvariant(states, events, k);
    RunInvariant(states, events, m);
    assert Horizon(states[k].clock, states[k].ttl) <= states[m].clock;
    if Hit(states[m], id).Some? {
      assert EntryAuthentic(states[m].writes, id, states[m].cache[id]);
      assert IsVersion(states[m].writes, id, states[m].cache[id].read, Hit(states[m], id).value);
    }
  }

  // ----- Coherence -----

  /** Exactly when an entry is out of date, while no writer of its id stands between commit and deletion: either a write
      overtook its load before its Set, or the deletion of a later write was missed. */
  lemma StaleExactly(states: seq<State>, events: seq<Event>, n: nat, id: nat)
    requires IsRun(states, events) && n < |states| && id in states[n].cache && Quiescent(states[n], id)
    ensures states[n].cache[id].read < Version(states[n].writes, id) <==>
      || states[n].cache[id].read < states[n].cache[id].stored
      || exists w :: states[n].cache[id].read < w && (id, w) in states[n].missedDels
  {
    RunInvariant(states, events, n);
    var s := states[n];
    var entry := s.cache[id];
    assert EntryAuthentic(s.writes, id, entry);
    if entry.read == entry.stored < Version(s.writes, id) {
      assert SurvivalExplained(s, id, entry);
      assert !DelPending(s.processes, id, entry.stored + 1);
      assert (id, entry.stored + 1) in s.missedDels;
    }
  }

  /** The i-th event stored this entry: the two version fields are the version its text was loaded at, and the version
      current at its Set. */
  ghost predicate StoredAt(states: seq<State>, events: seq<Event>, i: nat, id: nat, entry: Entry)
    requires i < |events| < |states|
  {
    && events[i].Store? && !events[i].fails && Enabled(states[i], events[i])
    && states[i].calls[events[i].c] == Call(id, Loaded(entry.text, entry.read))
    && entry.stored == Version(states[i].writes, id)
    && entry.expiresAt == states[i].clock + AddJitter(states[i].ttl, events[i].draw)
  }

  lemma {:induction false} EntriesComeFromSets(states: seq<State>, events: seq<Event>, n: nat, id: nat)
    requires IsRun(states, events) && n < |states| && id in states[n].cache
    ensures exists i :: 0 <= i < n && StoredAt(states, events, i, id, states[n].cache[id])
  {
    if n == 0 {
    } else {
      assert StepAt(states, events, n - 1);
      EntryOrigin(states[n - 1], events[n - 1], id);
      if id in states[n - 1].cache && states[n].cache[id] == states[n - 1].cache[id] {
        EntriesComeFromSets(states, events, n - 1, id);
      } else {
        assert StoredAt(states, events, n - 1, id, states[n].cache[id]);
      }
    }
  }

  /** The event makes this write of the id miss its deletion: the deletion fails, or the commit takes effect but is
      reported as an error, after which no deletion is tried. */
  predicate MissesDelete(s: State, e: Event, id: nat, w: nat) {
    || (e.DropEntry? && e.fails && e.p < |s.processes| && s.processes[e.p] == Committed(id, w))
    || (CommitsKey(s, e, id) && e.fault.Unconfirmed? && w == Version(s.writes, id) + 1)
  }

  ghost predicate MissedAt(states: seq<State>, events: seq<Event>, i: nat, id: nat, w: nat)
    requires i < |events| < |states|
  {
    MissesDelete(states[i], events[i], id, w)
  }

  lemma MissedDelsStep(s: State, e: Event, id: nat, w: nat)
    requires Enabled(s, e)
    ensures (id, w) in Apply(s, e).missedDels <==> (id, w) in s.missedDels || MissesDelete(s, e, id, w)
  {
  }

  /** A write counts as having missed its deletion exactly if an event of the run made it miss it. */
  lemma {:induction false} MissedDelsHappened(states: seq<State>, events: seq<Event>, n: nat, id: nat, w: nat)
    requires IsRun(states, events) && n < |states|
    ensures (id, w) in states[n].missedDels <==> exists i :: 0 <= i < n && MissedAt(states, events, i, id, w)
  {
    if n == 0 {
    } else {
      MissedDelsHappened(states, events, n - 1, id, w);
      assert StepAt(states, events, n - 1);
      MissedDelsStep(states[n - 1], events[n - 1], id, w);
      assert MissedAt(states, events, n - 1, id, w) <==> MissesDelete(states[n - 1], events[n - 1], id, w);
    }
  }

  /** The event stores, for this id, a text that is no longer the current one. */
  predicate OvertakenStore(s: State, e: Event, id: nat) {
    e.Store? && !e.fails && e.c < |s.calls| && s.calls[e.c].id == id && s.calls[e.c].stage.Loaded?
    && s.calls[e.c].stage.version < Version(s.writes, id)
  }

  /** The event makes some write of the id miss its deletion. */
  ghost predicate MissedDelete(s: State, e: Event, id: nat) {
    exists w :: MissesDelete(s, e, id, w)
  }

  /** Neither of the two has happened to the id so far. */
  ghost predicate Undisturbed(states: seq<State>, events: seq<Event>, n: nat, id: nat)
    requires n <= |events| < |states|
  {
    forall i :: 0 <= i < n ==> !OvertakenStore(states[i], events[i], id) && !MissedDelete(states[i], events[i], id)
  }

  ghost predicate NothingMissed(s: State, id: nat) {
    && (id in s.cache ==> s.cache[id].read == s.cache[id].stored)
    && (forall w: nat :: (id, w) !in s.missedDels)
  }

  lemma NothingMissedKept(s: State, e: Event, id: nat)
    requires Invariant(s) && NothingMissed(s, id) && Enabled(s, e)
    requires !OvertakenStore(s, e, id) && !MissedDelete(s, e, id)
    ensures NothingMissed(Apply(s, e), id)
  {
    forall w: nat ensures (id, w) !in Apply(s, e).missedDels {
      MissedDelsStep(s, e, id, w);
    }
    if id in Apply(s, e).cache {
      EntryOrigin(s, e, id);
      if e.Store? && s.calls[e.c].id == id {
        assert CallAuthentic(s.writes, s.calls[e.c]);
      }
    }
  }

  lemma {:induction false} NothingMissedSoFar(states: seq<State>, events: seq<Event>, n: nat, id: nat)
    requires IsRun(states, events) && n < |states| && Undisturbed(states, events, n, id)
    ensures NothingMissed(states[n], id)
  {
    if n == 0 {
    } else {
      NothingMissedSoFar(states, events, n - 1, id);
      RunInvariant(states, events, n - 1);
      assert StepAt(states, events, n - 1);
      NothingMissedKept(states[n - 1], events[n - 1], id);
    }
  }

  /** Conditional coherence. In a run without an overtaken Set and without a missed Del of the id, whenever no writer of
      the id stands between commit and deletion, a hit is exactly the text of what the repository holds now, and so
      gives the answer of the service without a cache. Gets and Sets may fail at will. */
  lemma ConditionalCoherence(states: seq<State>, events: seq<Event>, n: nat, id: nat)
    requires IsRun(states, events) && n < |states| && Undisturbed(states, events, n, id) && Quiescent(states[n], id)
    ensures Hit(states[n], id).Some? ==>
      && Hit(states[n], id).value == TextOf(Lookup(states[n].table, id))
      && AnswerOfText(Hit(states[n], id).value) == PlainAnswer(Lookup(states[n].table, id))
  {
    RunInvariant(states, events, n);
    NothingMissedSoFar(states, events, n, id);
    TextKeepsAnswer(Lookup(states[n].table, id));
    if Hit(states[n], id).Some? {
      StaleExactly(states, events, n, id);
      assert EntryAuthentic(states[n].writes, id, states[n].cache[id]);
    }
  }

  // ----- No redundant load -----

  /** The event is a successful repository query for the id. */
  predicate LoadsKey(s: State, e: Event, id: nat) {
    e.Load? && !e.fails && e.c < |s.calls| && s.calls[e.c].id == id && s.calls[e.c].stage.Loading?
  }

  /** The event is one of those that make another query necessary: a failed Set, a successful Del, or a second lookup
      whose Get failed. */
  predicate Disturbs(s: State, e: Event, id: nat) {
    || (e.Store? && e.fails && e.c < |s.calls| && s.calls[e.c].id == id)
    || (e.DropEntry? && !e.fails && e.p < |s.processes| && s.processes[e.p].Committed? && s.processes[e.p].id == id)
    || (e.Recheck? && e.fails && e.c < |s.calls| && s.calls[e.c].id == id)
  }

  /** The one active call of the id has queried the repository and is about to store the result. */
  ghost predicate AboutToStore(s: State, id: nat) {
    id in s.flights && s.flights[id] < |s.calls| && s.calls[s.flights[id]].stage.Loaded?
  }

  /** An entry that lasts until then is in place, and no call of the id has passed its second lookup. */
  ghost predicate Shielded(s: State, id: nat, until: int) {
    && id in s.cache && until <= s.cache[id].expiresAt
    && forall c :: 0 <= c < |s.calls| && s.calls[c].id == id ==>
         !s.calls[c].stage.Loading? && !s.calls[c].stage.Loaded?
  }

  lemma AboutToStoreKept(s: State, e: Event, id: nat)
    requires FlightsMatch(s.flights, s.calls) && s.ttl > 0 && Enabled(s, e) && !Disturbs(s, e, id)
    requires AboutToStore(s, id)
    ensures !LoadsKey(s, e, id)
    ensures AboutToStore(Apply(s, e), id) || Shielded(Apply(s, e), id, s.clock + s.ttl)
  {
    var c := s.flights[id];
    if e.Store? && e.c == c {
    } else {
      assert Apply(s, e).calls[c] == s.calls[c] && Apply(s, e).flights[id] == c;
    }
  }

  lemma ShieldedKept(s: State, e: Event, id: nat, until: int)
    requires Enabled(s, e) && !Disturbs(s, e, id)
    requires Shielded(s, id, until) && s.clock < until
    ensures !LoadsKey(s, e, id) && Shielded(Apply(s, e), id, until)
  {
    assert id in Apply(s, e).cache;
    EntryOrigin(s, e, id);
  }

  ghost predicate Guarded(s: State, id: nat, until: int) {
    AboutToStore(s, id) || Shielded(s, id, until)
  }

  lemma GuardBegins(s: State, e: Event, id: nat)
    requires FlightsMatch(s.flights, s.calls) && Enabled(s, e) && LoadsKey(s, e, id)
    ensures AboutToStore(Apply(s, e), id)
  {
  }

  lemma GuardedKept(s: State, e: Event, id: nat, until: int)
    requires FlightsMatch(s.flights, s.calls) && s.ttl > 0 && Enabled(s, e) && !Disturbs(s, e, id)
    requires Guarded(s, id, until) && s.clock < until <= s.clock + s.ttl
    ensures Guarded(Apply(s, e), id, until)
  {
    if AboutToStore(s, id) {
      AboutToStoreKept(s, e, id);
    } else {
      ShieldedKept(s, e, id, until);
    }
  }

  lemma GuardBeginsAt(states: seq<State>, events: seq<Event>, i: nat, id: nat)
    requires IsRun(states, events) && i < |events| && LoadsKey(states[i], events[i], id)
    ensures AboutToStore(states[i + 1], id)
  {
    RunInvariant(states, events, i);
    assert StepAt(states, events, i);
    GuardBegins(states[i], events[i], id);
  }

  lemma GuardedKeptAt(states: seq<State>, events: seq<Event>, k: nat, id: nat, until: int)
    requires IsRun(states, events) && k < |events| && !Disturbs(states[k], events[k], id)
    requires Guarded(states[k], id, until) && states[k].clock < until <= states[k].clock + states[k].ttl
    ensures Guarded(states[k + 1], id, until)
  {
    RunInvariant(states, events, k);
    assert StepAt(states, events, k);
    GuardedKept(states[k], events[k], id, until);
  }

  lemma {:induction false} StaysGuarded(states: seq<State>, events: seq<Event>, i: nat, k: nat, id: nat)
    requires IsRun(states, events) && i < k < |states| && LoadsKey(states[i], events[i], id)
    requires forall j :: i < j < k ==> !Disturbs(states[j], events[j], id)
    requires states[k].clock < states[i].clock + states[i].ttl
    ensures Guarded(states[k], id, states[i].clock + states[i].ttl)
  {
    if i < k - 1 {
      ClockAdvances(states, events, k - 1, k);
      ClockAdvances(states, events, i, k - 1);
      StaysGuarded(states, events, i, k - 1, id);
      GuardedKeptAt(states, events, k - 1, id, states[i].clock + states[i].ttl);
    } else {
      GuardBeginsAt(states, events, i, id);
    }
  }

  /** No redundant load. Between two successful queries of the repository for the same id lies a failed Set, a
      successful Del, or a second lookup whose Get failed; or else a whole TTL has passed. This is what the second
      lookup inside the flight buys: failures of the first lookup are not on the list. */
  lemma NoRedundantLoad(states: seq<State>, events: seq<Event>, i: nat, j: nat, id: nat)
    requires IsRun(states, events) && i < j < |events|
    requires LoadsKey(states[i], events[i], id) && LoadsKey(states[j], events[j], id)
    ensures
      || (exists k :: i < k < j && Disturbs(states[k], events[k], id))
      || states[i].clock + states[i].ttl <= states[j].clock
  {
    RunInvariant(states, events, j);
    if (forall k :: i < k < j ==> !Disturbs(states[k], events[k], id))
       && states[j].clock < states[i].clock + states[i].ttl {
      StaysGuarded(states, events, i, j, id);
    }
  }

  // ----- The conditions are needed -----

  /** Step by step, the states a list of events leads through. */
  ghost predicate Leads(s: State, events: seq<Event>, t: State)
    decreases |events|
  {
    if events == [] then s == t else Enabled(s, events[0]) && Leads(Apply(s, events[0]), events[1..], t)
  }

  lemma {:induction false} LeadsIsRun(s: State, events: seq<Event>, t: State) returns (states: seq<State>)
    requires Leads(s, events, t)
    ensures |states| == |events| + 1 && states[0] == s && states[|events|] == t
    ensures forall i :: 0 <= i < |events| ==> StepAt(states, events, i)
    decreases |events|
  {
    if events == [] {
      states := [s];
    } else {
      var rest := LeadsIsRun(Apply(s, events[0]), events[1..], t);
      states := [s] + rest;
      forall i | 0 <= i < |events| ensures StepAt(states, events, i) {
        if i > 0 {
          assert StepAt(rest, events[1..], i - 1);
        }
      }
    }
  }

  function Start(ttl: int): State {
    State(0, ttl, map[], map[], map[], [], [], map[], {})
  }

  /** A reader about to store, for the id of p, that there is no record. */
  function ReaderLoads(id: nat): seq<Event> {
    [StartRead(id), FirstGet(0, false), EnterFlight(0), Recheck(0, false), Load(0, false)]
  }

  /** The state those five events lead to. */
  function ReaderHasLoaded(ttl: int, id: nat): State {
    State(0, ttl, map[], map[], map[id := 0], [Call(id, Loaded(NULL_MARKER, 0))], [Waiting(id, 0)], map[], {})
  }

  lemma ReaderLoadsLeads(ttl: int, id: nat)
    ensures Leads(Start(ttl), ReaderLoads(id), ReaderHasLoaded(ttl, id))
  {
    var s0 := Start(ttl);
    var s1 := Apply(s0, StartRead(id));
    var s2 := Apply(s1, FirstGet(0, false));
    var s3 := Apply(s2, EnterFlight(0));
    var s4 := Apply(s3, Recheck(0, false));
    var s5 := Apply(s4, Load(0, false));
    assert s5 == ReaderHasLoaded(ttl, id);
    assert Leads(s5, [], s5);
    assert Leads(s4, [Load(0, false)], s5);
    assert Leads(s3, [Recheck(0, false), Load(0, false)], s5);
    assert Leads(s2, [EnterFlight(0), Recheck(0, false), Load(0, false)], s5);
    assert Leads(s1, [FirstGet(0, false), EnterFlight(0), Recheck(0, false), Load(0, false)], s5);
  }

  lemma {:induction false} LeadsOn(s: State, first: seq<Event>, t: State, second: seq<Event>, u: State)
    requires Leads(s, first, t) && Leads(t, second, u)
    ensures Leads(s, first + second, u)
    decreases |first|
  {
    if first == [] {
      assert first + second == second;
    } else {
      LeadsOn(Apply(s, first[0]), first[1..], t, second, u);
      assert (first + second)[1..] == first[1..] + second;
    }
  }

  lemma LeadsStep(s: State, events: seq<Event>, t: State, e: Event)
    requires Leads(s, events, t) && Enabled(t, e)
    ensures Leads(s, events + [e], Apply(t, e))
  {
    var u := Apply(t, e);
    assert Leads(u, [], u);
    assert Leads(t, [e], u);
    LeadsOn(s, events, t, [e], u);
  }

  lemma TwoSteps(s: State, e: Event, t: State, e': Event, u: State)
    requires Enabled(s, e) && t == Apply(s, e) && Enabled(t, e') && u == Apply(t, e')
    ensures Leads(s, [e, e'], u)
  {
    assert Leads(u, [], u);
    assert Leads(t, [e'], u);
  }

  lemma ThreeSteps(s: State, e: Event, t: State, e': Event, u: State, e'': Event, v: State)
    requires Enabled(s, e) && t == Apply(s, e) && Enabled(t, e') && u == Apply(t, e')
    requires Enabled(u, e'') && v == Apply(u, e'')
    ensures Leads(s, [e, e', e''], v)
  {
    TwoSteps(t, e', u, e'', v);
  }

  /** A run goes on as its last state leads. */
  lemma RunOn(states: seq<State>, events: seq<Event>, more: seq<Event>, t: State) returns (states': seq<State>)
    requires IsRun(states, events) && Leads(states[|events|], more, t)
    ensures IsRun(states', events + more) && states <= states' && states'[|events + more|] == t
  {
    var rest := LeadsIsRun(states[|events|], more, t);
    states' := states + rest[1..];
    forall i | 0 <= i < |events + more| ensures StepAt(states', events + more, i) {
      if i < |events| {
        assert StepAt(states, events, i);
      } else {
        assert StepAt(rest, more, i - |events|);
      }
    }
  }

  /** Something goes wrong in the event. */
  predicate Fails(e: Event) {
    match e
    case FirstGet(_, fails) => fails
    case Recheck(_, fails) => fails
    case Load(_, fails) => fails
    case Store(_, fails, _) => fails
    case Commit(_, fault) => !fault.Works?
    case DropEntry(_, fails) => fails
    case _ => false
  }

  // A load that a write overlaps, deletion included.

  function WholeWrite(p: Product): seq<Event> {
    [StartWrite(p.id, Some(p)), Commit(1, Works), DropEntry(1, false)]
  }

  /** The state a whole write leads to, while the reader is still about to store that there is no record. */
  function WriteIsDone(ttl: int, p: Product): State {
    State(0, ttl, map[p.id := Live(p)], map[], map[p.id := 0], [Call(p.id, Loaded(NULL_MARKER, 0))],
          [Waiting(p.id, 0), Finished], map[p.id := [Some(p)]], {})
  }

  lemma WholeWriteLeads(ttl: int, p: Product)
    ensures Leads(ReaderHasLoaded(ttl, p.id), WholeWrite(p), WriteIsDone(ttl, p))
  {
    var s0 := ReaderHasLoaded(ttl, p.id);
    var s1 := Apply(s0, StartWrite(p.id, Some(p)));
    var s2 := Apply(s1, Commit(1, Works));
    assert Apply(s2, DropEntry(1, false)).cache == map[];
    ThreeSteps(s0, StartWrite(p.id, Some(p)), s1, Commit(1, Works), s2, DropEntry(1, false), WriteIsDone(ttl, p));
  }

  /** From the start: the reader loads, and the whole write runs. */
  lemma OverlappedLoad(ttl: int, p: Product) returns (states: seq<State>, events: seq<Event>)
    requires ttl > 0
    ensures IsRun(states, events) && states[|events|] == WriteIsDone(ttl, p)
    ensures events == ReaderLoads(p.id) + WholeWrite(p)
  {
    ReaderLoadsLeads(ttl, p.id);
    WholeWriteLeads(ttl, p);
    events := ReaderLoads(p.id) + WholeWrite(p);
    LeadsOn(Start(ttl), ReaderLoads(p.id), ReaderHasLoaded(ttl, p.id), WholeWrite(p), WriteIsDone(ttl, p));
    states := LeadsIsRun(Start(ttl), events, WriteIsDone(ttl, p));
  }

  /** The cache is not linearizable: a load that a whole write overlaps, deletion included, plants the old answer after
      the deletion. Nothing failed, no writer is left, and the hit says there is no such product while the repository
      holds it: the ban on overtaken Sets in ConditionalCoherence is needed. */
  lemma OvertakenSetPlantsStaleEntry(ttl: int, p: Product) returns (states: seq<State>, events: seq<Event>)
    requires ttl > 0
    ensures IsRun(states, events)
    ensures forall e :: e in events ==> !Fails(e)
    ensures var s := states[|events|];
      Quiescent(s, p.id) && Lookup(s.table, p.id) == Some(p) && Hit(s, p.id) == Some(NULL_MARKER)
  {
    var before, first := OverlappedLoad(ttl, p);
    var store := Store(0, false, 0);
    var s := before[|first|];
    assert Leads(s, [], s);
    LeadsStep(s, [], s, store);
    states := RunOn(before, first, [] + [store], Apply(s, store));
    events := first + ([] + [store]);
  }

  /** A second reader arrives, misses, and joins the flight. */
  function LateJoin(id: nat): seq<Event> {
    [StartRead(id), FirstGet(2, false), EnterFlight(2)]
  }

  /** The flight's Set fails, and the second reader collects. */
  function JoinedLanding(): seq<Event> {
    [Store(0, true, 0), EndFlight(0), Collect(2)]
  }

  lemma LateJoinLeads(ttl: int, p: Product) returns (t: State)
    ensures Leads(WriteIsDone(ttl, p), LateJoin(p.id), t)
    ensures t == WriteIsDone(ttl, p).(processes := [Waiting(p.id, 0), Finished, Waiting(p.id, 0)])
  {
    var s0 := WriteIsDone(ttl, p);
    var s1 := Apply(s0, StartRead(p.id));
    var s2 := Apply(s1, FirstGet(2, false));
    t := s0.(processes := [Waiting(p.id, 0), Finished, Waiting(p.id, 0)]);
    assert Apply(s2, EnterFlight(2)).processes == t.processes;
    ThreeSteps(s0, StartRead(p.id), s1, FirstGet(2, false), s2, EnterFlight(2), t);
  }

  lemma JoinedLandingLeads(ttl: int, p: Product, s: State) returns (t: State)
    requires s == WriteIsDone(ttl, p).(processes := [Waiting(p.id, 0), Finished, Waiting(p.id, 0)])
    ensures Leads(s, JoinedLanding(), t)
    ensures t.processes == [Waiting(p.id, 0), Finished, Answered(p.id, Text(NULL_MARKER, 0))]
    ensures t.table == s.table
  {
    var s1 := Apply(s, Store(0, true, 0));
    var s2 := Apply(s1, EndFlight(0));
    t := Apply(s2, Collect(2));
    ThreeSteps(s, Store(0, true, 0), s1, EndFlight(0), s2, Collect(2), t);
  }

  lemma HarmlessIsUndisturbed(states: seq<State>, events: seq<Event>, id: nat)
    requires |events| < |states|
    requires forall e :: e in events && Fails(e) ==> e.Store?
    requires forall e :: e in events && e.Store? ==> e.fails
    ensures Undisturbed(states, events, |events|, id)
  {
    forall i | 0 <= i < |events|
      ensures !OvertakenStore(states[i], events[i], id) && !MissedDelete(states[i], events[i], id)
    {
      assert events[i] in events;
    }
  }

  /** In all of this only the Set fails, so nothing is overtaken and no deletion missed. */
  lemma LateJoinIsHarmless(p: Product)
    ensures
      var events := ReaderLoads(p.id) + WholeWrite(p) + LateJoin(p.id) + JoinedLanding();
      && (forall e :: e in events && Fails(e) ==> e.Store?) && (forall e :: e in events && e.Store? ==> e.fails)
  {
  }

  /** An answer can be older than its reader's start although nothing in the cache is ever stale: a reader that starts
      after a whole write, and joins a flight which loaded before it, is told that there is no such product. */
  lemma LateJoinerGetsOldAnswer(ttl: int, p: Product)
    returns (states: seq<State>, events: seq<Event>, start: nat)
    requires ttl > 0
    ensures IsRun(states, events) && Undisturbed(states, events, |events|, p.id)
    ensures start < |events| && events[start] == StartRead(p.id) && |states[start].processes| == 2
    ensures Lookup(states[start].table, p.id) == Some(p) && Quiescent(states[start], p.id)
    ensures |states[|events|].processes| == 3
    ensures states[|events|].processes[2] == Answered(p.id, Text(NULL_MARKER, 0))
  {
    var before, first := OverlappedLoad(ttl, p);
    start := |first|;
    var joined := LateJoinLeads(ttl, p);
    var landed := JoinedLandingLeads(ttl, p, joined);
    var middle := RunOn(before, first, LateJoin(p.id), joined);
    states := RunOn(middle, first + LateJoin(p.id), JoinedLanding(), landed);
    events := first + LateJoin(p.id) + JoinedLanding();
    LateJoinIsHarmless(p);
    HarmlessIsUndisturbed(states, events, p.id);
    assert states[start] == middle[start] == before[start];
    assert events[start] == LateJoin(p.id)[0];
  }

  // A write whose deletion is missed.

  /** After the load: the Set is on time, a write commits, and its deletion fails, or is never tried because the commit
      is reported as an error. */
  function WriterMissesDelete(p: Product, draw: int, unconfirmed: bool): seq<Event> {
    [Store(0, false, draw), StartWrite(p.id, Some(p))] + MissingEvents(unconfirmed)
  }

  function MissingEvents(unconfirmed: bool): seq<Event> {
    if unconfirmed then [Commit(1, Unconfirmed)] else [Commit(1, Works), DropEntry(1, true)]
  }

  function WriteAfterSet(ttl: int, p: Product, expiresAt: int): State {
    State(0, ttl, map[], map[p.id := Entry(NULL_MARKER, expiresAt, 0, 0)], map[p.id := 0],
          [Call(p.id, Returning(Text(NULL_MARKER, 0)))], [Waiting(p.id, 0), Writing(p.id, Some(p))], map[], {})
  }

  function DeleteWasMissed(ttl: int, p: Product, expiresAt: int): State {
    State(0, ttl, map[p.id := Live(p)], map[p.id := Entry(NULL_MARKER, expiresAt, 0, 0)], map[p.id := 0],
          [Call(p.id, Returning(Text(NULL_MARKER, 0)))], [Waiting(p.id, 0), Finished], map[p.id := [Some(p)]],
          {(p.id, 1)})
  }

  lemma MissingSteps(ttl: int, p: Product, expiresAt: int, unconfirmed: bool)
    ensures Leads(WriteAfterSet(ttl, p, expiresAt), MissingEvents(unconfirmed), DeleteWasMissed(ttl, p, expiresAt))
  {
    var s, t := WriteAfterSet(ttl, p, expiresAt), DeleteWasMissed(ttl, p, expiresAt);
    if unconfirmed {
      assert Apply(s, Commit(1, Unconfirmed)) == t;
      assert Leads(t, [], t);
    } else {
      var s1 := Apply(s, Commit(1, Works));
      assert Apply(s1, DropEntry(1, true)) == t;
      TwoSteps(s, Commit(1, Works), s1, DropEntry(1, true), t);
    }
  }

  lemma MissedDeleteLeads(ttl: int, p: Product, draw: int, unconfirmed: bool)
    requires ValidDraw(ttl, draw)
    ensures Leads(ReaderHasLoaded(ttl, p.id), WriterMissesDelete(p, draw, unconfirmed),
                  DeleteWasMissed(ttl, p, AddJitter(ttl, draw)))
  {
    var s0 := ReaderHasLoaded(ttl, p.id);
    var s1 := Apply(s0, Store(0, false, draw));
    var s2 := WriteAfterSet(ttl, p, AddJitter(ttl, draw));
    assert s2 == Apply(s1, StartWrite(p.id, Some(p)));
    TwoSteps(s0, Store(0, false, draw), s1, StartWrite(p.id, Some(p)), s2);
    MissingSteps(ttl, p, AddJitter(ttl, draw), unconfirmed);
    LeadsOn(s0, [Store(0, false, draw), StartWrite(p.id, Some(p))], s2, MissingEvents(unconfirmed),
            DeleteWasMissed(ttl, p, AddJitter(ttl, draw)));
  }

  /** A Del that fails, or that is never tried since the commit's acknowledgement was lost, leaves the old answer in
      place although its Set was on time: the ban on missed Dels is needed. And the old answer lasts: here the write
      commits at time 0 with every load past its Set, and the old answer is still hit within two nanoseconds of the
      horizon of BoundedStaleness. */
  lemma MissedDeleteLeavesStaleEntry(ttl: int, p: Product, unconfirmed: bool)
    returns (states: seq<State>, events: seq<Event>)
    requires ttl > 0
    ensures IsRun(states, events)
    ensures unconfirmed ==> forall e :: e in events && Fails(e) ==> e == Commit(1, Unconfirmed)
    ensures !unconfirmed ==> forall e :: e in events && Fails(e) ==> e == DropEntry(1, true)
    ensures var s := states[|events|];
      && Quiescent(s, p.id) && Lookup(s.table, p.id) == Some(p) && Hit(s, p.id) == Some(NULL_MARKER)
      && s.cache[p.id].read == s.cache[p.id].stored
      && s.clock >= ttl + LeastOf(60 * SECOND, ttl / 10) - 2
    ensures exists k :: 0 <= k < |states| && states[k].clock == 0 && NoOldLoad(states[k], p.id, 1)
                        && Lookup(states[k].table, p.id) == Some(p)
  {
    var draw := if MaxJitter(ttl) > 0 then MaxJitter(ttl) - 1 else 0;
    var first, second := ReaderLoads(p.id), WriterMissesDelete(p, draw, unconfirmed);
    ReaderLoadsLeads(ttl, p.id);
    MissedDeleteLeads(ttl, p, draw, unconfirmed);
    var missed := DeleteWasMissed(ttl, p, AddJitter(ttl, draw));
    LeadsOn(Start(ttl), first, ReaderHasLoaded(ttl, p.id), second, missed);
    var before := LeadsIsRun(Start(ttl), first + second, missed);
    var wait := Tick(AddJitter(ttl, draw) - 1);
    assert Leads(missed, [], missed);
    LeadsStep(missed, [], missed, wait);
    states := RunOn(before, first + second, [] + [wait], Apply(missed, wait));
    events := first + second + ([] + [wait]);
    assert states[|first + second|] == missed;
  }
}
