/** The cache-aside product store under concurrency, as a step system.

    Readers run GetByID: look in the cache, join or open the flight of the key, and the flight looks again, loads from
    the repository, and stores what it loaded. Writers commit to the repository and then delete the cache entry. Any
    cache or repository operation may fail, and a commit may also take effect and still be reported as an error: then
    the writer does not delete the entry. Every operation on a store is one atomic step; anything may happen between two
    steps of one process. */
module CacheProtocol {
  import opened CacheExpiry
  import opened Options
  import opened ProductCodec
  import opened Products

  /** A cached text. The last two fields are bookkeeping: which version of the record the text is, and which version
      was current when it was stored. */
  datatype Entry = Entry(text: string, expiresAt: int, read: nat, stored: nat)

  /** The result of a lookup or a flight: a text, or the loader's error. Which version of the record the text is, is
      bookkeeping. */
  datatype Reply = Text(text: string, read: nat) | Failed

  datatype Stage =
    | Rechecking                            // about to look in the cache again
    | Loading                               // missed again; about to query the repository
    | Loaded(text: string, version: nat)    // about to store what was loaded
    | Returning(reply: Reply)               // the function has returned; the call is still in the flight table
    | Landed(reply: Reply)                  // removed from the flight table; waiters may collect

  datatype Call = Call(id: nat, stage: Stage)

  datatype Process =
    | Reading(id: nat)                      // about to look in the cache
    | Missed(id: nat)                       // about to enter the flight of the key
    | Waiting(id: nat, call: nat)           // leads or joined that call
    | Answered(id: nat, reply: Reply)
    | Writing(id: nat, value: Option<Product>)   // about to commit a put, or a soft delete
    | Committed(id: nat, version: nat)      // about to delete the cache entry
    | Finished

  /** The committed writes of each id, oldest first. */
  type Writes = map<nat, seq<Option<Product>>>

  /** The last two fields are bookkeeping: the committed writes, and the versions whose cache deletion was missed: it
      failed, or was never tried because the commit was reported as an error. */
  datatype State = State(
    clock: int,
    ttl: int,
    table: Table,
    cache: map<nat, Entry>,
    flights: map<nat, nat>,
    calls: seq<Call>,
    processes: seq<Process>,
    writes: Writes,
    missedDels: set<(nat, nat)>)

  datatype Event =
    | Tick(d: nat)
    | StartRead(id: nat)
    | StartWrite(id: nat, value: Option<Product>)
    | FirstGet(p: nat, fails: bool)
    | EnterFlight(p: nat)
    | Recheck(c: nat, fails: bool)
    | Load(c: nat, fails: bool)
    | Store(c: nat, fails: bool, draw: int)
    | EndFlight(c: nat)
    | Collect(p: nat)
    | Commit(p: nat, fault: WriteFault)
    | DropEntry(p: nat, fails: bool)

  // ----- Observations -----

  /** What a successful cache lookup returns: entries are dead from their expiry instant on. */
  function Hit(s: State, id: nat): Option<string> {
    if id in s.cache && s.clock < s.cache[id].expiresAt then Some(s.cache[id].text) else None
  }

  /** The reply a hit gives. */
  function HitReply(s: State, id: nat): Reply
    requires Hit(s, id).Some?
  {
    Text(s.cache[id].text, s.cache[id].read)
  }

  /** The number of committed writes to the id. */
  function Version(writes: Writes, id: nat): nat {
    if id in writes then |writes[id]| else 0
  }

  /** The value the id held after its first v writes; ids start without a record. */
  function ValueAt(writes: Writes, id: nat, v: nat): Option<Product>
    requires v <= Version(writes, id)
  {
    if v == 0 then None else writes[id][v - 1]
  }

  function Record(writes: Writes, id: nat, value: Option<Product>): Writes {
    writes[id := if id in writes then writes[id] + [value] else [value]]
  }

  predicate Active(call: Call) {
    !call.stage.Landed?
  }

  /** Some writer has committed that version and has not yet deleted the cache entry. */
  ghost predicate DelPending(processes: seq<Process>, id: nat, version: nat) {
    exists p :: 0 <= p < |processes| && processes[p] == Committed(id, version)
  }

  /** No writer of the id is between its commit and its deletion. */
  ghost predicate Quiescent(s: State, id: nat) {
    forall p :: 0 <= p < |s.processes| && s.processes[p].Committed? ==> s.processes[p].id != id
  }

  // ----- Steps -----

  predicate Initial(s: State) {
    s.ttl > 0 && s.table == map[] && s.cache == map[] && s.flights == map[] && s.calls == [] && s.processes == []
    && s.writes == map[] && s.missedDels == {}
  }

  predicate Enabled(s: State, e: Event) {
    match e
    case Tick(_) => true
    case StartRead(_) => true
    case StartWrite(id, value) => value.Some? ==> value.value.id == id
    case FirstGet(p, _) => p < |s.processes| && s.processes[p].Reading?
    case EnterFlight(p) => p < |s.processes| && s.processes[p].Missed?
    case Recheck(c, _) => c < |s.calls| && s.calls[c].stage.Rechecking?
    case Load(c, _) => c < |s.calls| && s.calls[c].stage.Loading?
    case Store(c, _, draw) => c < |s.calls| && s.calls[c].stage.Loaded? && ValidDraw(s.ttl, draw)
    case EndFlight(c) => c < |s.calls| && s.calls[c].stage.Returning?
    case Collect(p) =>
      p < |s.processes| && s.processes[p].Waiting? && s.processes[p].call < |s.calls|
      && s.calls[s.processes[p].call].stage.Landed?
    case Commit(p, _) => p < |s.processes| && s.processes[p].Writing?
    case DropEntry(p, _) => p < |s.processes| && s.processes[p].Committed?
  }

  function SetProcess(s: State, p: nat, q: Process): State
    requires p < |s.processes|
  {
    s.(processes := s.processes[p := q])
  }

  function SetStage(s: State, c: nat, stage: Stage): State
    requires c < |s.calls|
  {
    s.(calls := s.calls[c := s.calls[c].(stage := stage)])
  }

  /** One process enters the flight of its key: it joins the call in the table, or opens one and leads it. */
  function Enter(s: State, p: nat, id: nat): State
    requires p < |s.processes|
  {
    if id in s.flights then SetProcess(s, p, Waiting(id, s.flights[id]))
    else SetProcess(s, p, Waiting(id, |s.calls|)).(
           calls := s.calls + [Call(id, Rechecking)], flights := s.flights[id := |s.calls|])
  }

  /** The write takes effect: the repository does not refuse it, and a soft delete finds a live row. */
  predicate TakesEffect(table: Table, id: nat, value: Option<Product>, fault: WriteFault) {
    !fault.Refused? && (value.Some? || Lookup(table, id).Some?)
  }

  /** A commit. One without effect ends the writer; and so does one reported as an error, whose deletion is missed. */
  function CommitWrite(s: State, p: nat, id: nat, value: Option<Product>, fault: WriteFault): State
    requires p < |s.processes|
  {
    if !TakesEffect(s.table, id, value, fault) then SetProcess(s, p, Finished)
    else
      var version := Version(s.writes, id) + 1;
      var s' := SetProcess(s, p, if fault.Works? then Committed(id, version) else Finished);
      s'.(table := Write(s.table, id, value), writes := Record(s.writes, id, value),
          missedDels := if fault.Works? then s.missedDels else s.missedDels + {(id, version)})
  }

  function Apply(s: State, e: Event): State
    requires Enabled(s, e)
  {
    match e
    case Tick(d) => s.(clock := s.clock + d)
    case StartRead(id) => s.(processes := s.processes + [Reading(id)])
    case StartWrite(id, value) => s.(processes := s.processes + [Writing(id, value)])
    case FirstGet(p, fails) =>
      var id := s.processes[p].id;
      SetProcess(s, p, if !fails && Hit(s, id).Some? then Answered(id, HitReply(s, id)) else Missed(id))
    case EnterFlight(p) => Enter(s, p, s.processes[p].id)
    case Recheck(c, fails) =>
      var id := s.calls[c].id;
      SetStage(s, c, if !fails && Hit(s, id).Some? then Returning(HitReply(s, id)) else Loading)
    case Load(c, fails) =>
      var id := s.calls[c].id;
      SetStage(s, c, if fails then Returning(Failed)
                     else Loaded(TextOf(Lookup(s.table, id)), Version(s.writes, id)))
    case Store(c, fails, draw) =>
      var Call(id, Loaded(text, version)) := s.calls[c];
      var s' := SetStage(s, c, Returning(Text(text, version)));
      if fails then s'
      else s'.(cache := s.cache[id := Entry(text, s.clock + AddJitter(s.ttl, draw), version, Version(s.writes, id))])
    case EndFlight(c) =>
      SetStage(s, c, Landed(s.calls[c].stage.reply)).(flights := s.flights - {s.calls[c].id})
    case Collect(p) =>
      SetProcess(s, p, Answered(s.processes[p].id, s.calls[s.processes[p].call].stage.reply))
    case Commit(p, fault) => CommitWrite(s, p, s.processes[p].id, s.processes[p].value, fault)
    case DropEntry(p, fails) =>
      var Committed(id, version) := s.processes[p];
      var s' := SetProcess(s, p, Finished);
      if fails then s'.(missedDels := s.missedDels + {(id, version)}) else s'.(cache := s.cache - {id})
  }

  // ----- The invariant -----

  /** The writes end in what the table holds, and a value is only ever held under its own id. */
  ghost predicate HistoryMatches(table: Table, writes: Writes) {
    && (forall id :: Lookup(table, id) == ValueAt(writes, id, Version(writes, id)))
    && (forall id, v: nat :: v <= Version(writes, id) && ValueAt(writes, id, v).Some? ==>
          ValueAt(writes, id, v).value.id == id)
  }

  /** A writer about to put a record puts it under its own id. */
  ghost predicate WritersKeyed(processes: seq<Process>) {
    forall p :: 0 <= p < |processes| && processes[p].Writing? && processes[p].value.Some? ==>
      processes[p].value.value.id == processes[p].id
  }

  /** The flight table lists exactly the active calls, so a key has at most one. */
  ghost predicate FlightsMatch(flights: map<nat, nat>, calls: seq<Call>) {
    && (forall id :: id in flights ==>
          flights[id] < |calls| && calls[flights[id]].id == id && Active(calls[flights[id]]))
    && (forall c :: 0 <= c < |calls| && Active(calls[c]) ==> calls[c].id in flights && flights[calls[c].id] == c)
  }

  /** Waiters wait on calls of their own key. */
  ghost predicate WaitersMatch(processes: seq<Process>, calls: seq<Call>) {
    forall p :: 0 <= p < |processes| && processes[p].Waiting? ==>
      processes[p].call < |calls| && calls[processes[p].call].id == processes[p].id
  }

  /** The text is that of the numbered value of the id. */
  predicate IsVersion(writes: Writes, id: nat, v: int, text: string) {
    0 <= v <= Version(writes, id) && text == TextOf(ValueAt(writes, id, v))
  }

  /** A reply's text is that of the value the id held at the version it names. */
  predicate ReplyAuthentic(writes: Writes, id: nat, reply: Reply) {
    reply.Text? ==> IsVersion(writes, id, reply.read, reply.text)
  }

  predicate EntryAuthentic(writes: Writes, id: nat, entry: Entry) {
    IsVersion(writes, id, entry.read, entry.text) && entry.read <= entry.stored <= Version(writes, id)
  }

  predicate CallAuthentic(writes: Writes, call: Call) {
    match call.stage
    case Loaded(text, version) => IsVersion(writes, call.id, version, text)
    case Returning(reply) => ReplyAuthentic(writes, call.id, reply)
    case Landed(reply) => ReplyAuthentic(writes, call.id, reply)
    case _ => true
  }

  predicate ProcessAuthentic(writes: Writes, process: Process) {
    match process
    case Answered(id, reply) => ReplyAuthentic(writes, id, reply)
    case Committed(id, version) => 1 <= version <= Version(writes, id)
    case _ => true
  }

  /** Every text in the system is that of a value its id has held. */
  ghost predicate Authentic(s: State) {
    && (forall id :: id in s.cache ==> EntryAuthentic(s.writes, id, s.cache[id]))
    && (forall c :: 0 <= c < |s.calls| ==> CallAuthentic(s.writes, s.calls[c]))
    && (forall p :: 0 <= p < |s.processes| ==> ProcessAuthentic(s.writes, s.processes[p]))
  }

  /** No entry outlives the longest TTL from now. */
  ghost predicate ExpiriesBounded(cache: map<nat, Entry>, clock: int, ttl: int) {
    forall id :: id in cache ==> cache[id].expiresAt <= Horizon(clock, ttl)
  }

  /** A write the entry has survived since it was stored still has its deletion to come, or missed it. */
  ghost predicate SurvivalExplained(s: State, id: nat, entry: Entry) {
    forall w: nat {:trigger DelPending(s.processes, id, w)} ::
      entry.stored < w <= Version(s.writes, id) ==> (id, w) in s.missedDels || DelPending(s.processes, id, w)
  }

  ghost predicate Invariant(s: State) {
    && s.ttl > 0
    && HistoryMatches(s.table, s.writes)
    && WritersKeyed(s.processes)
    && FlightsMatch(s.flights, s.calls)
    && WaitersMatch(s.processes, s.calls)
    && Authentic(s)
    && ExpiriesBounded(s.cache, s.clock, s.ttl)
    && (forall id :: id in s.cache ==> SurvivalExplained(s, id, s.cache[id]))
    && (forall id, w :: (id, w) in s.missedDels ==> 1 <= w <= Version(s.writes, id))
  }

  lemma InitialInvariant(s: State)
    requires Initial(s)
    ensures Invariant(s)
  {
  }

  // ----- Whose step it is -----

  /** The event is a step of that process. */
  predicate ProcessStep(e: Event, p: nat) {
    (e.FirstGet? || e.EnterFlight? || e.Collect? || e.Commit? || e.DropEntry?) && e.p == p
  }

  /** The event is a step of that call. */
  predicate CallStep(e: Event, c: nat) {
    (e.Recheck? || e.Load? || e.Store? || e.EndFlight?) && e.c == c
  }

  /** A process changes only by steps of its own; new ones start at the end of the list. */
  lemma OthersLeaveProcess(s: State, e: Event, p: nat)
    requires Enabled(s, e) && p < |Apply(s, e).processes| && !ProcessStep(e, p)
    ensures p <= |s.processes| <= |Apply(s, e).processes|
    ensures p < |s.processes| ==> Apply(s, e).processes[p] == s.processes[p]
    ensures p == |s.processes| ==>
      || (e.StartRead? && Apply(s, e).processes[p] == Reading(e.id))
      || (e.StartWrite? && Apply(s, e).processes[p] == Writing(e.id, e.value))
  {
  }

  /** A call changes only by steps of its own; new ones are opened at the end of the list. */
  lemma OthersLeaveCall(s: State, e: Event, c: nat)
    requires Enabled(s, e) && c < |Apply(s, e).calls| && !CallStep(e, c)
    ensures c <= |s.calls| <= |Apply(s, e).calls|
    ensures c < |s.calls| ==> Apply(s, e).calls[c] == s.calls[c]
    ensures c == |s.calls| ==> Apply(s, e).calls[c].stage.Rechecking?
  {
  }

  // ----- Every step keeps it -----

  /** A commit appends one value to the writes of one id; no other step touches them. */
  lemma WritesGrow(s: State, e: Event, id: nat)
    requires Enabled(s, e)
    ensures Version(s.writes, id) <= Version(Apply(s, e).writes, id) <= Version(s.writes, id) + 1
    ensures forall v: nat :: v <= Version(s.writes, id) ==>
      ValueAt(Apply(s, e).writes, id, v) == ValueAt(s.writes, id, v)
  {
  }

  lemma RecordMatches(table: Table, writes: Writes, id: nat, value: Option<Product>)
    requires HistoryMatches(table, writes) && (value.Some? ==> value.value.id == id)
    ensures HistoryMatches(Write(table, id, value), Record(writes, id, value))
  {
    var writes' := Record(writes, id, value);
    forall i ensures Lookup(Write(table, id, value), i) == ValueAt(writes', i, Version(writes', i)) {
      assert Lookup(table, i) == ValueAt(writes, i, Version(writes, i));
    }
    forall i, v: nat | v <= Version(writes', i) && ValueAt(writes', i, v).Some?
      ensures ValueAt(writes', i, v).value.id == i
    {
      if v <= Version(writes, i) {
        assert ValueAt(writes', i, v) == ValueAt(writes, i, v);
      }
    }
  }

  lemma HistoryKept(s: State, e: Event)
    requires HistoryMatches(s.table, s.writes) && WritersKeyed(s.processes) && Enabled(s, e)
    ensures HistoryMatches(Apply(s, e).table, Apply(s, e).writes)
  {
    if e.Commit? && Apply(s, e).writes != s.writes {
      var Writing(id, value) := s.processes[e.p];
      RecordMatches(s.table, s.writes, id, value);
    } else {
      assert Apply(s, e).table == s.table;
    }
  }

  /** A process about to write was so before, or has just started. */
  lemma WriterOrigin(s: State, e: Event, p: nat)
    requires Enabled(s, e) && p < |Apply(s, e).processes| && Apply(s, e).processes[p].Writing?
    ensures
      var Writing(id, value) := Apply(s, e).processes[p];
      (p < |s.processes| && s.processes[p] == Writing(id, value)) || e == StartWrite(id, value)
  {
    if !ProcessStep(e, p) {
      OthersLeaveProcess(s, e, p);
    }
  }

  lemma WritersKept(s: State, e: Event)
    requires WritersKeyed(s.processes) && Enabled(s, e)
    ensures WritersKeyed(Apply(s, e).processes)
  {
    var s' := Apply(s, e);
    forall p | 0 <= p < |s'.processes| && s'.processes[p].Writing? && s'.processes[p].value.Some?
      ensures s'.processes[p].value.value.id == s'.processes[p].id
    {
      WriterOrigin(s, e, p);
    }
  }

  lemma StageMatches(flights: map<nat, nat>, calls: seq<Call>, c: nat, stage: Stage)
    requires FlightsMatch(flights, calls) && c < |calls| && Active(calls[c]) && !stage.Landed?
    ensures FlightsMatch(flights, calls[c := calls[c].(stage := stage)])
  {
  }

  lemma OpeningMatches(flights: map<nat, nat>, calls: seq<Call>, id: nat)
    requires FlightsMatch(flights, calls) && id !in flights
    ensures FlightsMatch(flights[id := |calls|], calls + [Call(id, Rechecking)])
  {
  }

  lemma LandingMatches(flights: map<nat, nat>, calls: seq<Call>, c: nat, reply: Reply)
    requires FlightsMatch(flights, calls) && c < |calls| && Active(calls[c])
    ensures FlightsMatch(flights - {calls[c].id}, calls[c := calls[c].(stage := Landed(reply))])
  {
  }

  lemma FlightsKept(s: State, e: Event)
    requires FlightsMatch(s.flights, s.calls) && Enabled(s, e)
    ensures FlightsMatch(Apply(s, e).flights, Apply(s, e).calls)
  {
    match e
    case EnterFlight(p) =>
      if s.processes[p].id !in s.flights {
        OpeningMatches(s.flights, s.calls, s.processes[p].id);
      }
    case Recheck(c, _) => StageMatches(s.flights, s.calls, c, Apply(s, e).calls[c].stage);
    case Load(c, _) => StageMatches(s.flights, s.calls, c, Apply(s, e).calls[c].stage);
    case Store(c, _, _) => StageMatches(s.flights, s.calls, c, Apply(s, e).calls[c].stage);
    case EndFlight(c) => LandingMatches(s.flights, s.calls, c, s.calls[c].stage.reply);
    case _ => assert Apply(s, e).calls == s.calls && Apply(s, e).flights == s.flights;
  }

  /** Calls are only ever added, and keep their keys. */
  lemma CallsKeepIds(s: State, e: Event, c: nat)
    requires Enabled(s, e) && c < |s.calls|
    ensures c < |Apply(s, e).calls| && Apply(s, e).calls[c].id == s.calls[c].id
  {
    if !CallStep(e, c) {
      OthersLeaveCall(s, e, c);
    }
  }

  /** A process that waits did so before, or has just entered the flight of its key, in the table from now on. */
  lemma WaiterOrigin(s: State, e: Event, p: nat)
    requires Enabled(s, e) && p < |Apply(s, e).processes| && Apply(s, e).processes[p].Waiting?
    ensures
      var q := Apply(s, e).processes[p];
      || (p < |s.processes| && s.processes[p] == q)
      || (e == EnterFlight(p) && q.id in Apply(s, e).flights && q.call == Apply(s, e).flights[q.id])
  {
    if !ProcessStep(e, p) {
      OthersLeaveProcess(s, e, p);
    }
  }

  lemma WaitersKept(s: State, e: Event)
    requires FlightsMatch(s.flights, s.calls) && WaitersMatch(s.processes, s.calls) && Enabled(s, e)
    ensures WaitersMatch(Apply(s, e).processes, Apply(s, e).calls)
  {
    var s' := Apply(s, e);
    FlightsKept(s, e);
    forall p | 0 <= p < |s'.processes| && s'.processes[p].Waiting?
      ensures s'.processes[p].call < |s'.calls| && s'.calls[s'.processes[p].call].id == s'.processes[p].id
    {
      WaiterOrigin(s, e, p);
      if p < |s.processes| && s.processes[p] == s'.processes[p] {
        CallsKeepIds(s, e, s.processes[p].call);
      }
    }
  }

  lemma ExpiriesKept(s: State, e: Event)
    requires ExpiriesBounded(s.cache, s.clock, s.ttl) && Enabled(s, e)
    ensures ExpiriesBounded(Apply(s, e).cache, Apply(s, e).clock, Apply(s, e).ttl)
  {
  }

  lemma MissedDelsKept(s: State, e: Event)
    requires Invariant(s) && Enabled(s, e)
    ensures forall id, w :: (id, w) in Apply(s, e).missedDels ==> 1 <= w <= Version(Apply(s, e).writes, id)
  {
    match e
    case Commit(_, _) =>
    case DropEntry(p, _) => assert ProcessAuthentic(s.writes, s.processes[p]);
    case _ =>
  }

  lemma PendingKept(s: State, e: Event, id: nat, w: nat)
    requires Enabled(s, e) && DelPending(s.processes, id, w)
    requires !(e.DropEntry? && s.processes[e.p] == Committed(id, w))
    ensures DelPending(Apply(s, e).processes, id, w)
  {
    var p :| 0 <= p < |s.processes| && s.processes[p] == Committed(id, w);
    assert Apply(s, e).processes[p] == s.processes[p];
  }

  /** An entry is the one that was there, or the one a Store has just put there. */
  lemma EntryOrigin(s: State, e: Event, id: nat)
    requires Enabled(s, e) && id in Apply(s, e).cache
    ensures
      || (id in s.cache && Apply(s, e).cache[id] == s.cache[id]
          && !(e.DropEntry? && !e.fails && s.processes[e.p].id == id))
      || (e.Store? && !e.fails && s.calls[e.c].id == id && Apply(s, e).writes == s.writes
          && Apply(s, e).cache[id] == Entry(s.calls[e.c].stage.text, s.clock + AddJitter(s.ttl, e.draw),
                                            s.calls[e.c].stage.version, Version(s.writes, id)))
  {
    match e
    case Store(c, fails, _) =>
    case DropEntry(p, fails) =>
    case _ => assert Apply(s, e).cache == s.cache;
  }

  lemma WriteExplained(s: State, e: Event, id: nat, w: nat)
    requires Enabled(s, e) && w <= Version(Apply(s, e).writes, id)
    requires w <= Version(s.writes, id) ==> (id, w) in s.missedDels || DelPending(s.processes, id, w)
    requires !(e.DropEntry? && !e.fails && s.processes[e.p].id == id)
    ensures (id, w) in Apply(s, e).missedDels || DelPending(Apply(s, e).processes, id, w)
  {
    var s' := Apply(s, e);
    if w > Version(s.writes, id) {
      assert e.Commit? && if e.fault.Works? then s'.processes[e.p] == Committed(id, w) else (id, w) in s'.missedDels;
    } else if (id, w) !in s'.missedDels {
      PendingKept(s, e, id, w);
    }
  }

  lemma SurvivalKept(s: State, e: Event, id: nat)
    requires Enabled(s, e) && id in Apply(s, e).cache
    requires id in s.cache ==> SurvivalExplained(s, id, s.cache[id])
    ensures SurvivalExplained(Apply(s, e), id, Apply(s, e).cache[id])
  {
    EntryOrigin(s, e, id);
    var s' := Apply(s, e);
    forall w: nat | s'.cache[id].stored < w <= Version(s'.writes, id)
      ensures (id, w) in s'.missedDels || DelPending(s'.processes, id, w)
    {
      WriteExplained(s, e, id, w);
    }
  }

  lemma ReplyKept(s: State, e: Event, id: nat, reply: Reply)
    requires Enabled(s, e) && ReplyAuthentic(s.writes, id, reply)
    ensures ReplyAuthentic(Apply(s, e).writes, id, reply)
  {
    if reply.Text? {
      WritesGrow(s, e, id);
    }
  }

  /** A hit is the text of a value the id has held. */
  lemma HitAuthentic(s: State, id: nat)
    requires Authentic(s) && Hit(s, id).Some?
    ensures ReplyAuthentic(s.writes, id, HitReply(s, id))
  {
    assert IsVersion(s.writes, id, s.cache[id].read, s.cache[id].text);
  }

  lemma EntryKept(s: State, e: Event, id: nat)
    requires Authentic(s) && Enabled(s, e) && id in Apply(s, e).cache
    ensures EntryAuthentic(Apply(s, e).writes, id, Apply(s, e).cache[id])
  {
    WritesGrow(s, e, id);
    EntryOrigin(s, e, id);
    if e.Store? && s.calls[e.c].id == id {
      assert CallAuthentic(s.writes, s.calls[e.c]);
    }
  }

  /** The call has just looked up, loaded, or moved its text or its result on. */
  predicate CallAdvanced(s: State, before: Call, call: Call) {
    || (Hit(s, call.id).Some? && call.stage == Returning(HitReply(s, call.id)))
    || call.stage == Loaded(TextOf(Lookup(s.table, call.id)), Version(s.writes, call.id))
    || (before.stage.Loaded? && call.stage == Returning(Text(before.stage.text, before.stage.version)))
    || (before.stage.Returning? && call.stage == Landed(before.stage.reply))
  }

  /** A call is the one that was there, one that holds no text, or one that has just advanced. */
  lemma CallOrigin(s: State, e: Event, c: nat)
    requires Enabled(s, e) && c < |Apply(s, e).calls|
    ensures
      var call := Apply(s, e).calls[c];
      || (c < |s.calls| && call == s.calls[c])
      || call.stage.Rechecking? || call.stage.Loading? || call.stage == Returning(Failed)
      || (c < |s.calls| && call.id == s.calls[c].id && Apply(s, e).writes == s.writes
          && CallAdvanced(s, s.calls[c], call))
  {
    if !CallStep(e, c) {
      OthersLeaveCall(s, e, c);
    }
  }

  lemma CallKept(s: State, e: Event, c: nat)
    requires Authentic(s) && HistoryMatches(s.table, s.writes) && Enabled(s, e) && c < |Apply(s, e).calls|
    ensures CallAuthentic(Apply(s, e).writes, Apply(s, e).calls[c])
  {
    CallOrigin(s, e, c);
    var call := Apply(s, e).calls[c];
    if c < |s.calls| {
      assert CallAuthentic(s.writes, s.calls[c]);
      if call == s.calls[c] {
        CallStays(s, e, call);
      } else if call.stage.Loaded? {
        assert IsVersion(s.writes, call.id, Version(s.writes, call.id), call.stage.text);
      } else if Hit(s, call.id).Some? {
        HitAuthentic(s, call.id);
      }
    }
  }

  lemma CallStays(s: State, e: Event, call: Call)
    requires Enabled(s, e) && CallAuthentic(s.writes, call)
    ensures CallAuthentic(Apply(s, e).writes, call)
  {
    WritesGrow(s, e, call.id);
    match call.stage
    case Loaded(text, version) => assert IsVersion(Apply(s, e).writes, call.id, version, text);
    case Returning(reply) => ReplyKept(s, e, call.id, reply);
    case Landed(reply) => ReplyKept(s, e, call.id, reply);
    case _ =>
  }

  /** The reply is a hit, or the result of the landed call the process waited for. */
  predicate ReplyObtained(s: State, p: nat, id: nat, reply: Reply) {
    || (Hit(s, id).Some? && reply == HitReply(s, id))
    || (p < |s.processes| && s.processes[p].Waiting? && id == s.processes[p].id
        && s.processes[p].call < |s.calls| && s.calls[s.processes[p].call].stage == Landed(reply))
  }

  /** A process is the one that was there, one that holds no result, one that has just obtained its reply, or a writer
      that has just committed. */
  lemma ProcessOrigin(s: State, e: Event, p: nat)
    requires Enabled(s, e) && p < |Apply(s, e).processes|
    ensures
      var q := Apply(s, e).processes[p];
      || (p < |s.processes| && q == s.processes[p])
      || !(q.Answered? || q.Committed?)
      || (q.Committed? && q.version == Version(Apply(s, e).writes, q.id) >= 1)
      || (q.Answered? && Apply(s, e).writes == s.writes && ReplyObtained(s, p, q.id, q.reply))
  {
    if !ProcessStep(e, p) {
      OthersLeaveProcess(s, e, p);
    }
  }

  lemma ProcessKept(s: State, e: Event, p: nat)
    requires Authentic(s) && WaitersMatch(s.processes, s.calls) && Enabled(s, e) && p < |Apply(s, e).processes|
    ensures ProcessAuthentic(Apply(s, e).writes, Apply(s, e).processes[p])
  {
    ProcessOrigin(s, e, p);
    var q := Apply(s, e).processes[p];
    if p < |s.processes| && q == s.processes[p] {
      ProcessStays(s, e, q);
    } else if q.Answered? {
      if Hit(s, q.id).Some? && q.reply == HitReply(s, q.id) {
        HitAuthentic(s, q.id);
      } else {
        assert CallAuthentic(s.writes, s.calls[s.processes[p].call]);
      }
    }
  }

  lemma ProcessStays(s: State, e: Event, q: Process)
    requires Enabled(s, e) && ProcessAuthentic(s.writes, q)
    ensures ProcessAuthentic(Apply(s, e).writes, q)
  {
    match q
    case Answered(id, reply) => ReplyKept(s, e, id, reply);
    case Committed(id, _) => WritesGrow(s, e, id);
    case _ =>
  }

  lemma AuthenticKept(s: State, e: Event)
    requires Invariant(s) && Enabled(s, e)
    ensures Authentic(Apply(s, e))
  {
    var s' := Apply(s, e);
    forall id | id in s'.cache ensures EntryAuthentic(s'.writes, id, s'.cache[id]) {
      EntryKept(s, e, id);
    }
    forall c | 0 <= c < |s'.calls| ensures CallAuthentic(s'.writes, s'.calls[c]) {
      CallKept(s, e, c);
    }
    forall p | 0 <= p < |s'.processes| ensures ProcessAuthentic(s'.writes, s'.processes[p]) {
      ProcessKept(s, e, p);
    }
  }

  lemma InvariantKept(s: State, e: Event)
    requires Invariant(s) && Enabled(s, e)
    ensures Invariant(Apply(s, e))
  {
    HistoryKept(s, e);
    WritersKept(s, e);
    FlightsKept(s, e);
    WaitersKept(s, e);
    AuthenticKept(s, e);
    ExpiriesKept(s, e);
    MissedDelsKept(s, e);
    var s' := Apply(s, e);
    forall id | id in s'.cache ensures SurvivalExplained(s', id, s'.cache[id]) {
      SurvivalKept(s, e, id);
    }
  }
}
