/** The step system and the service object describe the same code: a reader or a writer that runs without interruption
    takes the steps the object's methods take at once. */
module CacheBridge {
  import opened CacheExpiry
  import opened CacheProtocol
  import opened CacheRuns
  import opened Options
  import opened ProductCodec
  import opened Products
  import CacheObjects
  import ProductService
  import ProductRepository

  lemma KeysAreInjective()
    ensures forall a, b {:trigger CacheKey(a), CacheKey(b)} :: CacheKey(a) == CacheKey(b) ==> a == b
  {
    forall a, b | CacheKey(a) == CacheKey(b) ensures a == b {
      CacheKeyInjective(a, b);
    }
  }

  /** The cache as the store holds it, under textual keys. */
  function EntriesOf(cache: map<nat, Entry>): CacheObjects.Entries {
    KeysAreInjective();
    map id | id in cache :: CacheKey(id) := CacheObjects.Stored(cache[id].text, cache[id].expiresAt)
  }

  lemma EntryUnderKey(cache: map<nat, Entry>, id: nat)
    ensures CacheKey(id) in EntriesOf(cache) <==> id in cache
    ensures id in cache ==>
      EntriesOf(cache)[CacheKey(id)] == CacheObjects.Stored(cache[id].text, cache[id].expiresAt)
  {
    KeysAreInjective();
  }

  lemma PeekIsHit(s: State, id: nat)
    ensures CacheObjects.Peek(EntriesOf(s.cache), s.clock, CacheKey(id)) == Hit(s, id)
  {
    EntryUnderKey(s.cache, id);
  }

  /** Caches that agree but for one id hold the same under every other key. */
  lemma OtherKeys(cache: map<nat, Entry>, cache': map<nat, Entry>, id: nat, key: string)
    requires cache - {id} == cache' - {id} && key != CacheKey(id) && key in EntriesOf(cache)
    ensures key in EntriesOf(cache') && EntriesOf(cache)[key] == EntriesOf(cache')[key]
  {
    var i :| i in cache && CacheKey(i) == key;
    assert i in cache - {id} && cache[i] == (cache - {id})[i] == (cache' - {id})[i] == cache'[i];
    EntryUnderKey(cache, i);
    EntryUnderKey(cache', i);
  }

  lemma EntriesOfSet(cache: map<nat, Entry>, id: nat, entry: Entry)
    ensures EntriesOf(cache[id := entry])
      == EntriesOf(cache)[CacheKey(id) := CacheObjects.Stored(entry.text, entry.expiresAt)]
  {
    var cache' := cache[id := entry];
    var entries := EntriesOf(cache)[CacheKey(id) := CacheObjects.Stored(entry.text, entry.expiresAt)];
    EntryUnderKey(cache', id);
    assert cache - {id} == cache' - {id};
    forall key ensures key in EntriesOf(cache') <==> key in entries
               ensures key in entries ==> EntriesOf(cache')[key] == entries[key] {
      if key != CacheKey(id) {
        if key in EntriesOf(cache) { OtherKeys(cache, cache', id, key); }
        if key in EntriesOf(cache') { OtherKeys(cache', cache, id, key); }
      }
    }
  }

  lemma EntriesOfDel(cache: map<nat, Entry>, id: nat)
    ensures EntriesOf(cache - {id}) == EntriesOf(cache) - {CacheKey(id)}
  {
    var cache' := cache - {id};
    EntryUnderKey(cache', id);
    assert cache - {id} == cache' - {id};
    forall key ensures key in EntriesOf(cache') <==> key in EntriesOf(cache) - {CacheKey(id)}
               ensures key in EntriesOf(cache') ==> EntriesOf(cache')[key] == EntriesOf(cache)[key] {
      if key != CacheKey(id) {
        if key in EntriesOf(cache) { OtherKeys(cache, cache', id, key); }
        if key in EntriesOf(cache') { OtherKeys(cache', cache, id, key); }
      }
    }
  }

  /** How the reply of a flight reads as the result of a GetOrLoad. */
  function LoadingOf(reply: Reply): CacheObjects.Loading {
    match reply
    case Text(text, _) => Ok(text)
    case Failed => Err(CacheObjects.LoadError)
  }

  /** The next process to start has received this reply, and nothing else but the cache, the calls and the processes has
      changed. */
  ghost predicate ReadBy(s: State, t: State, id: nat, reply: Reply) {
    && t.processes == s.processes + [Answered(id, reply)]
    && t.clock == s.clock && t.ttl == s.ttl && t.table == s.table && t.writes == s.writes
    && t.missedDels == s.missedDels && t.flights == s.flights
  }

  /** What a flight that runs without interruption returns, and leaves in the cache, if its loader returns loaded. */
  predicate FlightResult(
    s: State, id: nat, loaded: CacheObjects.Loading, faults: CacheObjects.Faults, draw: int, cache': map<nat, Entry>,
    reply: Reply)
    requires ValidDraw(s.ttl, draw)
  {
    if !faults.secondGet && Hit(s, id).Some? then cache' == s.cache && reply == HitReply(s, id)
    else
      && LoadingOf(reply) == loaded
      && cache' == if reply.Failed? || faults.store then s.cache
                   else s.cache[id := Entry(reply.text, s.clock + AddJitter(s.ttl, draw),
                                            Version(s.writes, id), Version(s.writes, id))]
  }

  /** The loader's result, as the service object sees the table. */
  function LoadingAt(s: State, id: nat, fails: bool): CacheObjects.Loading {
    ProductService.LoadText(ProductRepository.Database(s.table, 0), id, fails)
  }

  /** One GetOrLoad of the id, on the store as the object holds it. */
  function GetOrLoadAt(s: State, id: nat, faults: CacheObjects.Faults, draw: int)
    : (CacheObjects.Entries, CacheObjects.Loading)
    requires ValidDraw(s.ttl, draw)
  {
    CacheObjects.GetOrLoadStep(
      EntriesOf(s.cache), s.clock, CacheKey(id), LoadingAt(s, id, faults.load), s.ttl, faults, draw)
  }

  /** A GetOrLoad whose first lookup fails and whose second one hits. */
  lemma StepHitsSecond(
    entries: CacheObjects.Entries, now: int, key: string, loaded: CacheObjects.Loading, ttl: int,
    faults: CacheObjects.Faults, draw: int)
    requires ValidDraw(ttl, draw)
    requires faults.firstGet && !faults.secondGet && CacheObjects.Peek(entries, now, key).Some?
    ensures CacheObjects.GetOrLoadStep(entries, now, key, loaded, ttl, faults, draw)
      == (entries, Ok(CacheObjects.Peek(entries, now, key).value))
  {
  }

  /** A GetOrLoad that reaches its loader. */
  lemma StepLoads(
    entries: CacheObjects.Entries, now: int, key: string, loaded: CacheObjects.Loading, ttl: int,
    faults: CacheObjects.Faults, draw: int, entries': CacheObjects.Entries)
    requires ValidDraw(ttl, draw)
    requires CacheObjects.Peek(entries, now, key).None? || (faults.firstGet && faults.secondGet)
    requires entries' == if loaded.Err? || faults.store then entries
                         else entries[key := CacheObjects.Stored(loaded.value, now + AddJitter(ttl, draw))]
    ensures CacheObjects.GetOrLoadStep(entries, now, key, loaded, ttl, faults, draw) == (entries', loaded)
  {
  }

  /** The store went from entries to entries' as the cache did, if that changed no more than one key. */
  ghost predicate Follows(
    cache: map<nat, Entry>, cache': map<nat, Entry>, id: nat,
    entries: CacheObjects.Entries, entries': CacheObjects.Entries, key: string)
  {
    && (cache' == cache ==> entries' == entries)
    && (forall entry :: cache' == cache[id := entry] ==>
          entries' == entries[key := CacheObjects.Stored(entry.text, entry.expiresAt)])
  }

  lemma EntriesFollow(cache: map<nat, Entry>, cache': map<nat, Entry>, id: nat)
    ensures Follows(cache, cache', id, EntriesOf(cache), EntriesOf(cache'), CacheKey(id))
  {
    forall entry | cache' == cache[id := entry]
      ensures EntriesOf(cache')
        == EntriesOf(cache)[CacheKey(id) := CacheObjects.Stored(entry.text, entry.expiresAt)]
    {
      EntriesOfSet(cache, id, entry);
    }
  }

  lemma HitIsGetOrLoad(
    s: State, id: nat, loaded: CacheObjects.Loading, faults: CacheObjects.Faults, draw: int,
    entries: CacheObjects.Entries, key: string)
    requires ValidDraw(s.ttl, draw) && !faults.firstGet && Hit(s, id).Some?
    requires CacheObjects.Peek(entries, s.clock, key) == Hit(s, id)
    ensures CacheObjects.GetOrLoadStep(entries, s.clock, key, loaded, s.ttl, faults, draw)
      == (entries, LoadingOf(HitReply(s, id)))
  {
  }

  lemma MissIsGetOrLoad(
    s: State, id: nat, loaded: CacheObjects.Loading, faults: CacheObjects.Faults, draw: int, cache': map<nat, Entry>,
    reply: Reply, entries: CacheObjects.Entries, entries': CacheObjects.Entries, key: string)
    requires ValidDraw(s.ttl, draw) && FlightResult(s, id, loaded, faults, draw, cache', reply)
    requires faults.firstGet || Hit(s, id).None?
    requires CacheObjects.Peek(entries, s.clock, key) == Hit(s, id)
    requires Follows(s.cache, cache', id, entries, entries', key)
    ensures CacheObjects.GetOrLoadStep(entries, s.clock, key, loaded, s.ttl, faults, draw)
      == (entries', LoadingOf(reply))
  {
    if !faults.secondGet && Hit(s, id).Some? {
      StepHitsSecond(entries, s.clock, key, loaded, s.ttl, faults, draw);
    } else {
      StepLoads(entries, s.clock, key, loaded, s.ttl, faults, draw, entries');
    }
  }

  /** The flight's own steps, from its opening until it has a reply. */
  lemma SoloFlight(s: State, c: nat, faults: CacheObjects.Faults, draw: int)
    returns (events: seq<Event>, t: State, reply: Reply)
    requires c < |s.calls| && s.calls[c].stage.Rechecking? && ValidDraw(s.ttl, draw)
    ensures Leads(s, events, t)
    ensures t == SetStage(s, c, Returning(reply)).(cache := t.cache)
    ensures FlightResult(s, s.calls[c].id, LoadingAt(s, s.calls[c].id, faults.load), faults, draw, t.cache, reply)
  {
    var id := s.calls[c].id;
    LeadsStep(s, [], s, Recheck(c, faults.secondGet));
    events, t := [Recheck(c, faults.secondGet)], Apply(s, Recheck(c, faults.secondGet));
    if !faults.secondGet && Hit(s, id).Some? {
      reply := HitReply(s, id);
    } else {
      var more, u, r := SoloLoad(t, c, faults, draw);
      LeadsOn(s, events, t, more, u);
      events, t, reply := events + more, u, r;
    }
  }

  /** The load of a flight, and its Set. */
  lemma SoloLoad(s: State, c: nat, faults: CacheObjects.Faults, draw: int)
    returns (events: seq<Event>, t: State, reply: Reply)
    requires c < |s.calls| && s.calls[c].stage.Loading? && ValidDraw(s.ttl, draw)
    ensures Leads(s, events, t)
    ensures t == SetStage(s, c, Returning(reply)).(cache := t.cache)
    ensures LoadingOf(reply) == LoadingAt(s, s.calls[c].id, faults.load)
    ensures
      var id := s.calls[c].id;
      t.cache == if reply.Failed? || faults.store then s.cache
                 else s.cache[id := Entry(reply.text, s.clock + AddJitter(s.ttl, draw),
                                          Version(s.writes, id), Version(s.writes, id))]
  {
    LeadsStep(s, [], s, Load(c, faults.load));
    events, t := [Load(c, faults.load)], Apply(s, Load(c, faults.load));
    if faults.load {
      reply := Failed;
    } else {
      reply := Text(TextOf(Lookup(s.table, s.calls[c].id)), Version(s.writes, s.calls[c].id));
      LeadsStep(s, events, t, Store(c, faults.store, draw));
      events, t := events + [Store(c, faults.store, draw)], Apply(t, Store(c, faults.store, draw));
    }
  }

  /** A new reader's first lookup. */
  lemma SoloFirstGet(s: State, id: nat, fails: bool) returns (events: seq<Event>, t: State)
    ensures Leads(s, events, t)
    ensures t == s.(processes := s.processes + [
              if !fails && Hit(s, id).Some? then Answered(id, HitReply(s, id)) else Missed(id)])
  {
    var p := |s.processes|;
    LeadsStep(s, [], s, StartRead(id));
    var s1 := Apply(s, StartRead(id));
    LeadsStep(s, [StartRead(id)], s1, FirstGet(p, fails));
    events, t := [StartRead(id)] + [FirstGet(p, fails)], Apply(s1, FirstGet(p, fails));
  }

  /** The whole run of a reader that missed: it opens the flight, leads it, and collects. */
  lemma SoloMiss(s: State, p: nat, id: nat, faults: CacheObjects.Faults, draw: int)
    returns (events: seq<Event>, t: State, reply: Reply)
    requires p < |s.processes| && s.processes[p] == Missed(id) && id !in s.flights && ValidDraw(s.ttl, draw)
    ensures Leads(s, events, t)
    ensures t == s.(cache := t.cache, calls := t.calls, processes := s.processes[p := Answered(id, reply)])
    ensures FlightResult(s, id, LoadingAt(s, id, faults.load), faults, draw, t.cache, reply)
  {
    var c := |s.calls|;
    LeadsStep(s, [], s, EnterFlight(p));
    var s1 := s.(processes := s.processes[p := Waiting(id, c)], calls := s.calls + [Call(id, Rechecking)],
                 flights := s.flights[id := c]);
    assert Apply(s, EnterFlight(p)) == s1;
    var flight, flown, r := SoloFlight(s1, c, faults, draw);
    reply := r;
    LeadsOn(s, [EnterFlight(p)], s1, flight, flown);
    events, t := SoloLanding(s, [EnterFlight(p)] + flight, flown, p, c, reply);
    assert s1.flights - {id} == s.flights;
    assert s1.processes[p := Answered(id, reply)] == s.processes[p := Answered(id, reply)];
  }

  /** A reader that runs without interruption, while no flight of its key is open, does what one GetOrLoad does: same
      reply, same store, and nothing else changes. */
  lemma SoloReader(s: State, id: nat, faults: CacheObjects.Faults, draw: int)
    returns (events: seq<Event>, t: State, reply: Reply)
    requires id !in s.flights && ValidDraw(s.ttl, draw)
    ensures Leads(s, events, t) && ReadBy(s, t, id, reply)
    ensures (EntriesOf(t.cache), LoadingOf(reply)) == GetOrLoadAt(s, id, faults, draw)
  {
    var first, s1 := SoloFirstGet(s, id, faults.firstGet);
    if !faults.firstGet && Hit(s, id).Some? {
      events, t, reply := first, s1, HitReply(s, id);
      PeekIsHit(s, id);
      HitIsGetOrLoad(s, id, LoadingAt(s, id, faults.load), faults, draw, EntriesOf(s.cache), CacheKey(id));
    } else {
      var more;
      more, t, reply := SoloMiss(s1, |s.processes|, id, faults, draw);
      LeadsOn(s, first, s1, more, t);
      events := first + more;
      assert FlightResult(s, id, LoadingAt(s, id, faults.load), faults, draw, t.cache, reply);
      assert ReadBy(s, t, id, reply);
      PeekIsHit(s, id);
      EntriesFollow(s.cache, t.cache, id);
      MissIsGetOrLoad(s, id, LoadingAt(s, id, faults.load), faults, draw, t.cache, reply,
                      EntriesOf(s.cache), EntriesOf(t.cache), CacheKey(id));
    }
  }

  /** The end of a flight, and its leader's collecting the reply. */
  lemma SoloLanding(s: State, events: seq<Event>, t: State, p: nat, c: nat, reply: Reply)
    returns (events': seq<Event>, u: State)
    requires Leads(s, events, t) && c < |t.calls| && t.calls[c].stage == Returning(reply)
    requires p < |t.processes| && t.processes[p].Waiting? && t.processes[p].call == c
    ensures Leads(s, events', u)
    ensures u == t.(flights := t.flights - {t.calls[c].id}, calls := u.calls,
                    processes := t.processes[p := Answered(t.processes[p].id, reply)])
  {
    LeadsStep(s, events, t, EndFlight(c));
    var t1 := Apply(t, EndFlight(c));
    LeadsStep(s, events + [EndFlight(c)], t1, Collect(p));
    events', u := events + [EndFlight(c)] + [Collect(p)], Apply(t1, Collect(p));
  }

  /** The steps of a writer that runs without interruption. */
  lemma SoloWrite(s: State, id: nat, value: Option<Product>, fault: WriteFault, delFails: bool)
    returns (events: seq<Event>, t: State)
    requires value.Some? ==> value.value.id == id
    ensures Leads(s, events, t) && t.clock == s.clock && t.ttl == s.ttl && t.calls == s.calls && t.flights == s.flights
    ensures
      var takes := TakesEffect(s.table, id, value, fault);
      var missed := takes && (fault.Unconfirmed? || delFails);
      && t.table == (if takes then Write(s.table, id, value) else s.table)
      && t.writes == (if takes then Record(s.writes, id, value) else s.writes)
      && t.cache == (if takes && !missed then s.cache - {id} else s.cache)
      && t.missedDels == (if missed then s.missedDels + {(id, Version(t.writes, id))} else s.missedDels)
  {
    var p := |s.processes|;
    LeadsStep(s, [], s, StartWrite(id, value));
    var s1 := s.(processes := s.processes + [Writing(id, value)]);
    LeadsStep(s, [StartWrite(id, value)], s1, Commit(p, fault));
    t, events := Apply(s1, Commit(p, fault)), [StartWrite(id, value)] + [Commit(p, fault)];
    if t.processes[p].Committed? {
      events, t := SoloDelete(s, events, t, p, delFails);
    }
  }

  /** Everything the service sees of a state, given the next id the database would assign. */
  function WorldOf(s: State, nextId: nat): ProductService.World {
    ProductService.World(ProductRepository.Database(s.table, nextId), s.clock, EntriesOf(s.cache))
  }

  /** The service's write in terms of one write to one row: the id, the new value or its absence, and how it ends. A
      taken id counts as a refusal. */
  lemma StepOfWrite(ttl: int, w: ProductService.World, op: ProductService.Op)
    returns (id: nat, value: Option<Product>, fault: WriteFault)
    requires op.Create? || op.Update? || op.Delete?
    ensures value.Some? ==> value.value.id == id
    ensures ProductService.Written(w, op) == if TakesEffect(w.db.table, id, value, fault) then Some(id) else None
    ensures TakesEffect(w.db.table, id, value, fault) ==> fault == op.fault
    ensures
      var (w', reply) := ProductService.Step(true, ttl, w, op);
      var takes := TakesEffect(w.db.table, id, value, fault);
      && w'.db.table == (if takes then Write(w.db.table, id, value) else w.db.table)
      && w'.now == w.now
      && w'.entries == (if takes && fault.Works? then ProductService.Forget(true, w.entries, id, op.delFails)
                        else w.entries)
      && (reply.Saved? || reply.Removed? <==> takes && fault.Works?)
  {
    if op.Delete? {
      id, value, fault := op.id, None, op.fault;
    } else {
      var p := op.product;
      if op.Update? && p.id != 0 {
        id, value, fault := p.id, Some(p.(updatedAt := op.stamp)), op.fault;
      } else {
        var q := ProductRepository.Inserted(w.db, p, op.stamp);
        id, value, fault := q.id, Some(q), if q.id in w.db.table then Refused else op.fault;
      }
    }
  }

  /** What the history of a state shows of one write of the service: nothing, or one more version of its id, whose
      deletion is missed exactly if the service's is. */
  ghost predicate WriteShows(s: State, t: State, w: ProductService.World, op: ProductService.Op)
    requires op.Create? || op.Update? || op.Delete?
  {
    match ProductService.Written(w, op)
    case None => t.writes == s.writes && t.missedDels == s.missedDels
    case Some(id) =>
      && Version(t.writes, id) == Version(s.writes, id) + 1
      && t.missedDels == if op.fault.Unconfirmed? || op.delFails
                         then s.missedDels + {(id, Version(t.writes, id))} else s.missedDels
  }

  /** The entry of the id is gone from the store exactly if it is gone from the cache, and nothing else changes. */
  ghost predicate SameDeletion(
    cache: map<nat, Entry>, cache': map<nat, Entry>, entries: CacheObjects.Entries, entries': CacheObjects.Entries)
  {
    (cache' == cache && entries' == entries)
    || exists id: nat :: cache' == cache - {id} && entries' == entries - {CacheKey(id)}
  }

  lemma SoloWriterIn(s: State, w: ProductService.World, op: ProductService.Op)
    returns (events: seq<Event>, t: State)
    requires op.Create? || op.Update? || op.Delete?
    requires w.db.table == s.table && w.now == s.clock
    ensures Leads(s, events, t) && t.calls == s.calls && t.flights == s.flights
    ensures
      var (w', reply) := ProductService.Step(true, s.ttl, w, op);
      && t.table == w'.db.table && t.clock == w'.now && SameDeletion(s.cache, t.cache, w.entries, w'.entries)
      && WriteShows(s, t, w, op)
      && (reply.Saved? || reply.Removed? <==> ProductService.Written(w, op).Some? && op.fault.Works?)
  {
    var id, value, fault := StepOfWrite(s.ttl, w, op);
    events, t := SoloWrite(s, id, value, fault, op.delFails);
  }

  lemma SameDeletionOfEntries(cache: map<nat, Entry>, cache': map<nat, Entry>, entries': CacheObjects.Entries)
    requires SameDeletion(cache, cache', EntriesOf(cache), entries')
    ensures EntriesOf(cache') == entries'
  {
    if !(cache' == cache && entries' == EntriesOf(cache)) {
      var id: nat :| cache' == cache - {id} && entries' == EntriesOf(cache) - {CacheKey(id)};
      EntriesOfDel(cache, id);
    }
  }

  /** A writer that runs without interruption does what the service's write does: same table, same store, and nothing
      else of the world changes; the write enters the history exactly if the service's has an effect, and its deletion
      is missed exactly if the service's is; and the service reports success exactly for an acknowledged effect. */
  lemma SoloWriter(s: State, nextId: nat, op: ProductService.Op) returns (events: seq<Event>, t: State)
    requires op.Create? || op.Update? || op.Delete?
    ensures Leads(s, events, t) && t.calls == s.calls && t.flights == s.flights
    ensures
      var w := WorldOf(s, nextId);
      var (w', reply) := ProductService.Step(true, s.ttl, w, op);
      && WorldOf(t, w'.db.nextId) == w' && WriteShows(s, t, w, op)
      && (reply.Saved? || reply.Removed? <==> ProductService.Written(w, op).Some? && op.fault.Works?)
  {
    var w := WorldOf(s, nextId);
    events, t := SoloWriterIn(s, w, op);
    SameDeletionOfEntries(s.cache, t.cache, ProductService.Step(true, s.ttl, w, op).0.entries);
  }

  lemma SoloDelete(s: State, events: seq<Event>, t: State, p: nat, fails: bool) returns (events': seq<Event>, u: State)
    requires Leads(s, events, t) && p < |t.processes| && t.processes[p].Committed?
    ensures Leads(s, events', u)
    ensures u == t.(cache := if fails then t.cache else t.cache - {t.processes[p].id},
                    missedDels := if fails then t.missedDels + {(t.processes[p].id, t.processes[p].version)}
                                  else t.missedDels,
                    processes := t.processes[p := Finished])
  {
    LeadsStep(s, events, t, DropEntry(p, fails));
    events', u := events + [DropEntry(p, fails)], Apply(t, DropEntry(p, fails));
  }
}
