/** Patches in traffic: between the lookup of a PATCH and its save anything may happen. What the save then does to the
    fields the patch left alone, in every run of the cache protocol. */
module PatchRuns {
  import opened CacheExpiry
  import opened CacheProtocol
  import opened CacheRuns
  import opened Options
  import opened ProductCodec
  import opened ProductHandler
  import opened Products

  /** The answer was a hit on an entry that was out of date. */
  predicate StaleHit(s: State, e: Event, id: nat, reply: Reply) {
    reply.Text? && !e.Load? && reply.read < Version(s.writes, id)
  }

  /** The m-th event commits, acknowledged or not, the product a reader has been answered with, patched. */
  ghost predicate SavesPatch(
    states: seq<State>, events: seq<Event>, m: nat, id: nat, product: Product, patch: Patch, stamp: string, q: Product)
    requires m < |events| < |states|
  {
    && CommitsKey(states[m], events[m], id)
    && states[m].processes[events[m].p].value == Some(q)
    && Patches(product.(updatedAt := stamp), patch, q)
  }

  /** The text a reader was answered with is current at m exactly if it was at the event it was obtained at, and no
      commit of the id has taken effect since. */
  lemma StillCurrent(states: seq<State>, events: seq<Event>, j: nat, m: nat, id: nat, reply: Reply)
    requires IsRun(states, events) && j <= m < |states| && j < |events|
    requires reply.Text? && ObtainedFor(states[j], events[j], id, reply)
    ensures reply.read <= Version(states[j].writes, id) <= Version(states[m].writes, id)
    ensures reply.read == Version(states[m].writes, id) <==>
      !StaleHit(states[j], events[j], id, reply) && !exists k :: j <= k < m && CommitsKey(states[k], events[k], id)
  {
    RunInvariant(states, events, j);
    VersionsGrow(states, events, j, m, id);
    if !events[j].Load? {
      assert EntryAuthentic(states[j].writes, id, states[j].cache[id]);
    }
  }

  lemma CommitPuts(s: State, e: Event, id: nat, q: Product)
    requires Enabled(s, e) && CommitsKey(s, e, id) && s.processes[e.p].value == Some(q)
    ensures Lookup(Apply(s, e).table, id) == Some(q)
  {
  }

  /** When a patch changes more than the supplied fields, in every run. Let a PATCH have been answered with a product,
      obtained at the j-th event, and let the m-th commit it patched. The save changes the supplied fields and no other
      if and only if the record held at m agrees with the product in all others; and the record held at m is the product
      whenever the answer was no stale hit and no commit of the id has taken effect since. Otherwise it is the value of
      a later write, and where that differs in the other fields it is undone. */
  lemma PatchInTraffic(
    states: seq<State>, events: seq<Event>, n: nat, p: nat, m: nat, product: Product, patch: Patch, stamp: string,
    q: Product) returns (j: nat)
    requires IsRun(states, events) && n <= m < |events| && p < |states[n].processes|
    requires states[n].processes[p].Answered? && states[n].processes[p].reply.Text?
    requires AnswerOfText(states[n].processes[p].reply.text) == Found(product)
    requires SavesPatch(states, events, m, states[n].processes[p].id, product, patch, stamp, q)
    ensures
      var Answered(id, reply) := states[n].processes[p];
      var held := Lookup(states[m].table, id);
      && j < n && AnswerFrom(states, events, n, p, reply, j) && ObtainedFor(states[j], events[j], id, reply)
      && Lookup(states[m + 1].table, id) == Some(q)
      && (OnlyPatched(held, patch, stamp, Some(q)) <==> held.Some? && AgreeOutside(patch, product, held.value))
      && (reply.read == Version(states[m].writes, id) <==>
            !StaleHit(states[j], events[j], id, reply)
            && !exists k :: j <= k < m && CommitsKey(states[k], events[k], id))
      && (reply.read == Version(states[m].writes, id) ==> held == Some(product))
  {
    var id, reply := states[n].processes[p].id, states[n].processes[p].reply;
    j := AnswerObtained(states, events, n, p);
    StillCurrent(states, events, j, m, id, reply);
    assert StepAt(states, events, m);
    CommitPuts(states[m], events[m], id, q);
    RunInvariant(states, events, m);
    if reply.read == Version(states[m].writes, id) {
      CurrentText(states, events, n, m, id, reply, product);
    }
  }

  /** A text of the version that is current at m decodes to the record held at m. */
  lemma CurrentText(
    states: seq<State>, events: seq<Event>, n: nat, m: nat, id: nat, reply: Reply, product: Product)
    requires IsRun(states, events) && n <= m < |states|
    requires reply.Text? && reply.read == Version(states[m].writes, id)
    requires exists p :: 0 <= p < |states[n].processes| && states[n].processes[p] == Answered(id, reply)
    requires AnswerOfText(reply.text) == Found(product)
    ensures Lookup(states[m].table, id) == Some(product)
  {
    var p :| 0 <= p < |states[n].processes| && states[n].processes[p] == Answered(id, reply);
    RunInvariant(states, events, n);
    assert ProcessAuthentic(states[n].writes, states[n].processes[p]);
    RunInvariant(states, events, m);
    ValuesStay(states, events, n, m, id, reply.read);
    TextKeepsAnswer(Lookup(states[m].table, id));
  }

  lemma {:induction false} ValuesStay(states: seq<State>, events: seq<Event>, n: nat, m: nat, id: nat, v: nat)
    requires IsRun(states, events) && n <= m < |states| && v <= Version(states[n].writes, id)
    ensures v <= Version(states[m].writes, id)
    ensures ValueAt(states[m].writes, id, v) == ValueAt(states[n].writes, id, v)
    decreases m
  {
    if n == m {
    } else {
      ValuesStay(states, events, n, m - 1, id, v);
      assert StepAt(states, events, m - 1);
      WritesGrow(states[m - 1], events[m - 1], id);
    }
  }

  // ----- Two patches, one of them lost -----

  function Create(p: Product): seq<Event> {
    [StartWrite(p.id, Some(p)), Commit(0, Works), DropEntry(0, false)]
  }

  function Created(ttl: int, p: Product): State {
    State(0, ttl, map[p.id := Live(p)], map[], map[], [], [Finished], map[p.id := [Some(p)]], {})
  }

  lemma CreateLeads(ttl: int, p: Product)
    ensures Leads(Start(ttl), Create(p), Created(ttl, p))
  {
    var s1 := Apply(Start(ttl), StartWrite(p.id, Some(p)));
    var s2 := Apply(s1, Commit(0, Works));
    assert Apply(s2, DropEntry(0, false)) == Created(ttl, p);
    ThreeSteps(Start(ttl), StartWrite(p.id, Some(p)), s1, Commit(0, Works), s2, DropEntry(0, false), Created(ttl, p));
  }

  /** The first reader misses, opens a flight, ... */
  function FirstMisses(p: Product): seq<Event> {
    [StartRead(p.id), FirstGet(1, false), EnterFlight(1)]
  }

  function Missing(ttl: int, p: Product): State {
    Created(ttl, p).(flights := map[p.id := 0], calls := [Call(p.id, Rechecking)],
                     processes := [Finished, Waiting(p.id, 0)])
  }

  lemma FirstMissesLeads(ttl: int, p: Product)
    ensures Leads(Created(ttl, p), FirstMisses(p), Missing(ttl, p))
  {
    var s0 := Created(ttl, p);
    var s1 := Apply(s0, StartRead(p.id));
    var s2 := Apply(s1, FirstGet(1, false));
    assert Apply(s2, EnterFlight(1)) == Missing(ttl, p);
    ThreeSteps(s0, StartRead(p.id), s1, FirstGet(1, false), s2, EnterFlight(1), Missing(ttl, p));
  }

  /** ... loads and stores the product, ... */
  const FIRST_LOADS := [Recheck(0, false), Load(0, false), Store(0, false, 0)]

  function Stored(ttl: int, p: Product): State {
    Missing(ttl, p).(cache := map[p.id := Entry(Encode(p), AddJitter(ttl, 0), 1, 1)],
                     calls := [Call(p.id, Returning(Text(Encode(p), 1)))])
  }

  lemma FirstLoadsLeads(ttl: int, p: Product)
    ensures Leads(Missing(ttl, p), FIRST_LOADS, Stored(ttl, p))
  {
    var s0 := Missing(ttl, p);
    var s1 := Apply(s0, Recheck(0, false));
    var s2 := Apply(s1, Load(0, false));
    assert Apply(s2, Store(0, false, 0)) == Stored(ttl, p);
    ThreeSteps(s0, Recheck(0, false), s1, Load(0, false), s2, Store(0, false, 0), Stored(ttl, p));
  }

  /** ... and is answered; the second reader hits. */
  function BothAnswered(p: Product): seq<Event> {
    [EndFlight(0), Collect(1)] + [StartRead(p.id), FirstGet(2, false)]
  }

  function Answering(ttl: int, p: Product): State {
    var answer := Answered(p.id, Text(Encode(p), 1));
    Stored(ttl, p).(flights := map[], calls := [Call(p.id, Landed(Text(Encode(p), 1)))],
                    processes := [Finished, answer, answer])
  }

  lemma BothAnsweredLeads(ttl: int, p: Product)
    requires ttl > 0
    ensures Leads(Stored(ttl, p), BothAnswered(p), Answering(ttl, p))
  {
    var s0 := Stored(ttl, p);
    var s1 := Apply(s0, EndFlight(0));
    var s2 := Apply(s1, Collect(1));
    var s3 := Apply(s2, StartRead(p.id));
    assert Apply(s3, FirstGet(2, false)) == Answering(ttl, p);
    TwoSteps(s0, EndFlight(0), s1, Collect(1), s2);
    TwoSteps(s2, StartRead(p.id), s3, FirstGet(2, false), Answering(ttl, p));
    LeadsOn(s0, [EndFlight(0), Collect(1)], s2, [StartRead(p.id), FirstGet(2, false)], Answering(ttl, p));
  }

  /** A whole save by the next process to start. */
  function Save(w: nat, q: Product): seq<Event> {
    [StartWrite(q.id, Some(q)), Commit(w, Works), DropEntry(w, false)]
  }

  lemma SaveLeads(s: State, q: Product) returns (t: State)
    ensures Leads(s, Save(|s.processes|, q), t)
    ensures t == s.(table := Write(s.table, q.id, Some(q)), writes := Record(s.writes, q.id, Some(q)),
                    cache := s.cache - {q.id}, processes := s.processes + [Finished])
  {
    var w := |s.processes|;
    var s1 := Apply(s, StartWrite(q.id, Some(q)));
    var s2 := Apply(s1, Commit(w, Works));
    t := Apply(s2, DropEntry(w, false));
    ThreeSteps(s, StartWrite(q.id, Some(q)), s1, Commit(w, Works), s2, DropEntry(w, false), t);
  }

  /** Both save what they read, each with its own field patched. */
  function BothSave(a: Product, b: Product): seq<Event> {
    Save(3, a) + Save(4, b)
  }

  lemma BothSaveLeads(ttl: int, p: Product, a: Product, b: Product) returns (t: State)
    requires a.id == p.id && b.id == p.id
    ensures Leads(Answering(ttl, p), BothSave(a, b), t)
    ensures t.table == map[p.id := Live(b)] && t.writes == map[p.id := [Some(p), Some(a), Some(b)]]
  {
    var s := SaveLeads(Answering(ttl, p), a);
    t := SaveLeads(s, b);
    LeadsOn(Answering(ttl, p), Save(3, a), s, Save(4, b), t);
    assert t.writes[p.id] == [Some(p)] + [Some(a)] + [Some(b)] == [Some(p), Some(a), Some(b)];
    assert t.writes == map[p.id := [Some(p), Some(a), Some(b)]];
  }

  /** From the start to both answers. */
  lemma BothRead(ttl: int, p: Product) returns (states: seq<State>, events: seq<Event>)
    requires ttl > 0
    ensures IsRun(states, events) && states[|events|] == Answering(ttl, p)
    ensures forall e :: e in events ==> !Fails(e)
  {
    CreateLeads(ttl, p);
    FirstMissesLeads(ttl, p);
    FirstLoadsLeads(ttl, p);
    BothAnsweredLeads(ttl, p);
    var created := LeadsIsRun(Start(ttl), Create(p), Created(ttl, p));
    var missing := RunOn(created, Create(p), FirstMisses(p), Missing(ttl, p));
    var stored := RunOn(missing, Create(p) + FirstMisses(p), FIRST_LOADS, Stored(ttl, p));
    events := Create(p) + FirstMisses(p) + FIRST_LOADS + BothAnswered(p);
    states := RunOn(stored, Create(p) + FirstMisses(p) + FIRST_LOADS, BothAnswered(p), Answering(ttl, p));
  }

  /** A lost update: two patches read the same product through a coherent cache, one patches the name and the other the
      description, and each saves. Nothing fails, and in the end the name is the old one. */
  lemma TwoPatchesLoseOne(ttl: int, p: Product, name: string, description: string, stamp: string)
    returns (states: seq<State>, events: seq<Event>, n: nat)
    requires ttl > 0
    ensures IsRun(states, events) && n < |events| && forall e :: e in events ==> !Fails(e)
    ensures Lookup(states[n].table, p.id) == Some(p) && |states[n].processes| == 3
    ensures states[n].processes[1] == states[n].processes[2] == Answered(p.id, Text(Encode(p), 1))
    ensures
      var a, b := p.(name := name, updatedAt := stamp), p.(description := description, updatedAt := stamp);
      states[|events|].writes == map[p.id := [Some(p), Some(a), Some(b)]]
      && Lookup(states[|events|].table, p.id) == Some(b) && b.name == p.name
  {
    var a, b := p.(name := name, updatedAt := stamp), p.(description := description, updatedAt := stamp);
    var before, first := BothRead(ttl, p);
    n := |first|;
    var last := BothSaveLeads(ttl, p, a, b);
    states := RunOn(before, first, BothSave(a, b), last);
    events := first + BothSave(a, b);
    assert states[n] == before[n];
  }
}
