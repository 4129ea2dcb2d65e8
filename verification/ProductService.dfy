/** The product service, with and without a cache, for one caller at a time; and the proof that the two agree. */
module ProductService {
  import opened CacheExpiry
  import opened CacheObjects
  import opened Options
  import opened ProductCodec
  import opened ProductRepository
  import opened Products

  /** Everything the service reads and writes. */
  datatype World = World(db: Database, now: int, entries: Entries)

  datatype Op =
    | Get(id: nat, faults: Faults, draw: int)
    | Create(product: Product, stamp: string, fault: WriteFault, delFails: bool)
    | Update(product: Product, stamp: string, fault: WriteFault, delFails: bool)
    | Delete(id: nat, fault: WriteFault, delFails: bool)
    | Wait(d: nat)

  datatype Reply = Answered(answer: Answer) | Saved(product: Product) | Removed | NoSuchProduct | InternalError | Waited

  // ----- What the operations do -----

  /** The loader: the record's text, or the null marker; only a repository failure is an error. */
  function LoadText(db: Database, id: nat, fails: bool): Loading {
    if fails then Err(LoadError) else Ok(TextOf(Lookup(db.table, id)))
  }

  function AnswerOf(loading: Loading): Answer {
    match loading
    case Ok(text) => AnswerOfText(text)
    case Err(_) => Internal
  }

  /** Deletion after a write: a failure is only logged, and without a cache there is nothing to delete. */
  function Forget(cached: bool, entries: Entries, id: nat, fails: bool): Entries {
    if cached && !fails then entries - {CacheKey(id)} else entries
  }

  function GetStep(cached: bool, ttl: int, w: World, id: nat, faults: Faults, draw: int): (World, Answer)
    requires ValidDraw(ttl, draw)
  {
    if cached then
      var (entries, r) := GetOrLoadStep(
                            w.entries, w.now, CacheKey(id), LoadText(w.db, id, faults.load), ttl, faults, draw);
      (w.(entries := entries), AnswerOf(r))
    else (w, if faults.load then Internal else PlainAnswer(Lookup(w.db.table, id)))
  }

  function SaveReply(r: Result<Product, RepoError>): Reply {
    match r
    case Ok(p) => Saved(p)
    case Err(e) => if e.RecordNotFound? then NoSuchProduct else InternalError
  }

  function DeleteReply(r: Result<(), RepoError>): Reply {
    match r
    case Ok(_) => Removed
    case Err(e) => if e.RecordNotFound? then NoSuchProduct else InternalError
  }

  function SaveStep(
    cached: bool, w: World, saved: (Database, Result<Product, RepoError>), delFails: bool): (World, Reply)
  {
    (World(saved.0, w.now, if saved.1.Ok? then Forget(cached, w.entries, saved.1.value.id, delFails) else w.entries),
     SaveReply(saved.1))
  }

  function DropStep(cached: bool, w: World, id: nat, dropped: (Database, Result<(), RepoError>), delFails: bool)
    : (World, Reply)
  {
    (World(dropped.0, w.now, if dropped.1.Ok? then Forget(cached, w.entries, id, delFails) else w.entries),
     DeleteReply(dropped.1))
  }

  predicate ValidOp(ttl: int, op: Op) {
    op.Get? ==> ValidDraw(ttl, op.draw)
  }

  /** One operation of the service; Wait lets time pass. */
  function Step(cached: bool, ttl: int, w: World, op: Op): (World, Reply)
    requires ValidOp(ttl, op)
  {
    match op
    case Get(id, faults, draw) =>
      var (w', answer) := GetStep(cached, ttl, w, id, faults, draw);
      (w', Answered(answer))
    case Create(p, stamp, fault, delFails) => SaveStep(cached, w, CreateStep(w.db, p, stamp, fault), delFails)
    case Update(p, stamp, fault, delFails) => SaveStep(cached, w, UpdateStep(w.db, p, stamp, fault), delFails)
    case Delete(id, fault, delFails) => DropStep(cached, w, id, DeleteStep(w.db, id, fault), delFails)
    case Wait(d) => (w.(now := w.now + d), Waited)
  }

  // ----- The service object -----

  class ProductService {
    const repo: ProductRepo
    const cache: CacheWithSingleflight?
    const ttl: int

    /** A service over a cache store, or over none. */
    constructor (repo: ProductRepo, store: ExpiringCache?, expireSeconds: int)
      ensures Valid() && this.repo == repo
      ensures ttl == if expireSeconds > 0 then expireSeconds * 1_000_000_000 else 600_000_000_000
      ensures (cache == null) == (store == null)
      ensures store != null ==> cache != null && cache.cache == store
    {
      this.repo := repo;
      ttl := CacheTtl(expireSeconds);
      if store == null {
        cache := null;
      } else {
        var wrapper := new CacheWithSingleflight(store);
        cache := wrapper;
      }
    }

    predicate Valid() {
      ttl > 0
    }

    ghost function Footprint(): set<object> {
      if cache == null then {repo} else {repo, cache.cache}
    }

    /** The world the service sees; without a cache there is no clock and no entry. */
    ghost function State(): World
      reads repo, if cache == null then {} else {cache.cache}
    {
      if cache == null then World(repo.db, 0, map[]) else World(repo.db, cache.cache.now, cache.cache.entries)
    }

    /** The loader GetByID hands to GetOrLoad; as a query it changes nothing, so it may as well run beforehand. */
    method Load(id: nat, fails: bool) returns (loaded: Loading)
      ensures loaded == LoadText(repo.db, id, fails)
    {
      var found := repo.GetByID(id, fails);
      match found
      case Ok(p) => loaded := Ok(Encode(p));
      case Err(e) =>
        if e.RecordNotFound? {
          return Ok(NULL_MARKER);
        }
        loaded := Err(LoadError);
    }

    method GetByID(id: nat, faults: Faults, draw: int) returns (answer: Answer)
      requires Valid() && ValidDraw(ttl, draw)
      modifies Footprint() - {repo}
      ensures (State(), answer) == GetStep(cache != null, ttl, old(State()), id, faults, draw)
    {
      var key := CacheKey(id);
      if cache == null {
        var found := repo.GetByID(id, faults.load);
        match found
        case Ok(p) => return Found(p);
        case Err(e) => return if e.RecordNotFound? then NotFound else Internal;
      }
      var loaded := Load(id, faults.load);
      var cached := cache.GetOrLoad(key, () => loaded, ttl, faults, draw);
      match cached {
        case Err(_) => answer := Internal;
        case Ok(text) =>
          if text == NULL_MARKER {
            return NotFound;
          }
          match Decode(text)
          case Some(p) => answer := Found(p);
          case None => answer := Internal;
      }
    }

    method DelCache(key: string, fails: bool)
      modifies Footprint() - {repo}
      ensures State() == old(State()).(entries :=
                if cache != null && !fails then old(State()).entries - {key} else old(State()).entries)
    {
      if cache == null {
        return;
      }
      var _ := cache.Del(key, fails);
    }

    method Create(p: Product, stamp: string, fault: WriteFault, delFails: bool) returns (reply: Reply)
      requires Valid()
      modifies Footprint()
      ensures (State(), reply) == Step(cache != null, ttl, old(State()), Op.Create(p, stamp, fault, delFails))
    {
      var r := repo.Create(p, stamp, fault);
      if r.Err? {
        return InternalError;
      }
      DelCache(CacheKey(r.value.id), delFails);
      reply := Saved(r.value);
    }

    method Update(p: Product, stamp: string, fault: WriteFault, delFails: bool) returns (reply: Reply)
      requires Valid()
      modifies Footprint()
      ensures (State(), reply) == Step(cache != null, ttl, old(State()), Op.Update(p, stamp, fault, delFails))
    {
      var r := repo.Update(p, stamp, fault);
      if r.Err? {
        return if r.error.RecordNotFound? then NoSuchProduct else InternalError;
      }
      DelCache(CacheKey(r.value.id), delFails);
      reply := Saved(r.value);
    }

    method Delete(id: nat, fault: WriteFault, delFails: bool) returns (reply: Reply)
      requires Valid()
      modifies Footprint()
      ensures (State(), reply) == Step(cache != null, ttl, old(State()), Op.Delete(id, fault, delFails))
    {
      var r := repo.Delete(id, fault);
      if r.Err? {
        return if r.error.RecordNotFound? then NoSuchProduct else InternalError;
      }
      DelCache(CacheKey(id), delFails);
      reply := Removed;
    }
  }

  // ----- The cached service refines the uncached one -----

  /** Every live entry of a product key is the text of what the database holds under the id. */
  ghost predicate Coherent(w: World) {
    forall id: nat {:trigger CacheKey(id)} :: Peek(w.entries, w.now, CacheKey(id)).Some? ==>
      Peek(w.entries, w.now, CacheKey(id)).value == TextOf(Lookup(w.db.table, id))
  }

  /** The operation's write, if it has an effect, is followed by a deletion that works. */
  predicate Deletes(op: Op) {
    op.Get? || op.Wait? || (!op.fault.Unconfirmed? && !op.delFails)
  }

  /** And a lookup's repository query would work. */
  predicate Unbroken(op: Op) {
    Deletes(op) && (op.Get? ==> !op.faults.load)
  }

  /** A Get that works finds a live entry. */
  predicate Served(w: World, id: nat, faults: Faults) {
    !(faults.firstGet && faults.secondGet) && Peek(w.entries, w.now, CacheKey(id)).Some?
  }

  /** The answer to a lookup, whichever of its four operations fail. From a coherent cache it is a product exactly if
      the database holds it, and not found exactly if it holds none, unless the load fails and no working Get finds a
      live entry; then, and only then, it is an internal error. */
  lemma CachedLookup(ttl: int, w: World, id: nat, faults: Faults, draw: int)
    requires Coherent(w) && ValidDraw(ttl, draw)
    ensures
      var (w', answer) := GetStep(true, ttl, w, id, faults, draw);
      var known := Served(w, id, faults) || !faults.load;
      && (answer.Internal? <==> !known)
      && (answer.NotFound? <==> known && Lookup(w.db.table, id).None?)
      && (answer.Found? <==> known && Lookup(w.db.table, id).Some?)
      && (answer.Found? ==> answer.product == Lookup(w.db.table, id).value)
      && w'.db == w.db && w'.now == w.now && Coherent(w')
  {
    var (w', answer) := GetStep(true, ttl, w, id, faults, draw);
    TextKeepsAnswer(Lookup(w.db.table, id));
    assert Peek(w.entries, w.now, CacheKey(id)).Some? ==>
      Peek(w.entries, w.now, CacheKey(id)).value == TextOf(Lookup(w.db.table, id));
    forall i: nat | Peek(w'.entries, w'.now, CacheKey(i)).Some?
      ensures Peek(w'.entries, w'.now, CacheKey(i)).value == TextOf(Lookup(w'.db.table, i))
    {
      if i != id {
        if CacheKey(i) == CacheKey(id) {
          CacheKeyInjective(i, id);
        }
        assert Peek(w.entries, w.now, CacheKey(i)) == Peek(w'.entries, w'.now, CacheKey(i));
      }
    }
  }

  /** The same without a cache: only the query counts. */
  lemma PlainLookup(ttl: int, w: World, id: nat, faults: Faults, draw: int)
    requires ValidDraw(ttl, draw)
    ensures
      var (w', answer) := GetStep(false, ttl, w, id, faults, draw);
      && (answer.Internal? <==> faults.load)
      && (answer.NotFound? <==> !faults.load && Lookup(w.db.table, id).None?)
      && (answer.Found? <==> !faults.load && Lookup(w.db.table, id).Some?)
      && (answer.Found? ==> answer.product == Lookup(w.db.table, id).value)
      && w' == w
  {
  }

  /** A live entry that is neither null nor a record's text, as only another writer to the store could leave, is an
      internal error, and stays in place. */
  lemma GarbledEntry(ttl: int, w: World, id: nat, faults: Faults, draw: int)
    requires ValidDraw(ttl, draw) && Served(w, id, faults)
    requires var text := Peek(w.entries, w.now, CacheKey(id)).value; text != "null" && Decode(text).None?
    ensures GetStep(true, ttl, w, id, faults, draw) == (w, Internal)
  {
  }

  /** How long what a lookup loads can answer for: a cold lookup that stores its text with this draw lets later ones
      answer although the database is out of reach, for the TTL and the draw, and not from then on. */
  lemma LoadedTextLives(ttl: int, w: World, id: nat, draw: int, later: nat, draw': int)
    requires ttl >= 10 && Coherent(w) && ValidDraw(ttl, draw) && ValidDraw(ttl, draw')
    requires Peek(w.entries, w.now, CacheKey(id)).None?
    ensures
      var w1 := GetStep(true, ttl, w, id, Faults(false, false, false, false), draw).0;
      var answer := GetStep(true, ttl, w1.(now := w1.now + later), id, Faults(false, false, true, false), draw').1;
      answer.Internal? <==> later >= ttl + draw
  {
    TextKeepsAnswer(Lookup(w.db.table, id));
  }

  lemma GetRefines(ttl: int, w: World, id: nat, faults: Faults, draw: int)
    requires Coherent(w) && !faults.load && ValidDraw(ttl, draw)
    ensures
      var (w', answer) := GetStep(true, ttl, w, id, faults, draw);
      w'.db == w.db && w'.now == w.now && Coherent(w') && answer == PlainAnswer(Lookup(w.db.table, id))
  {
    CachedLookup(ttl, w, id, faults, draw);
  }

  /** Deleting the entry of the one id whose row changes keeps coherence. */
  lemma ForgetKeepsCoherence(w: World, w': World, id: nat)
    requires Coherent(w) && w'.now >= w.now && w'.entries == w.entries - {CacheKey(id)}
    requires forall i :: i != id ==> Lookup(w'.db.table, i) == Lookup(w.db.table, i)
    ensures Coherent(w')
  {
    forall i: nat | Peek(w'.entries, w'.now, CacheKey(i)).Some?
      ensures Peek(w'.entries, w'.now, CacheKey(i)).value == TextOf(Lookup(w'.db.table, i))
    {
      assert i != id;
      assert Peek(w.entries, w.now, CacheKey(i)) == Peek(w'.entries, w'.now, CacheKey(i));
    }
  }

  /** One operation: same reply as without a cache, same database, coherent again. Gets and Sets may fail, and the
      repository may refuse writes. */
  lemma StepRefines(ttl: int, w: World, op: Op)
    requires Coherent(w) && ValidOp(ttl, op) && Unbroken(op)
    ensures
      var ((w', reply), (v', reply')) := (Step(true, ttl, w, op), Step(false, ttl, w, op));
      reply == reply' && w'.db == v'.db && w'.now == v'.now && Coherent(w')
  {
    var w' := Step(true, ttl, w, op).0;
    match op
    case Get(id, faults, draw) => GetRefines(ttl, w, id, faults, draw);
    case Create(p, stamp, fault, _) =>
      var (_, r) := CreateStep(w.db, p, stamp, fault);
      if r.Ok? { ForgetKeepsCoherence(w, w', r.value.id); }
    case Update(p, stamp, fault, _) =>
      var (_, r) := UpdateStep(w.db, p, stamp, fault);
      if r.Ok? { ForgetKeepsCoherence(w, w', r.value.id); }
    case Delete(id, fault, _) =>
      var (_, r) := DeleteStep(w.db, id, fault);
      if r.Ok? { ForgetKeepsCoherence(w, w', id); }
    case Wait(d) =>
      forall i: nat | Peek(w'.entries, w'.now, CacheKey(i)).Some?
        ensures Peek(w'.entries, w'.now, CacheKey(i)).value == TextOf(Lookup(w'.db.table, i))
      {
        assert Peek(w.entries, w.now, CacheKey(i)) == Peek(w'.entries, w'.now, CacheKey(i));
      }
  }

  /** One operation, whatever fails but the deletion: the database and the clock as without a cache, coherent again, and
      the same reply but for a lookup whose load fails. That is an internal error without a cache; with one it still
      gives the right answer if a working Get finds a live entry. */
  lemma StepRefinesWithFaults(ttl: int, w: World, op: Op)
    requires Coherent(w) && ValidOp(ttl, op) && Deletes(op)
    ensures
      var ((w', reply), (v', reply')) := (Step(true, ttl, w, op), Step(false, ttl, w, op));
      w'.db == v'.db && w'.now == v'.now && Coherent(w') && RepliesMatch(w, op, reply, reply')
  {
    if Unbroken(op) {
      StepRefines(ttl, w, op);
    } else {
      CachedLookup(ttl, w, op.id, op.faults, op.draw);
    }
  }

  /** How the replies with and without a cache compare, for an operation on this world. */
  predicate RepliesMatch(w: World, op: Op, cached: Reply, plain: Reply) {
    if op.Get? && op.faults.load then
      && plain == Answered(Internal)
      && cached == Answered(if !Served(w, op.id, op.faults) then Internal
                            else if Lookup(w.db.table, op.id).Some? then Found(Lookup(w.db.table, op.id).value)
                            else NotFound)
    else cached == plain
  }

  /** The world the k-th operation meets. */
  function WorldAt(cached: bool, ttl: int, w: World, ops: seq<Op>, k: nat): World
    requires k <= |ops| && forall op :: op in ops ==> ValidOp(ttl, op)
    decreases k
  {
    if k == 0 then w else WorldAt(cached, ttl, Step(cached, ttl, w, ops[0]).0, ops[1..], k - 1)
  }

  /** The replies to a sequence of operations. */
  function Replies(cached: bool, ttl: int, w: World, ops: seq<Op>): seq<Reply>
    requires forall op :: op in ops ==> ValidOp(ttl, op)
    ensures |Replies(cached, ttl, w, ops)| == |ops|
    decreases |ops|
  {
    if ops == [] then [] else
      var (w', reply) := Step(cached, ttl, w, ops[0]);
      [reply] + Replies(cached, ttl, w', ops[1..])
  }

  /** Without a cache the entries play no part. */
  lemma {:induction false} PlainIgnoresEntries(ttl: int, v: World, w: World, ops: seq<Op>)
    requires v.db == w.db && v.now == w.now && forall op :: op in ops ==> ValidOp(ttl, op)
    ensures Replies(false, ttl, v, ops) == Replies(false, ttl, w, ops)
    decreases |ops|
  {
    if ops == [] {
    } else {
      PlainIgnoresEntries(ttl, Step(false, ttl, v, ops[0]).0, Step(false, ttl, w, ops[0]).0, ops[1..]);
    }
  }

  lemma RepliesRest(cached: bool, ttl: int, w: World, ops: seq<Op>, k: nat)
    requires 0 < k < |ops| && forall op :: op in ops ==> ValidOp(ttl, op)
    ensures Replies(cached, ttl, w, ops)[k] == Replies(cached, ttl, Step(cached, ttl, w, ops[0]).0, ops[1..])[k - 1]
  {
  }

  /** Sequential refinement, when loads may fail as well: at every operation of every sequence the two services hold the
      same database, and their replies are the same but for lookups whose load fails. */
  lemma {:induction false} SequentialRefinementWithFaults(ttl: int, w: World, ops: seq<Op>, k: nat)
    requires Coherent(w) && k < |ops| && forall op :: op in ops ==> ValidOp(ttl, op) && Deletes(op)
    ensures
      var v := WorldAt(true, ttl, w, ops, k);
      && Coherent(v)
      && RepliesMatch(v, ops[k], Replies(true, ttl, w, ops)[k], Replies(false, ttl, w, ops)[k])
    decreases k
  {
    StepRefinesWithFaults(ttl, w, ops[0]);
    if k == 0 {
    } else {
      var w', v' := Step(true, ttl, w, ops[0]).0, Step(false, ttl, w, ops[0]).0;
      SequentialRefinementWithFaults(ttl, w', ops[1..], k - 1);
      PlainIgnoresEntries(ttl, v', w', ops[1..]);
      RepliesRest(true, ttl, w, ops, k);
      RepliesRest(false, ttl, w, ops, k);
    }
  }

  /** Sequential refinement: for every sequence of operations and every lapse of time between them, whichever Gets and
      Sets fail, the service with a cache gives the replies of the service without one. */
  lemma {:induction false} SequentialRefinement(ttl: int, w: World, ops: seq<Op>)
    requires Coherent(w) && forall op :: op in ops ==> ValidOp(ttl, op) && Unbroken(op)
    ensures Replies(true, ttl, w, ops) == Replies(false, ttl, w, ops)
    decreases |ops|
  {
    if ops == [] {
    } else {
      StepRefines(ttl, w, ops[0]);
      var w', v' := Step(true, ttl, w, ops[0]).0, Step(false, ttl, w, ops[0]).0;
      SequentialRefinement(ttl, w', ops[1..]);
      PlainIgnoresEntries(ttl, v', w', ops[1..]);
    }
  }

  /** The id under which an insert leaves a row, whatever it reports. */
  function InsertedId(db: Database, p: Product, stamp: string, fault: WriteFault): Option<nat> {
    var id := Inserted(db, p, stamp).id;
    if fault.Refused? || id in db.table then None else Some(id)
  }

  /** The id whose row the operation changes, whatever it reports. */
  function Written(w: World, op: Op): Option<nat> {
    match op
    case Create(p, stamp, fault, _) => InsertedId(w.db, p, stamp, fault)
    case Update(p, stamp, fault, _) =>
      if p.id == 0 then InsertedId(w.db, p, stamp, fault)
      else if fault.Refused? then None
      else Some(p.id)
    case Delete(id, fault, _) => if fault.Refused? || Lookup(w.db.table, id).None? then None else Some(id)
    case _ => None
  }

  /** The row is all an operation changes in the database, and without a deletion no entry changes. */
  lemma MissedStep(ttl: int, w: World, op: Op)
    requires Written(w, op).Some? && (op.fault.Unconfirmed? || op.delFails)
    ensures
      var w' := Step(true, ttl, w, op).0;
      w'.entries == w.entries && w'.now == w.now
      && forall i :: i != Written(w, op).value ==> Lookup(w'.db.table, i) == Lookup(w.db.table, i)
  {
  }

  /** What a missed deletion costs, exactly. After a write whose deletion failed, or was never tried because the commit
      was reported as an error, a working lookup of the id agrees with the service without a cache if and only if the
      id had no live entry, or the write left its record as it was; lookups of other ids are not concerned. */
  lemma MissedDeletionExactly(ttl: int, w: World, op: Op, draw: int, other: nat)
    requires Coherent(w) && ValidDraw(ttl, draw)
    requires Written(w, op).Some? && (op.fault.Unconfirmed? || op.delFails)
    ensures
      var id, w' := Written(w, op).value, Step(true, ttl, w, op).0;
      GetStep(true, ttl, w', id, Faults(false, false, false, false), draw).1
        == PlainAnswer(Lookup(w'.db.table, id)) <==>
        || Peek(w.entries, w.now, CacheKey(id)).None?
        || Lookup(w'.db.table, id) == Lookup(w.db.table, id)
    ensures
      var w' := Step(true, ttl, w, op).0;
      other != Written(w, op).value ==>
        GetStep(true, ttl, w', other, Faults(false, false, false, false), draw).1
          == PlainAnswer(Lookup(w'.db.table, other))
  {
    var id, w' := Written(w, op).value, Step(true, ttl, w, op).0;
    MissedStep(ttl, w, op);
    TextKeepsAnswer(Lookup(w.db.table, id));
    TextKeepsAnswer(Lookup(w'.db.table, id));
    TextKeepsAnswer(Lookup(w.db.table, other));
    assert Peek(w.entries, w.now, CacheKey(id)).Some? ==>
      Peek(w.entries, w.now, CacheKey(id)).value == TextOf(Lookup(w.db.table, id));
    assert Peek(w.entries, w.now, CacheKey(other)).Some? ==>
      Peek(w.entries, w.now, CacheKey(other)).value == TextOf(Lookup(w.db.table, other));
  }

  // ----- Writes: their replies, and what they leave -----

  /** What a write replies, exactly, with and without a cache; and what it does to the store. */
  lemma WriteReplies(cached: bool, ttl: int, w: World, op: Op)
    requires w.db.Valid() && (op.Create? || op.Update? || op.Delete?)
    ensures
      var (w', reply) := Step(cached, ttl, w, op);
      && (op.Create? ==> (reply.Saved? <==> op.fault.Works? && op.product.id !in w.db.table))
      && (op.Update? ==> (reply.Saved? <==> op.fault.Works?))
      && (op.Create? || op.Update? ==> reply.Saved? || reply.InternalError?)
      && (op.Delete? ==> (reply.Removed? <==> op.fault.Works? && Lookup(w.db.table, op.id).Some?))
      && (op.Delete? ==> (reply.NoSuchProduct? <==> op.fault.Works? && Lookup(w.db.table, op.id).None?))
      && (op.Delete? ==> (reply.InternalError? <==> !op.fault.Works?))
  {
  }

  /** A write deletes the entry of its own id, and only if it succeeds, its deletion works, and there is a cache. */
  lemma WritesForgetOnlyTheirOwn(cached: bool, ttl: int, w: World, op: Op, key: string)
    requires op.Create? || op.Update? || op.Delete?
    ensures
      var (w', reply) := Step(cached, ttl, w, op);
      var own := if reply.Saved? then Some(CacheKey(reply.product.id))
                 else if reply.Removed? then Some(CacheKey(op.id)) else None;
      && (key in w'.entries <==> key in w.entries && !(cached && !op.delFails && own == Some(key)))
      && (key in w'.entries ==> w'.entries[key] == w.entries[key])
      && w'.now == w.now
  {
  }

  /** After any lapse of time, a lookup whose load would work answers with the record, or that there is none. */
  lemma LaterLookup(cached: bool, ttl: int, w: World, id: nat, later: nat, faults: Faults, draw: int)
    requires (cached ==> Coherent(w)) && ValidDraw(ttl, draw) && !faults.load
    ensures
      var answer := GetStep(cached, ttl, w.(now := w.now + later), id, faults, draw).1;
      answer == if Lookup(w.db.table, id).Some? then Found(Lookup(w.db.table, id).value) else NotFound
  {
    var w' := w.(now := w.now + later);
    if cached {
      StepRefines(ttl, w, Op.Wait(later));
      CachedLookup(ttl, w', id, faults, draw);
    } else {
      PlainLookup(ttl, w', id, faults, draw);
    }
  }

  /** What a Create replies with is what it has stored, and what later lookups find: the product given, under its own
      id or else one that no row has had, with its own timestamps or else the current one. */
  lemma CreateThenRead(cached: bool, ttl: int, w: World, p: Product, stamp: string, fault: WriteFault,
                       later: nat, faults: Faults, draw: int)
    requires w.db.Valid() && Coherent(w) && ValidDraw(ttl, draw) && !faults.load
    ensures
      var (w', reply) := Step(cached, ttl, w, Op.Create(p, stamp, fault, false));
      reply.Saved? ==>
        var q := reply.product;
        && InsertedAs(p, q, stamp) && q.id != 0 && q.id !in w.db.table
        && Lookup(w'.db.table, q.id) == Some(q)
        && GetStep(cached, ttl, w'.(now := w'.now + later), q.id, faults, draw).1 == Found(q)
  {
    var op := Op.Create(p, stamp, fault, false);
    var (w', reply) := Step(cached, ttl, w, op);
    if reply.Saved? {
      KeepsCoherence(cached, ttl, w, op);
      LaterLookup(cached, ttl, w', reply.product.id, later, faults, draw);
    }
  }

  /** The same of an Update of a product with an id: its record is the one given, with a fresh update time. */
  lemma UpdateThenRead(cached: bool, ttl: int, w: World, p: Product, stamp: string, fault: WriteFault,
                       later: nat, faults: Faults, draw: int)
    requires p.id != 0 && Coherent(w) && ValidDraw(ttl, draw) && !faults.load
    ensures
      var (w', reply) := Step(cached, ttl, w, Op.Update(p, stamp, fault, false));
      reply.Saved? ==>
        var q := p.(updatedAt := stamp);
        && reply.product == q && Lookup(w'.db.table, p.id) == Some(q)
        && GetStep(cached, ttl, w'.(now := w'.now + later), p.id, faults, draw).1 == Found(q)
  {
    var op := Op.Update(p, stamp, fault, false);
    if fault.Works? {
      KeepsCoherence(cached, ttl, w, op);
      LaterLookup(cached, ttl, Step(cached, ttl, w, op).0, p.id, later, faults, draw);
    }
  }

  /** After a Delete that succeeds, lookups find nothing, and the id is not free again. */
  lemma DeleteThenRead(cached: bool, ttl: int, w: World, id: nat, fault: WriteFault, later: nat, faults: Faults,
                       draw: int, p: Product, stamp: string, fault': WriteFault)
    requires w.db.Valid() && Coherent(w) && ValidDraw(ttl, draw) && !faults.load && p.id == id
    ensures
      var (w', reply) := Step(cached, ttl, w, Op.Delete(id, fault, false));
      reply.Removed? ==>
        && GetStep(cached, ttl, w'.(now := w'.now + later), id, faults, draw).1 == NotFound
        && Step(cached, ttl, w', Op.Create(p, stamp, fault', false)).1 == InternalError
  {
    var op := Op.Delete(id, fault, false);
    if fault.Works? {
      KeepsCoherence(cached, ttl, w, op);
      LaterLookup(cached, ttl, Step(cached, ttl, w, op).0, id, later, faults, draw);
    }
  }

  /** A write that works, with its deletion, leaves a coherent cache coherent. */
  lemma KeepsCoherence(cached: bool, ttl: int, w: World, op: Op)
    requires Coherent(w) && (op.Create? || op.Update? || op.Delete?) && op.fault.Works? && Deletes(op)
    ensures cached ==> Coherent(Step(cached, ttl, w, op).0)
  {
    StepRefines(ttl, w, op);
  }
}
