/** The update endpoint: read a product through the service, patch the supplied fields, save the full record. */
module ProductHandler {
  import opened CacheExpiry
  import opened CacheObjects
  import opened Options
  import opened ProductCodec
  import opened ProductService
  import opened Products

  /** The request body; absent fields are None. */
  datatype Patch = Patch(
    name: Option<string>, description: Option<string>, price: Option<int>, stock: Option<int>, status: Option<int>,
    categoryId: Option<nat>)

  datatype Response = Success(product: Product) | ServiceError(reply: Reply) | BadRequest

  function Or<T>(supplied: Option<T>, kept: T): T {
    if supplied.Some? then supplied.value else kept
  }

  /** The record q is p with exactly the supplied fields replaced. */
  predicate Patches(p: Product, patch: Patch, q: Product) {
    && q.id == p.id && q.createdAt == p.createdAt && q.updatedAt == p.updatedAt
    && q.name == Or(patch.name, p.name) && q.description == Or(patch.description, p.description)
    && q.price == Or(patch.price, p.price) && q.stock == Or(patch.stock, p.stock)
    && q.status == Or(patch.status, p.status) && q.categoryId == Or(patch.categoryId, p.categoryId)
  }

  class ProductHandler {
    const svc: ProductService

    constructor (svc: ProductService)
      ensures this.svc == svc
    {
      this.svc := svc;
    }

    /** Assigns the supplied fields, one after another. */
    method ApplyPatch(p: Product, patch: Patch) returns (product: Product)
      ensures Patches(p, patch, product)
    {
      product := p;
      if patch.name.Some? {
        product := product.(name := patch.name.value);
      }
      if patch.description.Some? {
        product := product.(description := patch.description.value);
      }
      if patch.price.Some? {
        product := product.(price := patch.price.value);
      }
      if patch.stock.Some? {
        product := product.(stock := patch.stock.value);
      }
      if patch.status.Some? {
        product := product.(status := patch.status.value);
      }
      if patch.categoryId.Some? {
        product := product.(categoryId := patch.categoryId.value);
      }
    }

    /** The id is None when the path parameter is not a number, the patch when the body does not bind; the body is only
        looked at once the product has been found. */
    method Update(
      id: Option<nat>, body: Option<Patch>, stamp: string, faults: Faults, draw: int, fault: WriteFault,
      delFails: bool)
      returns (response: Response)
      requires svc.Valid() && ValidDraw(svc.ttl, draw)
      modifies svc.Footprint()
      ensures id.None? ==> response == BadRequest && svc.State() == old(svc.State())
      ensures id.Some? ==>
        var (w, answer) := GetStep(svc.cache != null, svc.ttl, old(svc.State()), id.value, faults, draw);
        if !answer.Found? then response == ServiceError(Answered(answer)) && svc.State() == w
        else if body.None? then response == BadRequest && svc.State() == w
        else SavesPatched(svc.cache != null, svc.ttl, w, answer.product, body.value, stamp, fault, delFails,
                          svc.State(), response)
    {
      if id.None? {
        return BadRequest;
      }
      var answer := svc.GetByID(id.value, faults, draw);
      if !answer.Found? {
        return ServiceError(Answered(answer));
      }
      if body.None? {
        return BadRequest;
      }
      var product := ApplyPatch(answer.product, body.value);
      var reply := svc.Update(product, stamp, fault, delFails);
      response := if reply.Saved? then Success(reply.product) else ServiceError(reply);
    }
  }

  /** The patched record went to the service's Update, which led from w to w' and gave the response. */
  ghost predicate SavesPatched(
    cached: bool, ttl: int, w: World, p: Product, patch: Patch, stamp: string, fault: WriteFault, delFails: bool,
    w': World, response: Response)
  {
    exists q :: Patches(p, patch, q) && (
      var (v, reply) := Step(cached, ttl, w, Op.Update(q, stamp, fault, delFails));
      w' == v && response == if reply.Saved? then Success(reply.product) else ServiceError(reply))
  }

  /** A patch that goes through: read, patch and save, starting where the cache tells the truth. The stored record is
      the one the database held with only the supplied fields and the update time changed, no other row is touched, and
      the next lookup returns that very record, whichever Gets and Sets fail. */
  lemma PatchThenRead(ttl: int, w: World, id: nat, patch: Patch, q: Product, stamp: string, faults: Faults, draw: int,
                      later: nat, faults': Faults, draw': int)
    requires w.db.Valid() && Coherent(w) && ValidDraw(ttl, draw) && ValidDraw(ttl, draw')
    requires !faults.load && !faults'.load
    requires GetStep(true, ttl, w, id, faults, draw).1.Found?
    requires Patches(GetStep(true, ttl, w, id, faults, draw).1.product, patch, q)
    ensures
      var w1 := GetStep(true, ttl, w, id, faults, draw).0;
      var (w2, reply) := Step(true, ttl, w1, Op.Update(q, stamp, Works, false));
      var w3 := Step(true, ttl, w2, Op.Wait(later)).0;
      var saved := q.(updatedAt := stamp);
      && Lookup(w.db.table, id).Some? && Patches(Lookup(w.db.table, id).value, patch, q)
      && reply == Saved(saved)
      && w2.db.table == w.db.table[id := Live(saved)]
      && GetStep(true, ttl, w3, id, faults', draw').1 == Found(saved)
  {
    var w1 := GetStep(true, ttl, w, id, faults, draw).0;
    GetRefines(ttl, w, id, faults, draw);
    var update := Op.Update(q, stamp, Works, false);
    StepRefines(ttl, w1, update);
    var w2 := Step(true, ttl, w1, update).0;
    StepRefines(ttl, w2, Op.Wait(later));
    GetRefines(ttl, Step(true, ttl, w2, Op.Wait(later)).0, id, faults', draw');
  }

  // ----- Patches read through a stale entry -----

  /** The two records agree in every field a patch leaves alone and a save keeps. */
  predicate AgreeOutside(patch: Patch, p: Product, q: Product) {
    && p.id == q.id && p.createdAt == q.createdAt
    && (patch.name.None? ==> p.name == q.name) && (patch.description.None? ==> p.description == q.description)
    && (patch.price.None? ==> p.price == q.price) && (patch.stock.None? ==> p.stock == q.stock)
    && (patch.status.None? ==> p.status == q.status) && (patch.categoryId.None? ==> p.categoryId == q.categoryId)
  }

  /** The record that is there now is the one that was there with only the supplied fields and the update time changed;
      in particular there was one. */
  predicate OnlyPatched(before: Option<Product>, patch: Patch, stamp: string, after: Option<Product>) {
    before.Some? && after.Some? && Patches(before.value.(updatedAt := stamp), patch, after.value)
  }

  /** When a patch changes more than the supplied fields, exactly. Let it read p, in whatever state the cache is. What
      is stored is p patched; so the patch changed the supplied fields and no other if and only if the database still
      held a record, and p agreed with it in all the others. Otherwise it writes old fields back, or brings a deleted
      product back; and that takes a live entry which does not hold the database's record. */
  lemma PatchExactly(ttl: int, w: World, id: nat, patch: Patch, p: Product, q: Product, stamp: string, faults: Faults,
                     draw: int, fault: WriteFault, delFails: bool)
    requires id != 0 && ValidDraw(ttl, draw) && !fault.Refused?
    requires GetStep(true, ttl, w, id, faults, draw).1 == Found(p) && p.id == id && Patches(p, patch, q)
    ensures
      var w1 := GetStep(true, ttl, w, id, faults, draw).0;
      var w2 := Step(true, ttl, w1, Op.Update(q, stamp, fault, delFails)).0;
      var held := Lookup(w.db.table, id);
      && Lookup(w2.db.table, id) == Some(q.(updatedAt := stamp))
      && (OnlyPatched(held, patch, stamp, Lookup(w2.db.table, id)) <==>
            held.Some? && AgreeOutside(patch, p, held.value))
      && (held != Some(p) ==>
            var hit := Peek(w.entries, w.now, CacheKey(id));
            hit.Some? && AnswerOfText(hit.value) == Found(p) && hit.value != TextOf(held)
            && !(faults.firstGet && faults.secondGet))
  {
    TextKeepsAnswer(Lookup(w.db.table, id));
  }

  /** After a write whose deletion is missed, a live entry still serves the record from before it. */
  lemma MissedEntryServes(ttl: int, w: World, op: Op, p: Product, faults: Faults, draw: int)
    requires Coherent(w) && ValidDraw(ttl, draw)
    requires Written(w, op).Some? && (op.fault.Unconfirmed? || op.delFails)
    requires Lookup(w.db.table, p.id) == Some(p)
    requires Peek(w.entries, w.now, CacheKey(p.id)).Some? && !(faults.firstGet && faults.secondGet)
    ensures
      var w1 := Step(true, ttl, w, op).0;
      GetStep(true, ttl, w1, p.id, faults, draw) == (w1, Found(p))
  {
    MissedStep(ttl, w, op);
    assert Peek(w.entries, w.now, CacheKey(p.id)).value == TextOf(Some(p));
    TextKeepsAnswer(Some(p));
  }

  /** A save that deletes the one entry that is out of date leaves the cache coherent. */
  lemma SaveRestoresCoherence(ttl: int, w: World, w': World, q: Product, stamp: string)
    requires Coherent(w) && q.id != 0 && w'.entries == w.entries && w'.now == w.now
    requires forall i :: i != q.id ==> Lookup(w'.db.table, i) == Lookup(w.db.table, i)
    ensures Coherent(Step(true, ttl, w', Op.Update(q, stamp, Works, false)).0)
  {
    ForgetKeepsCoherence(w, Step(true, ttl, w', Op.Update(q, stamp, Works, false)).0, q.id);
  }

  /** A write whose deletion is missed is undone by the next patch, for good. Let an entry of the id still be live, and
      let op's write to it miss its deletion. A patch then reads the record as it was before op, and what it stores is
      that record patched: op's own changes survive if and only if op left a record, and touched supplied fields only.
      Afterwards the cache is coherent again: it is the database itself that has gone back. */
  lemma PatchUndoesMissedWrite(ttl: int, w: World, op: Op, patch: Patch, p: Product, q: Product, stamp: string,
                               faults: Faults, draw: int)
    requires w.db.Valid() && Coherent(w) && ValidDraw(ttl, draw)
    requires Written(w, op).Some? && (op.fault.Unconfirmed? || op.delFails)
    requires Lookup(w.db.table, Written(w, op).value) == Some(p) && Patches(p, patch, q)
    requires Peek(w.entries, w.now, CacheKey(p.id)).Some? && !(faults.firstGet && faults.secondGet)
    ensures
      var w1 := Step(true, ttl, w, op).0;
      var (w2, answer) := GetStep(true, ttl, w1, p.id, faults, draw);
      var w3 := Step(true, ttl, w2, Op.Update(q, stamp, Works, false)).0;
      var held := Lookup(w1.db.table, p.id);
      && answer == Found(p)
      && Lookup(w3.db.table, p.id) == Some(q.(updatedAt := stamp))
      && (OnlyPatched(held, patch, stamp, Lookup(w3.db.table, p.id)) <==>
            held.Some? && AgreeOutside(patch, p, held.value))
      && Coherent(w3)
  {
    var id := p.id;
    assert Written(w, op).value == id && id != 0;
    var w1 := Step(true, ttl, w, op).0;
    MissedStep(ttl, w, op);
    MissedEntryServes(ttl, w, op, p, faults, draw);
    PatchExactly(ttl, w1, id, patch, p, q, stamp, faults, draw, Works, false);
    SaveRestoresCoherence(ttl, w, w1, q, stamp);
  }
}
