/** The products repository: an auto-increment table with soft deletion. */
module ProductRepository {
  import opened Options
  import opened Products
  import Pagination

  datatype RepoError = RecordNotFound | RepoFailure

  /** The text of Go's zero time. */
  const ZERO_TIME := "0001-01-01T00:00:00Z"

  /** The table, and the next id the database would assign. */
  datatype Database = Database(table: Table, nextId: nat) {
    ghost predicate Valid() {
      WellKeyed(table) && nextId > 0 && forall id :: id in table ==> 0 < id < nextId
    }
  }

  function Max(a: nat, b: nat): nat {
    if a > b then a else b
  }

  /** The record an insert stores: an id is assigned when it is zero, and unset timestamps become the current one. */
  function Inserted(db: Database, p: Product, stamp: string): Product {
    p.(id := if p.id == 0 then db.nextId else p.id,
       createdAt := if p.createdAt == ZERO_TIME then stamp else p.createdAt,
       updatedAt := if p.updatedAt == ZERO_TIME then stamp else p.updatedAt)
  }

  function Put(db: Database, p: Product): Database {
    Database(Write(db.table, p.id, Some(p)), Max(db.nextId, p.id + 1))
  }

  /** What the caller is told about a write of this record that the database would accept. */
  function Reported<T>(value: T, fault: WriteFault): Result<T, RepoError> {
    if fault.Works? then Ok(value) else Err(RepoFailure)
  }

  /** An insert fails on a taken id, tombstones included. */
  function CreateStep(db: Database, p: Product, stamp: string, fault: WriteFault)
    : (Database, Result<Product, RepoError>)
  {
    var q := Inserted(db, p, stamp);
    if fault.Refused? || q.id in db.table then (db, Err(RepoFailure)) else (Put(db, q), Reported(q, fault))
  }

  /** Save is a put of the full record under its id, with a fresh update time; without an id it inserts. */
  function UpdateStep(db: Database, p: Product, stamp: string, fault: WriteFault)
    : (Database, Result<Product, RepoError>)
  {
    var q := p.(updatedAt := stamp);
    if p.id == 0 then CreateStep(db, p, stamp, fault)
    else if fault.Refused? then (db, Err(RepoFailure))
    else (Put(db, q), Reported(q, fault))
  }

  function DeleteStep(db: Database, id: nat, fault: WriteFault): (Database, Result<(), RepoError>) {
    if fault.Refused? then (db, Err(RepoFailure))
    else if Lookup(db.table, id).None? then (db, if fault.Works? then Err(RecordNotFound) else Err(RepoFailure))
    else (db.(table := Write(db.table, id, None)), Reported((), fault))
  }

  /** No write loses validity, and each touches at most the row it reports. */
  lemma WritesKeepValid(db: Database, p: Product, id: nat, stamp: string, fault: WriteFault)
    requires db.Valid()
    ensures CreateStep(db, p, stamp, fault).0.Valid()
    ensures UpdateStep(db, p, stamp, fault).0.Valid()
    ensures DeleteStep(db, id, fault).0.Valid()
  {
  }

  /** The record q is what inserting p stores: the same but for an id if there was none, and for unset timestamps. */
  predicate InsertedAs(p: Product, q: Product, stamp: string) {
    && q == p.(id := q.id, createdAt := q.createdAt, updatedAt := q.updatedAt)
    && (p.id != 0 ==> q.id == p.id)
    && q.createdAt in {p.createdAt, stamp} && (q.createdAt == p.createdAt <== p.createdAt != ZERO_TIME)
    && q.updatedAt in {p.updatedAt, stamp} && (q.updatedAt == p.updatedAt <== p.updatedAt != ZERO_TIME)
    && (stamp != ZERO_TIME ==> q.createdAt != ZERO_TIME && q.updatedAt != ZERO_TIME)
  }

  /** The database db' is db with the new row of q, and nothing else changed. */
  predicate Gained(db: Database, db': Database, q: Product, other: nat) {
    && Lookup(db'.table, q.id) == Some(q)
    && (other != q.id ==> Lookup(db'.table, other) == Lookup(db.table, other))
  }

  /** What an insert of p as q leaves: a row under an id that no row, deleted ones included, has had. */
  predicate Inserts(db: Database, db': Database, p: Product, q: Product, stamp: string, other: nat) {
    Gained(db, db', q, other) && InsertedAs(p, q, stamp) && q.id !in db.table
  }

  /** A write that reports success leaves its record, and only its row is new. One that reports an error leaves either
      everything as it was, or, if only its acknowledgement was lost, exactly what it would have left. Inserts without
      an id always find one; a delete succeeds exactly on a live row, and leaves none. */
  lemma WritesAreExact(db: Database, p: Product, id: nat, stamp: string, fault: WriteFault, other: nat)
    requires db.Valid()
    ensures
      var (db', r) := CreateStep(db, p, stamp, fault);
      && (r.Ok? <==> fault.Works? && p.id !in db.table)
      && (r.Ok? ==> Inserts(db, db', p, r.value, stamp, other))
      && (r.Ok? && p.id == 0 ==> r.value.id == db.nextId && db'.nextId == db.nextId + 1)
      && (r.Err? && !(fault.Unconfirmed? && p.id !in db.table) ==> db' == db)
      && (fault.Unconfirmed? && p.id !in db.table ==> exists q :: Inserts(db, db', p, q, stamp, other))
    ensures
      var (db', r) := UpdateStep(db, p, stamp, fault);
      var q := p.(updatedAt := stamp);
      && (r.Ok? <==> fault.Works?) && (r.Err? && !fault.Unconfirmed? ==> db' == db)
      && (p.id != 0 && !fault.Refused? ==> Gained(db, db', q, other) && (r.Ok? ==> r.value == q))
      && (p.id == 0 && r.Ok? ==> Inserts(db, db', p, r.value, stamp, other))
      && (p.id == 0 && fault.Unconfirmed? ==> exists q :: Inserts(db, db', p, q, stamp, other))
    ensures
      var (db', r) := DeleteStep(db, id, fault);
      && (r.Ok? <==> fault.Works? && Lookup(db.table, id).Some?)
      && (r == Err(RecordNotFound) <==> fault.Works? && Lookup(db.table, id).None?)
      && (if fault.Refused? || Lookup(db.table, id).None? then db' == db else Lookup(db'.table, id).None?)
      && (other != id ==> Lookup(db'.table, other) == Lookup(db.table, other))
    // Rows never leave the table, so no id is ever free again.
    ensures db.table.Keys <= CreateStep(db, p, stamp, fault).0.table.Keys
    ensures db.table.Keys <= UpdateStep(db, p, stamp, fault).0.table.Keys
    ensures db.table.Keys == DeleteStep(db, id, fault).0.table.Keys
  {
    var q := Inserted(db, p, stamp);
    if q.id !in db.table {
      assert Inserts(db, Put(db, q), p, q, stamp, other);
    }
  }

  class ProductRepo {
    var db: Database

    constructor ()
      ensures db.Valid() && db.table == map[]
    {
      db := Database(map[], 1);
    }

    /** The live count and one page of rows; the arguments are what ParsePage yields. */
    method List(page: nat, size: nat, countFails: bool, findFails: bool)
      returns (r: Result<(seq<Product>, nat), RepoError>)
      requires page >= 1 && size >= 1
      ensures r == if countFails || (Pagination.LiveIds(db.table) != {} && findFails) then Err(RepoFailure)
                   else Ok((Pagination.Page(db.table, page, size), |Pagination.LiveIds(db.table)|))
    {
      if countFails {
        return Err(RepoFailure);
      }
      var total := |Pagination.LiveIds(db.table)|;
      if total == 0 {
        return Ok(([], 0));
      }
      var offset := (page - 1) * size;
      if findFails {
        return Err(RepoFailure);
      }
      r := Ok((Pagination.Slice(Pagination.Rows(db.table), offset, size), total));
    }

    method GetByID(id: nat, fails: bool) returns (r: Result<Product, RepoError>)
      ensures r == if fails then Err(RepoFailure)
                   else if Lookup(db.table, id).Some? then Ok(Lookup(db.table, id).value)
                   else Err(RecordNotFound)
    {
      if fails {
        return Err(RepoFailure);
      }
      if id in db.table {
        match db.table[id]
        case Live(p) => return Ok(p);
        case Tombstone =>
      }
      r := Err(RecordNotFound);
    }

    method Create(p: Product, stamp: string, fault: WriteFault) returns (r: Result<Product, RepoError>)
      modifies this
      ensures (db, r) == CreateStep(old(db), p, stamp, fault)
      ensures old(db.Valid()) ==> db.Valid()
    {
      var q := Inserted(db, p, stamp);
      if fault.Refused? || q.id in db.table {
        return Err(RepoFailure);
      }
      db := Put(db, q);
      if fault.Unconfirmed? {
        return Err(RepoFailure);
      }
      r := Ok(q);
    }

    method Update(p: Product, stamp: string, fault: WriteFault) returns (r: Result<Product, RepoError>)
      modifies this
      ensures (db, r) == UpdateStep(old(db), p, stamp, fault)
      ensures old(db.Valid()) ==> db.Valid()
    {
      if p.id == 0 {
        r := Create(p, stamp, fault);
        return;
      }
      if fault.Refused? {
        return Err(RepoFailure);
      }
      var q := p.(updatedAt := stamp);
      db := Put(db, q);
      if fault.Unconfirmed? {
        return Err(RepoFailure);
      }
      r := Ok(q);
    }

    method Delete(id: nat, fault: WriteFault) returns (r: Result<(), RepoError>)
      modifies this
      ensures (db, r) == DeleteStep(old(db), id, fault)
      ensures old(db.Valid()) ==> db.Valid()
    {
      if fault.Refused? {
        return Err(RepoFailure);
      }
      var found := Lookup(db.table, id).Some?;
      if found {
        db := db.(table := Write(db.table, id, None));
      }
      if fault.Unconfirmed? {
        return Err(RepoFailure);
      }
      if !found {
        return Err(RecordNotFound);
      }
      r := Ok(());
    }
  }
}
