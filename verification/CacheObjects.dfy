/** The cache objects as one caller at a time uses them: a store with expiry, the singleflight wrapper around it, and
    the repository's own mock. Faults are parameters: a lookup that fails reads as a miss, a failed Set is ignored, a
    failed Del only logged. As nobody looks at the error, a Set or Del that takes effect and still errs is one that
    works. */
module CacheObjects {
  import opened CacheExpiry
  import opened Options

  datatype Stored = Stored(text: string, expiresAt: int)

  type Entries = map<string, Stored>

  datatype LoadError = LoadError

  type Loading = Result<string, LoadError>

  /** Which of the four operations inside one GetOrLoad fail. */
  datatype Faults = Faults(firstGet: bool, secondGet: bool, load: bool, store: bool)

  /** A successful lookup: an entry is dead from its expiry instant on. */
  function Peek(entries: Entries, now: int, key: string): Option<string> {
    if key in entries && now < entries[key].expiresAt then Some(entries[key].text) else None
  }

  /** The store behind the Cache interface, with the clock that expires its entries. */
  class ExpiringCache {
    var now: int
    var entries: Entries

    constructor ()
      ensures now == 0 && entries == map[]
    {
      now, entries := 0, map[];
    }

    method Get(key: string, fails: bool) returns (r: Option<string>)
      ensures r == if fails then None else Peek(entries, now, key)
    {
      if fails || key !in entries || entries[key].expiresAt <= now {
        return None;
      }
      r := Some(entries[key].text);
    }

    method Set(key: string, text: string, ttl: int, fails: bool) returns (ok: bool)
      modifies this`entries
      ensures ok == !fails
      ensures entries == if fails then old(entries) else old(entries)[key := Stored(text, now + ttl)]
    {
      if !fails {
        entries := entries[key := Stored(text, now + ttl)];
      }
      ok := !fails;
    }

    method Del(key: string, fails: bool) returns (ok: bool)
      modifies this`entries
      ensures ok == !fails
      ensures entries == if fails then old(entries) else old(entries) - {key}
    {
      if !fails {
        entries := entries - {key};
      }
      ok := !fails;
    }

    method Advance(d: nat)
      modifies this`now
      ensures now == old(now) + d
    {
      now := now + d;
    }
  }

  /** What one GetOrLoad leaves in the store and returns. */
  function GetOrLoadStep(entries: Entries, now: int, key: string, loaded: Loading, ttl: int, faults: Faults, draw: int)
    : (r: (Entries, Loading))
    requires ValidDraw(ttl, draw)
    // Whatever fails, a live entry is returned or the load is; and only the key can change.
    ensures r.1 == loaded || (Peek(entries, now, key).Some? && r.1 == Ok(Peek(entries, now, key).value))
    ensures r.0 == entries || (r.1 == loaded && loaded.Ok?
                               && r.0 == entries[key := Stored(loaded.value, now + AddJitter(ttl, draw))])
  {
    var hit := Peek(entries, now, key);
    if hit.Some? && (!faults.firstGet || !faults.secondGet) then (entries, Ok(hit.value))
    else if loaded.Err? || faults.store then (entries, loaded)
    else (entries[key := Stored(loaded.value, now + AddJitter(ttl, draw))], loaded)
  }

  class CacheWithSingleflight {
    const cache: ExpiringCache

    constructor (cache: ExpiringCache)
      ensures this.cache == cache
    {
      this.cache := cache;
    }

    /** With one caller at a time every miss opens a flight of its own, and leads it. */
    method GetOrLoad(key: string, loader: () -> Loading, ttl: int, faults: Faults, draw: int) returns (r: Loading)
      requires ValidDraw(ttl, draw)
      modifies cache`entries
      ensures (cache.entries, r) == GetOrLoadStep(
                old(cache.entries), cache.now, key, loader(), ttl, faults, draw)
    {
      var first := cache.Get(key, faults.firstGet);
      if first.Some? {
        return Ok(first.value);
      }
      var second := cache.Get(key, faults.secondGet);
      if second.Some? {
        return Ok(second.value);
      }
      r := loader();
      if r.Ok? {
        var _ := cache.Set(key, r.value, AddJitter(ttl, draw), faults.store);
      }
    }

    method Del(key: string, fails: bool) returns (ok: bool)
      modifies cache`entries
      ensures ok == !fails
      ensures cache.entries == if fails then old(cache.entries) else old(cache.entries) - {key}
    {
      ok := cache.Del(key, fails);
    }
  }

  /** The repository's mock: a plain map, without expiry or faults. */
  class MockCache {
    var data: map<string, string>

    constructor ()
      ensures data == map[]
    {
      data := map[];
    }

    method Get(key: string) returns (r: Option<string>)
      ensures r == if key in data then Some(data[key]) else None
    {
      r := if key in data then Some(data[key]) else None;
    }

    method Set(key: string, text: string)
      modifies this
      ensures data == old(data)[key := text]
    {
      data := data[key := text];
    }

    /** Deletes the keys one after another. */
    method Del(keys: seq<string>)
      modifies this
      ensures data == old(data) - (set k | k in keys)
    {
      for i := 0 to |keys|
        invariant data == old(data) - (set k | k in keys[..i])
      {
        assert keys[..i + 1] == keys[..i] + [keys[i]];
        data := data - {keys[i]};
      }
      assert keys[..|keys|] == keys;
    }

    method GetOrLoad(key: string, loader: () -> Loading) returns (r: Loading)
      modifies this
      ensures (data, r) == MockStep(old(data), key, loader())
    {
      if key in data {
        return Ok(data[key]);
      }
      r := loader();
      if r.Ok? {
        data := data[key := r.value];
      }
    }
  }

  function MockStep(data: map<string, string>, key: string, loaded: Loading): (map<string, string>, Loading) {
    if key in data then (data, Ok(data[key]))
    else if loaded.Err? then (data, loaded)
    else (data[key := loaded.value], loaded)
  }

  /** What the mock has once returned it keeps returning, whatever a later loader would give, until the key is set or
      deleted; and no other key is concerned. */
  lemma MockRemembers(data: map<string, string>, key: string, loaded: Loading, later: Loading, other: string)
    ensures
      var (data', r) := MockStep(data, key, loaded);
      if r.Ok? then key in data' && data'[key] == r.value && MockStep(data', key, later) == (data', r)
      else data' == data && MockStep(data', key, later) == MockStep(data, key, later)
    ensures
      var data' := MockStep(data, key, loaded).0;
      other != key ==> (other in data' <==> other in data) && (other in data ==> data'[other] == data[other])
  {
  }

  /** The texts a lookup without faults can still return. */
  ghost function LiveTexts(entries: Entries, now: int): map<string, string> {
    map k | k in entries && now < entries[k].expiresAt :: entries[k].text
  }

  /** On the texts still alive, a GetOrLoad without faults does what the mock does. */
  lemma WrapperRefinesMock(entries: Entries, now: int, key: string, loaded: Loading, ttl: int, draw: int)
    requires ttl > 0 && ValidDraw(ttl, draw)
    ensures
      var (entries', r) := GetOrLoadStep(entries, now, key, loaded, ttl, Faults(false, false, false, false), draw);
      (LiveTexts(entries', now), r) == MockStep(LiveTexts(entries, now), key, loaded)
  {
    var (entries', r) := GetOrLoadStep(entries, now, key, loaded, ttl, Faults(false, false, false, false), draw);
    var (data', r') := MockStep(LiveTexts(entries, now), key, loaded);
    assert LiveTexts(entries', now) == data';
  }
}
