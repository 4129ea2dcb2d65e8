/** Expiry of cached texts: the jitter GetOrLoad adds to the TTL. Times are nanoseconds. */
module CacheExpiry {
  import opened Durations

  /** The jitter range: a tenth of the TTL, at most sixty seconds. Positive durations only, so Go's truncating
      division and Dafny's agree. */
  function MaxJitter(ttl: int): (j: int)
    ensures 0 <= j <= 60 * SECOND
    ensures ttl > 0 ==> j <= ttl / 10
  {
    if ttl <= 0 then 0
    else if ttl / 10 > 60 * SECOND then 60 * SECOND
    else ttl / 10
  }

  /** The draw is the value of rand.Int63n(MaxJitter(ttl)); it is not used when the range is empty. */
  predicate ValidDraw(ttl: int, draw: int) {
    MaxJitter(ttl) > 0 ==> 0 <= draw < MaxJitter(ttl)
  }

  /** The TTL that is stored: never shorter than asked, never longer by more than the jitter range, and positive
      exactly when the TTL asked for is. */
  function AddJitter(ttl: int, draw: int): (t: int)
    requires ValidDraw(ttl, draw)
    ensures ttl <= t <= ttl + MaxJitter(ttl)
    ensures MaxJitter(ttl) > 0 ==> t < ttl + MaxJitter(ttl)
    ensures ttl <= 0 ==> t == ttl
    ensures t > 0 <==> ttl > 0
  {
    if ttl <= 0 then ttl
    else if MaxJitter(ttl) <= 0 then ttl
    else ttl + draw
  }

  /** Exactly the whole nanoseconds below a tenth of the TTL, and below sixty seconds, can be added. */
  lemma JitterExactly(ttl: int, extra: int)
    requires ttl > 0 && 0 < extra < 60 * SECOND
    ensures (exists draw :: ValidDraw(ttl, draw) && AddJitter(ttl, draw) == ttl + extra) <==> 10 * (extra + 1) <= ttl
  {
    if 10 * (extra + 1) <= ttl {
      assert ValidDraw(ttl, extra) && AddJitter(ttl, extra) == ttl + extra;
    }
  }

  /** Nothing more can be added, and nothing at all to a TTL of less than ten nanoseconds. */
  lemma JitterBounds(ttl: int, draw: int)
    requires ttl > 0 && ValidDraw(ttl, draw)
    ensures ttl <= AddJitter(ttl, draw) <= ttl + LeastOf(60 * SECOND, ttl / 10)
    ensures ttl < 10 ==> AddJitter(ttl, draw) == ttl
    ensures ttl >= 10 ==> AddJitter(ttl, draw) < ttl + LeastOf(60 * SECOND, ttl / 10)
  {
  }

  function LeastOf(a: int, b: int): (c: int)
    ensures c <= a && c <= b && c in {a, b}
  {
    if a < b then a else b
  }

  /** The last instant, exclusive, at which a text stored now can still be served. */
  function Horizon(now: int, ttl: int): int {
    now + ttl + MaxJitter(ttl)
  }

  /** The configured expiry in seconds; ten minutes when it is not positive. */
  function CacheTtl(expireSeconds: int): (ttl: int)
    ensures expireSeconds > 0 ==> ttl == expireSeconds * 1_000_000_000
    ensures expireSeconds <= 0 ==> ttl == 600_000_000_000
  {
    (if expireSeconds <= 0 then 600 else expireSeconds) * SECOND
  }
}
