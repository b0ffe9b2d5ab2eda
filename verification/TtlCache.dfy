/** A bounded cache with expiry and eviction of the oldest, against the unbounded map of everything
    that was ever set. */
module TtlCache {
  import opened Options

  datatype Stamped<V> = Stamped(value: V, at: real)

  type Entries<V> = map<string, Stamped<V>>

  // ---------------------------------------------------------------------------
  // Agreement with the unbounded map
  // ---------------------------------------------------------------------------

  /** A cache made for fewer than one entry still holds one. */
  function Capacity(maxsize: int): nat
  {
    if maxsize < 1 then 1 else maxsize
  }

  function EvictCount(n: nat): nat
  {
    if n / 10 > 1 then n / 10 else 1
  }

  /** An eviction takes a tenth, at least one. */
  lemma EvictCountIs(n: nat)
    ensures EvictCount(n) >= 1 && 10 * EvictCount(n) > n - 10
    ensures EvictCount(n) > 1 ==> 10 * EvictCount(n) <= n
  {
  }

  predicate Fresh<V>(e: Stamped<V>, ttl: real, now: real)
  {
    now - e.at < ttl
  }

  /** The other keys set no earlier than k. */
  function AsRecent<V>(full: Entries<V>, k: string): (ks: set<string>)
    requires k in full
    ensures forall j :: j in ks <==> j in full && j != k && full[k].at <= full[j].at
  {
    set j | j in full && j != k && full[k].at <= full[j].at
  }

  /** k has as many keys at least as recent as an eviction leaves. */
  predicate Displaced<V>(full: Entries<V>, k: string, capacity: nat)
  {
    k in full && capacity - EvictCount(capacity) <= |AsRecent(full, k)|
  }

  /** Every cached entry is the latest set for its key. */
  predicate Latest<V(==)>(cache: Entries<V>, full: Entries<V>)
  {
    forall k :: k in cache ==> k in full && cache[k] == full[k]
  }

  /** A fresh entry is missing only if it is no newer than any cached one, and displaced. */
  ghost predicate Recent<V>(cache: Entries<V>, full: Entries<V>, capacity: nat, ttl: real, now: real)
  {
    forall k :: k in full && k !in cache && Fresh(full[k], ttl, now) ==>
      Displaced(full, k, capacity) && forall c :: c in cache ==> full[k].at <= cache[c].at
  }

  ghost predicate Past<V>(full: Entries<V>, now: real)
  {
    forall k :: k in full ==> full[k].at <= now
  }

  ghost predicate Agrees<V>(cache: Entries<V>, full: Entries<V>, capacity: nat, ttl: real, now: real)
  {
    |cache| <= capacity && Latest(cache, full) && Recent(cache, full, capacity, ttl, now) && Past(full, now)
  }

  /** The oldest of a map: none newer than any of the others. */
  ghost predicate Oldest<V>(cache: Entries<V>, victims: set<string>)
  {
    victims <= cache.Keys && forall v, k :: v in victims && k in cache && k !in victims ==> cache[v].at <= cache[k].at
  }

  lemma LaterStillAgrees<V>(cache: Entries<V>, full: Entries<V>, capacity: nat, ttl: real, now: real, later: real)
    requires Agrees(cache, full, capacity, ttl, now) && now <= later
    ensures Agrees(cache, full, capacity, ttl, later)
  {
  }

  lemma VictimDisplaced<V>(cache: Entries<V>, full: Entries<V>, capacity: nat, victims: set<string>, v: string)
    requires Latest(cache, full) && |cache| == capacity && Oldest(cache, victims) && |victims| == EvictCount(capacity)
    requires v in victims
    ensures Displaced(full, v, capacity)
  {
    var survivors := cache.Keys - victims;
    assert |survivors| == |cache.Keys| - |victims|;
    assert |cache.Keys| == |cache|;
    assert survivors <= AsRecent(full, v);
    Smaller(survivors, AsRecent(full, v));
  }

  lemma {:induction false} Smaller<T>(a: set<T>, b: set<T>)
    requires a <= b
    ensures |a| <= |b|
  {
    if a != {} {
      var x :| x in a;
      Smaller(a - {x}, b - {x});
    }
  }

  lemma KeptByEvict<V>(cache: Entries<V>, full: Entries<V>, capacity: nat, ttl: real, now: real, victims: set<string>)
    requires Agrees(cache, full, capacity, ttl, now) && |cache| == capacity
    requires Oldest(cache, victims) && |victims| == EvictCount(capacity)
    ensures Agrees(cache - victims, full, capacity, ttl, now)
    ensures |cache - victims| < capacity
  {
    var rest := cache - victims;
    assert rest.Keys == cache.Keys - victims;
    assert |rest| == |rest.Keys| && |cache| == |cache.Keys|;
    assert |cache.Keys - victims| == |cache.Keys| - |victims|;
    forall k | k in full && k !in rest && Fresh(full[k], ttl, now)
      ensures Displaced(full, k, capacity)
    {
      if k in victims {
        VictimDisplaced(cache, full, capacity, victims, k);
      }
    }
  }

  lemma StillDisplaced<V>(full: Entries<V>, capacity: nat, k: string, key: string, e: Stamped<V>)
    requires Displaced(full, k, capacity) && k != key && forall j :: j in full ==> full[j].at <= e.at
    ensures Displaced(full[key := e], k, capacity)
  {
    Smaller(AsRecent(full, k), AsRecent(full[key := e], k));
  }

  lemma KeptBySet<V>(cache: Entries<V>, full: Entries<V>, capacity: nat, ttl: real, now: real, key: string, value: V)
    requires Agrees(cache, full, capacity, ttl, now) && |cache| < capacity
    ensures Agrees(cache[key := Stamped(value, now)], full[key := Stamped(value, now)], capacity, ttl, now)
  {
    var e := Stamped(value, now);
    var cache', full' := cache[key := e], full[key := e];
    assert cache'.Keys == cache.Keys + {key};
    assert |cache'| == |cache'.Keys| && |cache| == |cache.Keys|;
    forall k | k in full' && k !in cache' && Fresh(full'[k], ttl, now)
      ensures Displaced(full', k, capacity) && forall c :: c in cache' ==> full'[k].at <= cache'[c].at
    {
      StillDisplaced(full, capacity, k, key, e);
    }
  }

  lemma KeptByExpiry<V>(cache: Entries<V>, full: Entries<V>, capacity: nat, ttl: real, now: real, gone: set<string>)
    requires Agrees(cache, full, capacity, ttl, now)
    requires forall k :: k in gone && k in cache ==> !Fresh(cache[k], ttl, now)
    ensures Agrees(cache - gone, full, capacity, ttl, now)
  {
  }

  /** A key set within the ttl, with fewer other keys set since than an eviction leaves, is cached
      with its latest value. */
  lemma RecentIsCached<V>(cache: Entries<V>, full: Entries<V>, capacity: nat, ttl: real, now: real, k: string)
    requires Agrees(cache, full, capacity, ttl, now)
    requires k in full && Fresh(full[k], ttl, now) && |AsRecent(full, k)| < capacity - EvictCount(capacity)
    ensures k in cache && cache[k] == full[k]
  {
  }

  // ---------------------------------------------------------------------------
  // The class
  // ---------------------------------------------------------------------------

  ghost predicate SortedByAge<V>(m: Entries<V>, keys: seq<string>)
  {
    && (forall i :: 0 <= i < |keys| ==> keys[i] in m)
    && (forall i, j :: 0 <= i < j < |keys| ==> keys[i] != keys[j] && m[keys[i]].at <= m[keys[j]].at)
  }

  lemma MinusOneMore<V>(m: Entries<V>, gone: set<string>, k: string)
    ensures m - gone - {k} == m - (gone + {k})
  {
  }

  lemma NextKey<V>(m: Entries<V>, keys: seq<string>, i: nat, victims: set<string>)
    requires SortedByAge(m, keys) && i < |keys| && forall k :: k in victims <==> k in keys[..i]
    ensures keys[i] !in victims
    ensures forall k :: k in victims + {keys[i]} <==> k in keys[..i + 1]
  {
  }

  /** The first of the sorted keys are the oldest. */
  lemma FirstAreOldest<V>(m: Entries<V>, keys: seq<string>, count: nat, victims: set<string>)
    requires SortedByAge(m, keys) && count <= |keys| && forall k :: k in m ==> k in keys
    requires forall k :: k in victims <==> k in keys[..count]
    ensures Oldest(m, victims)
  {
  }

  method OldestOf<V>(m: Entries<V>, rest: set<string>) returns (oldest: string)
    requires rest != {} && rest <= m.Keys
    ensures oldest in rest && forall k :: k in rest ==> m[oldest].at <= m[k].at
  {
    oldest :| oldest in rest;
    var todo := rest - {oldest};
    while todo != {}
      invariant todo <= rest && oldest in rest
      invariant forall k :: k in rest && k !in todo ==> m[oldest].at <= m[k].at
    {
      var k :| k in todo;
      if m[k].at < m[oldest].at {
        oldest := k;
      }
      todo := todo - {k};
    }
  }

  /** The library sort: the keys from oldest to newest, those of equal age in any order. */
  method SortKeys<V>(m: Entries<V>) returns (keys: seq<string>)
    ensures SortedByAge(m, keys) && |keys| == |m|
    ensures forall k :: k in keys <==> k in m
  {
    keys := [];
    var rest := m.Keys;
    while rest != {}
      invariant rest <= m.Keys && SortedByAge(m, keys) && |keys| + |rest| == |m.Keys|
      invariant forall k :: k in keys <==> k in m && k !in rest
      invariant forall i, k :: 0 <= i < |keys| && k in rest ==> m[keys[i]].at <= m[k].at
    {
      var k := OldestOf(m, rest);
      keys, rest := keys + [k], rest - {k};
    }
    assert |m.Keys| == |m|;
  }

  class TTLCache<V(==)> {
    const maxsize: int
    const ttl: real
    var cache: Entries<V>
    /** Everything set so far, and the time of the last call. */
    ghost var full: Entries<V>
    ghost var clock: real

    ghost predicate Valid()
      reads this
    {
      Agrees(cache, full, Capacity(maxsize), ttl, clock)
    }

    constructor (maxsize: int, ttl: real, ghost now: real)
      ensures Valid() && this.maxsize == maxsize && this.ttl == ttl && cache == map[] && full == map[] && clock == now
    {
      this.maxsize, this.ttl, cache, full, clock := maxsize, ttl, map[], map[], now;
    }

    /** get: only ever the latest value set for the key, and only within the ttl. */
    method Get(key: string, now: real) returns (r: Option<V>)
      requires Valid() && clock <= now
      modifies `cache, `clock
      ensures Valid() && clock == now
      ensures r.Some? <==> key in old(cache) && now - old(cache)[key].at < ttl
      ensures r.Some? ==> key in full && now - full[key].at < ttl && r.value == full[key].value
      ensures key in full && Fresh(full[key], ttl, now) && !Displaced(full, key, Capacity(maxsize)) ==> r.Some?
      ensures cache == if r.Some? then old(cache) else old(cache) - {key}
    {
      LaterStillAgrees(cache, full, Capacity(maxsize), ttl, clock, now);
      clock := now;
      r := None;
      if key in cache {
        var e := cache[key];
        if now - e.at < ttl {
          r := Some(e.value);
        } else {
          KeptByExpiry(cache, full, Capacity(maxsize), ttl, now, {key});
          cache := cache - {key};
        }
      } else {
        assert cache - {key} == cache;
      }
    }

    /** set: a full cache first loses its oldest entries, and nothing else goes. */
    method Set(key: string, value: V, now: real) returns (victims: set<string>)
      requires Valid() && clock <= now
      modifies this
      ensures Valid() && clock == now
      ensures full == old(full)[key := Stamped(value, now)]
      ensures cache == (old(cache) - victims)[key := Stamped(value, now)] && Oldest(old(cache), victims)
      ensures |victims| == if |old(cache)| >= maxsize && old(cache) != map[] then EvictCount(|old(cache)|) else 0
      ensures |cache| <= if maxsize < 1 then 1 else maxsize
    {
      LaterStillAgrees(cache, full, Capacity(maxsize), ttl, clock, now);
      clock, victims := now, {};
      assert cache - victims == cache;
      if |cache| >= maxsize {
        victims := EvictOldest();
      }
      KeptBySet(cache, full, Capacity(maxsize), ttl, now, key, value);
      cache, full := cache[key := Stamped(value, now)], full[key := Stamped(value, now)];
    }

    /** _evict_oldest */
    method EvictOldest() returns (victims: set<string>)
      requires Valid() && |cache| >= maxsize
      modifies `cache
      ensures cache == old(cache) - victims && Oldest(old(cache), victims)
      ensures |victims| == if old(cache) == map[] then 0 else if |old(cache)| < 20 then 1 else |old(cache)| / 10
      ensures Valid() && |cache| < Capacity(maxsize)
    {
      victims := {};
      if cache == map[] {
        return;
      }
      var sortedKeys := SortKeys(cache);
      var evictCount := EvictCount(|sortedKeys|);
      victims := DeleteFirst(sortedKeys, evictCount);
      KeptByEvict(old(cache), full, Capacity(maxsize), ttl, clock, victims);
    }

    method DeleteFirst(sortedKeys: seq<string>, count: nat) returns (victims: set<string>)
      requires SortedByAge(cache, sortedKeys) && count <= |sortedKeys|
      requires forall k :: k in cache ==> k in sortedKeys
      modifies `cache
      ensures cache == old(cache) - victims && Oldest(old(cache), victims) && |victims| == count
    {
      victims := {};
      ghost var was := cache;
      for i := 0 to count
        invariant cache == was - victims && |victims| == i
        invariant forall k :: k in victims <==> k in sortedKeys[..i]
      {
        var k := sortedKeys[i];
        NextKey(was, sortedKeys, i, victims);
        MinusOneMore(was, victims, k);
        cache, victims := cache - {k}, victims + {k};
      }
      FirstAreOldest(was, sortedKeys, count, victims);
    }

    /** __len__: the entries left after dropping the expired ones. */
    method Len(now: real) returns (n: nat)
      requires Valid() && clock <= now
      modifies `cache, `clock
      ensures Valid() && clock == now && n == |cache| <= Capacity(maxsize)
      ensures forall k :: k in cache <==> k in old(cache) && now - old(cache)[k].at < ttl
      ensures forall k :: k in cache ==> cache[k] == old(cache)[k]
    {
      CleanupExpired(now);
      n := |cache|;
    }

    /** _cleanup_expired */
    method CleanupExpired(now: real)
      requires Valid() && clock <= now
      modifies `cache, `clock
      ensures Valid() && clock == now
      ensures forall k :: k in cache <==> k in old(cache) && now - old(cache)[k].at < ttl
      ensures forall k :: k in cache ==> cache[k] == old(cache)[k]
    {
      LaterStillAgrees(cache, full, Capacity(maxsize), ttl, clock, now);
      clock := now;
      var expired := set k | k in cache && now - cache[k].at >= ttl;
      ghost var was := cache;
      DeleteAll(expired);
      KeptByExpiry(was, full, Capacity(maxsize), ttl, now, expired);
    }

    method DeleteAll(keys: set<string>)
      modifies `cache
      ensures cache == old(cache) - keys
    {
      var deleted: set<string> := {};
      ghost var was := cache;
      while keys - deleted != {}
        invariant deleted <= keys && cache == was - deleted
      {
        var k :| k in keys - deleted;
        MinusOneMore(was, deleted, k);
        cache, deleted := cache - {k}, deleted + {k};
      }
      forall k | k in keys ensures k in deleted {
        assert k !in keys - deleted;
      }
      assert deleted == keys;
    }
  }
}
