/** internal/asn/resolver.go: one layer of shared lookups. */
module Flights {
  // Concurrent callers of a key join one flight; the last to leave an unfinished flight abandons it;
  // only the flight still owning its key commits a cache entry. The same protocol runs for IPs and
  // for AS names.
  import opened Basics

  const MAX_CACHE_ENTRIES := 16384
  const EVICT_FRACTION := 8

  /** An IPv4 address or an AS number: both layers key by a 32-bit number. */
  type Key = nat

  datatype Failure = NoFailure | Canceled | Failed(why: string)

  /** What a flight answers. An IP flight answers a country and a name, a name flight a name; `cap` is
      when the AS-name answer it holds or was built from expires, 0 if there is none. */
  datatype Answer = Answer(country: string, name: string, failure: Failure, cap: Time)

  /** A `*Flight` is an index into the pool; `committed` records that its finish stored an entry. */
  datatype Flight = Flight(
    key: Key,
    waiters: int,
    finished: bool,
    abandoned: bool,
    cancelled: bool,
    closed: bool,
    answer: Option<Answer>,
    committed: bool)

  /** A cache entry, with the flight that stored it. */
  datatype Entry = Entry(answer: Answer, expiresAt: Time, flight: nat)

  /** What the two locks guard: the registered flights, every flight ever made, and the cache. */
  datatype Shared = Shared(flights: map<Key, nat>, pool: seq<Flight>, cache: map<Key, Entry>)

  // ----- the critical sections, on values -----

  predicate Owns(s: Shared, key: Key, f: nat)
  {
    key in s.flights && s.flights[key] == f
  }

  function Without<V>(m: map<Key, V>, key: Key): map<Key, V>
  {
    map k | k in m && k != key :: m[k]
  }

  /** Join the registered flight, or register a new one with one waiter. */
  function Entered(s: Shared, key: Key): (Shared, nat)
    requires key in s.flights ==> s.flights[key] < |s.pool|
  {
    if key in s.flights then
      var f := s.flights[key];
      (s.(pool := s.pool[f := s.pool[f].(waiters := s.pool[f].waiters + 1)]), f)
    else
      var f := |s.pool|;
      (s.(flights := s.flights[key := f], pool := s.pool + [Flight(key, 1, false, false, false, false, None, false)]), f)
  }

  /** One waiter leaves; the last to leave an unfinished flight abandons and unregisters it. */
  function Dropped(s: Shared, key: Key, f: nat): (Shared, bool)
    requires f < |s.pool|
  {
    var fl := s.pool[f].(waiters := s.pool[f].waiters - 1);
    if fl.waiters > 0 || fl.finished then (s.(pool := s.pool[f := fl]), false)
    else
      (Shared(if Owns(s, key, f) then Without(s.flights, key) else s.flights,
              s.pool[f := fl.(abandoned := true)], s.cache), true)
  }

  /** Eviction drops what has expired and, when that frees nothing, an eighth of the rest: any eighth. */
  ghost predicate Evicts(cache: map<Key, Entry>, now: Time, after: map<Key, Entry>)
  {
    var live := Unexpired(cache, now);
    && (forall k :: k in after ==> k in live && after[k] == live[k])
    && |after| == if |live| < MAX_CACHE_ENTRIES then |live| else |live| - MAX_CACHE_ENTRIES / EVICT_FRACTION
  }

  function Unexpired(cache: map<Key, Entry>, now: Time): map<Key, Entry>
  {
    map k | k in cache && now <= cache[k].expiresAt :: cache[k]
  }

  ghost predicate Stores(cache: map<Key, Entry>, key: Key, e: Entry, now: Time, after: map<Key, Entry>)
  {
    if |cache| < MAX_CACHE_ENTRIES then after == cache[key := e]
    else exists kept: map<Key, Entry> :: Evicts(cache, now, kept) && after == kept[key := e]
  }

  predicate Commits(s: Shared, key: Key, f: nat, expiry: Option<Time>)
    requires f < |s.pool|
  {
    Owns(s, key, f) && expiry.Some? && !s.pool[f].abandoned
  }

  /** Publish the answer; the flight still owning the key unregisters and, unless abandoned, commits. */
  ghost predicate Finishes(s: Shared, key: Key, f: nat, answer: Answer, expiry: Option<Time>, now: Time, after: Shared)
    requires f < |s.pool|
  {
    var commits := Commits(s, key, f, expiry);
    && after.pool == s.pool[f := s.pool[f].(answer := Some(answer), finished := true, committed := s.pool[f].committed || commits)]
    && after.flights == (if Owns(s, key, f) then Without(s.flights, key) else s.flights)
    && (if commits then Stores(s.cache, key, Entry(answer, expiry.value, f), now, after.cache) else after.cache == s.cache)
  }

  /** The cache's answer, if it has one that has not expired. */
  function Cached(cache: map<Key, Entry>, key: Key, now: Time): Option<Entry>
  {
    if key in cache && now < cache[key].expiresAt then Some(cache[key]) else None
  }

  // ----- the code -----

  class Layer {
    var flights: map<Key, nat>
    var pool: seq<Flight>
    var cache: map<Key, Entry>

    constructor ()
      ensures State() == Shared(map[], [], map[])
    {
      flights, pool, cache := map[], [], map[];
    }

    function State(): Shared
      reads this
    {
      Shared(flights, pool, cache)
    }

    method Enter(key: Key) returns (f: nat, joined: bool)
      requires key in flights ==> flights[key] < |pool|
      modifies this
      ensures (State(), f) == Entered(old(State()), key)
      ensures joined <==> key in old(flights)
    {
      if key in flights {
        f := flights[key];
        pool := pool[f := pool[f].(waiters := pool[f].waiters + 1)];
        return f, true;
      }
      f := |pool|;
      pool := pool + [Flight(key, 1, false, false, false, false, None, false)];
      flights := flights[key := f];
      joined := false;
    }

    /** The entry of `key`, as long as it has not expired: at its expiry it already has. */
    method CachedResult(key: Key, now: Time) returns (found: Option<Entry>)
      ensures found.Some? <==> key in cache && now < cache[key].expiresAt
      ensures found.Some? ==> found.value == cache[key]
      ensures found == Cached(cache, key, now)
    {
      if key !in cache || !(now < cache[key].expiresAt) {
        return None;
      }
      found := Some(cache[key]);
    }

    method Drop(key: Key, f: nat) returns (last: bool)
      requires f < |pool|
      modifies this
      ensures (State(), last) == Dropped(old(State()), key, f)
    {
      pool := pool[f := pool[f].(waiters := pool[f].waiters - 1)];
      if pool[f].waiters > 0 || pool[f].finished {
        return false;
      }
      pool := pool[f := pool[f].(abandoned := true)];
      if key in flights && flights[key] == f {
        flights := Without(flights, key);
      }
      assert pool == old(pool)[f := pool[f]];
      last := true;
    }

    method Finish(key: Key, f: nat, answer: Answer, expiry: Option<Time>, now: Time)
      requires f < |pool|
      modifies this
      ensures Finishes(old(State()), key, f, answer, expiry, now, State())
    {
      pool := pool[f := pool[f].(answer := Some(answer), finished := true)];
      if key in flights && flights[key] == f {
        flights := Without(flights, key);
        if expiry.Some? && !pool[f].abandoned {
          Store(key, Entry(answer, expiry.value, f), now);
          pool := pool[f := pool[f].(committed := true)];
        }
      }
    }

    method Store(key: Key, e: Entry, now: Time)
      modifies this`cache
      ensures Stores(old(cache), key, e, now, cache)
    {
      if |cache| >= MAX_CACHE_ENTRIES {
        EvictExpired(now);
        ghost var kept := cache;
        cache := cache[key := e];
        assert Evicts(old(cache), now, kept);
      } else {
        cache := cache[key := e];
      }
    }

    method EvictExpired(now: Time)
      modifies this`cache
      ensures Evicts(old(cache), now, cache)
    {
      cache := Unexpired(cache, now);
      if |cache| < MAX_CACHE_ENTRIES {
        return;
      }
      ghost var live := cache;
      var drop := MAX_CACHE_ENTRIES / EVICT_FRACTION;
      while drop > 0
        invariant 0 <= drop <= MAX_CACHE_ENTRIES / EVICT_FRACTION
        invariant forall k :: k in cache ==> k in live && cache[k] == live[k]
        invariant |cache| == |live| - (MAX_CACHE_ENTRIES / EVICT_FRACTION - drop)
      {
        assert cache.Keys != {};
        var k :| k in cache;
        RemovingOne(cache, k);
        cache := Without(cache, k);
        drop := drop - 1;
      }
    }
  }

  lemma RemovingOne<V>(m: map<Key, V>, key: Key)
    requires key in m
    ensures |Without(m, key)| == |m| - 1
  {
    assert Without(m, key).Keys == m.Keys - {key};
  }

  lemma {:induction false} SubmapSize<V>(a: map<Key, V>, b: map<Key, V>)
    requires forall k :: k in a ==> k in b
    ensures |a| <= |b|
  {
    if a != map[] {
      var k :| k in a;
      RemovingOne(a, k);
      RemovingOne(b, k);
      SubmapSize(Without(a, k), Without(b, k));
    }
  }

  lemma AddingOne<V>(m: map<Key, V>, key: Key, v: V)
    ensures |m[key := v]| == if key in m then |m| else |m| + 1
  {
    assert m[key := v].Keys == m.Keys + {key};
  }

  /** A store keeps the cache within bounds, holds the new entry, invents no other, and loses none
      while there is room. */
  lemma StoreIsBounded(cache: map<Key, Entry>, key: Key, e: Entry, now: Time, after: map<Key, Entry>)
    requires Stores(cache, key, e, now, after) && |cache| <= MAX_CACHE_ENTRIES
    ensures |after| <= MAX_CACHE_ENTRIES
    ensures key in after && after[key] == e
    ensures forall k :: k in after && k != key ==> k in cache && after[k] == cache[k]
    ensures |cache| < MAX_CACHE_ENTRIES ==> forall k :: k in cache ==> k in after
  {
    if |cache| < MAX_CACHE_ENTRIES {
      AddingOne(cache, key, e);
    } else {
      var kept: map<Key, Entry> :| Evicts(cache, now, kept) && after == kept[key := e];
      SubmapSize(Unexpired(cache, now), cache);
      AddingOne(kept, key, e);
    }
  }

  /** What a store into a full cache throws out: everything expired and nothing else if anything has
      expired, and exactly an eighth of the entries otherwise. */
  lemma EvictionIsRight(cache: map<Key, Entry>, key: Key, e: Entry, now: Time, after: map<Key, Entry>)
    requires Stores(cache, key, e, now, after)
    ensures |cache| < 16384 ==> after == cache[key := e]
    ensures |cache| == 16384 && (exists k :: k in cache && cache[k].expiresAt < now) ==>
              forall k :: k in after <==> k == key || (k in cache && now <= cache[k].expiresAt)
    ensures |cache| == 16384 && (forall k :: k in cache ==> now <= cache[k].expiresAt) ==>
              exists kept: map<Key, Entry> :: after == kept[key := e] && |kept| == 14336
                                              && forall k :: k in kept ==> k in cache && kept[k] == cache[k]
  {
    if |cache| == 16384 {
      var kept: map<Key, Entry> :| Evicts(cache, now, kept) && after == kept[key := e];
      var live := Unexpired(cache, now);
      if k :| k in cache && cache[k].expiresAt < now {
        assert live.Keys <= cache.Keys - {k};
        SubsetSize(live.Keys, cache.Keys - {k});
        assert |live| == |live.Keys| && |kept| == |kept.Keys|;
        SameSizeSubset(kept.Keys, live.Keys);
      } else {
        assert live == cache;
      }
    }
  }

  lemma SameSizeSubset<T>(a: set<T>, b: set<T>)
    requires a <= b && |a| == |b|
    ensures a == b
  {
    if x :| x in b && x !in a {
      SubsetSize(a, b - {x});
    }
  }
}
