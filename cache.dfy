/** The film cache of cache.py: a key-value store whose entries carry the time they were written and
    are treated as absent once older than 30 days. The store handle is `filmsDb`; `close` drops it.
    The clock is an integer number of seconds passed in by the caller in place of `datetime.now()`,
    and a stored timestamp is either such a number or text that does not parse as a date. */
module FilmCache {
  import opened Wrappers

  const ExpirationDays := 30
  const SecondsPerDay := 86400
  const TtlSeconds := ExpirationDays * SecondsPerDay

  /** The `timestamp` of a stored entry, after `datetime.fromisoformat`. */
  datatype Stamp = Unparseable | At(seconds: int)

  /** A stored value. `Corrupt` is text that is not JSON or has no `timestamp` key; an `Entry`
      whose `data` is None has no `data` key. */
  datatype Entry<V> = Corrupt | Entry(stamp: Stamp, data: Option<V>)

  /** `_is_expired`: older than the expiry period, strictly; a timestamp that does not parse counts
      as expired. */
  predicate IsExpired(stamp: Stamp, now: int)
  {
    match stamp
    case Unparseable => true
    case At(t) => now - t > TtlSeconds
  }

  /** What `clear_expired` deletes: expired entries and those it cannot decode. */
  predicate Stale<V>(e: Entry<V>, now: int)
  {
    e.Corrupt? || IsExpired(e.stamp, now)
  }

  /** What `get_film` returns for a key of an open store. */
  function Lookup<K, V>(db: map<K, Entry<V>>, k: K, now: int): Option<V>
  {
    if k in db && db[k].Entry? && !IsExpired(db[k].stamp, now) then db[k].data else None
  }

  /** The store `clear_expired` leaves behind. */
  function Sweep<K, V>(db: map<K, Entry<V>>, now: int): map<K, Entry<V>>
  {
    map k | k in db && !Stale(db[k], now) :: db[k]
  }

  /** `db` with the keys in `gone` deleted. */
  function Without<K, V>(db: map<K, Entry<V>>, gone: set<K>): map<K, Entry<V>>
  {
    map k | k in db && k !in gone :: db[k]
  }

  /** An entry written at time `t`. */
  function Fresh<V>(v: V, t: int): Entry<V>
  {
    Entry(At(t), Some(v))
  }

  class Cache<K(==), V> {
    var filmsDb: Option<map<K, Entry<V>>>

    /** Opens the store with whatever it already holds. */
    constructor (stored: map<K, Entry<V>>)
      ensures filmsDb == Some(stored)
    {
      filmsDb := Some(stored);
    }

    /** Releases the store; closing a closed cache does nothing. */
    method Close()
      modifies this
      ensures filmsDb == None
    {
      if filmsDb.Some? {
        filmsDb := None;
      }
    }

    /** `get_film`: the data stored for `k` unless it is missing, expired or undecodable; a closed
        store raises inside the try block, so None as well. */
    method GetFilm(k: K, now: int) returns (r: Option<V>)
      ensures filmsDb.None? ==> r == None
      ensures filmsDb.Some? ==> r == Lookup(filmsDb.value, k, now)
      ensures r.Some? ==> filmsDb.Some? && k in filmsDb.value && filmsDb.value[k] == Entry(filmsDb.value[k].stamp, r)
      ensures r.Some? ==> !IsExpired(filmsDb.value[k].stamp, now)
    {
      r := None;
      if filmsDb.Some? && k in filmsDb.value {
        var cached := filmsDb.value[k];
        if cached.Entry? && !IsExpired(cached.stamp, now) {
          r := cached.data;
        }
      }
    }

    /** `set_film`: writes `v` under `k` stamped with the current time; other keys are untouched.
        On a closed store the write raises and is swallowed. */
    method SetFilm(k: K, v: V, now: int)
      modifies this
      ensures old(filmsDb).None? ==> filmsDb == None
      ensures old(filmsDb).Some? ==> filmsDb == Some(old(filmsDb).value[k := Fresh(v, now)])
    {
      if filmsDb.Some? {
        filmsDb := Some(filmsDb.value[k := Fresh(v, now)]);
      }
    }

    /** `clear_expired`: first collects the stale keys, then deletes them one by one. On a closed
        store it raises (`ok` is false) and nothing changes. */
    method ClearExpired(now: int) returns (ok: bool)
      modifies this
      ensures ok == old(filmsDb).Some?
      ensures old(filmsDb).None? ==> filmsDb == None
      ensures old(filmsDb).Some? ==> filmsDb == Some(Sweep(old(filmsDb).value, now))
    {
      if filmsDb.None? {
        return false;
      }
      ok := true;
      var db := filmsDb.value;
      var expiredKeys: set<K> := {};
      var unseen := db.Keys;
      while unseen != {}
        invariant unseen <= db.Keys
        invariant expiredKeys == set k | k in db.Keys - unseen && Stale(db[k], now)
        decreases unseen
      {
        var k :| k in unseen;
        if Stale(db[k], now) {
          expiredKeys := expiredKeys + {k};
        }
        unseen := unseen - {k};
      }
      var pending := expiredKeys;
      assert Without(db, expiredKeys - pending) == db;
      while pending != {}
        invariant pending <= expiredKeys
        invariant filmsDb == Some(Without(db, expiredKeys - pending))
        decreases pending
      {
        var k :| k in pending;
        assert Without(db, expiredKeys - pending) - {k} == Without(db, expiredKeys - (pending - {k}));
        filmsDb := Some(filmsDb.value - {k});
        pending := pending - {k};
      }
      assert expiredKeys - pending == expiredKeys;
      assert Without(db, expiredKeys) == Sweep(db, now);
    }
  }

  /** Written entries are read back unchanged until they are older than the expiry period, and
      read as absent from then on; writing one key leaves every other key's reading as it was. */
  lemma SetThenGet<K, V>(db: map<K, Entry<V>>, k: K, v: V, written: int, now: int, other: K)
    requires written <= now
    ensures now - written <= TtlSeconds ==> Lookup(db[k := Fresh(v, written)], k, now) == Some(v)
    ensures now - written > TtlSeconds ==> Lookup(db[k := Fresh(v, written)], k, now) == None
    ensures other != k ==> Lookup(db[k := Fresh(v, written)], other, now) == Lookup(db, other, now)
  {
  }

  /** An age of exactly 30 days is not yet expired; one second more is. */
  lemma ExpiryBoundary(t: int)
    ensures !IsExpired(At(t), t + 30 * 86400)
    ensures IsExpired(At(t), t + 30 * 86400 + 1)
    ensures IsExpired(Unparseable, t)
  {
  }

  /** A read never returns expired data. */
  lemma LookupFresh<K, V>(db: map<K, Entry<V>>, k: K, now: int)
    ensures Lookup(db, k, now).Some? ==> k in db && db[k].Entry? && !Stale(db[k], now)
  {
  }

  /** Clearing is invisible to reads at the same clock, keeps exactly the non-stale entries, and
      is idempotent. */
  lemma SweepSpec<K, V>(db: map<K, Entry<V>>, now: int)
    ensures forall k :: Lookup(Sweep(db, now), k, now) == Lookup(db, k, now)
    ensures forall k :: k in Sweep(db, now) <==> k in db && !Stale(db[k], now)
    ensures Sweep(Sweep(db, now), now) == Sweep(db, now)
  {
  }

  /** Clearing at one time and then at a later time is the same as clearing only at the later time:
      whatever was stale stays stale as the clock advances. */
  lemma SweepLater<K, V>(db: map<K, Entry<V>>, t1: int, t2: int)
    requires t1 <= t2
    ensures Sweep(Sweep(db, t1), t2) == Sweep(db, t2)
  {
    assert forall k :: k in db && !Stale(db[k], t2) ==> !Stale(db[k], t1);
  }
}
