/** The breadth-first crawl of imdb_crawler.py: a FIFO queue of (title id, depth) pairs, a visited
    set, an in-memory id -> Movie cache that only accepts titles passing the year/rating/votes
    filter, the crawl statistics, and the checkpoint merge that writes the cache into the on-disk
    database. The title pages and the "related titles" lookups are parameters: `site` holds the
    pages that can be fetched and `related` the related ids each lookup returns. */
module ImdbCrawler {
  import opened Wrappers
  import opened Counts
  import opened ImdbScraper

  /** The ten seed titles, enqueued in this order at depth 0. */
  const SeedMovies: seq<string> := [
    "tt0111161", "tt0068646", "tt0468569", "tt0071562", "tt0050083",
    "tt0108052", "tt0167260", "tt0110912", "tt0120737", "tt0060196"]

  /** A checkpoint is written whenever the cache size is a multiple of this. */
  const SaveEvery := 50

  function Max(a: int, b: int): int
  {
    if a >= b then a else b
  }

  // ----- crawl statistics -----

  class CrawlStats {
    var totalMoviesFound: int
    var totalMoviesProcessed: int
    var successfulScrapes: int
    var failedScrapes: int
    var duplicateMovies: int
    var moviesByYear: seq<(int, int)>
    var moviesByGenre: seq<(string, int)>
    var depthReached: int
    var moviesAtDepth: seq<(int, int)>

    /** The identities `update` keeps (see `Consistent`). */
    predicate Valid()
      reads this
    {
      Consistent(totalMoviesFound, totalMoviesProcessed, successfulScrapes, failedScrapes, duplicateMovies,
                 moviesByYear, moviesByGenre, depthReached, moviesAtDepth)
    }

    constructor()
      ensures Valid()
      ensures totalMoviesFound == 0 && totalMoviesProcessed == 0 && successfulScrapes == 0
      ensures failedScrapes == 0 && duplicateMovies == 0 && depthReached == 0
      ensures moviesByYear == [] && moviesByGenre == [] && moviesAtDepth == []
    {
      totalMoviesFound := 0;
      totalMoviesProcessed := 0;
      successfulScrapes := 0;
      failedScrapes := 0;
      duplicateMovies := 0;
      moviesByYear := [];
      moviesByGenre := [];
      depthReached := 0;
      moviesAtDepth := [];
    }

    /** `CrawlStats.update`: one processed title, scraped (`movie` present) or not, new or a
        duplicate, at the given depth. */
    method Update(movie: Option<Movie>, isDuplicate: bool, depth: int)
      requires Valid()
      modifies this
      ensures Valid()
      ensures totalMoviesProcessed == old(totalMoviesProcessed) + 1
      ensures depthReached == Max(old(depthReached), depth)
      ensures moviesAtDepth == Incr(old(moviesAtDepth), depth)
      ensures movie.None? ==>
        failedScrapes == old(failedScrapes) + 1 && successfulScrapes == old(successfulScrapes) &&
        totalMoviesFound == old(totalMoviesFound) && duplicateMovies == old(duplicateMovies) &&
        moviesByYear == old(moviesByYear) && moviesByGenre == old(moviesByGenre)
      ensures movie.Some? && !isDuplicate ==>
        successfulScrapes == old(successfulScrapes) + 1 && failedScrapes == old(failedScrapes) &&
        totalMoviesFound == old(totalMoviesFound) + 1 && duplicateMovies == old(duplicateMovies) &&
        moviesByYear == Incr(old(moviesByYear), movie.value.year) &&
        moviesByGenre == IncrAll(old(moviesByGenre), movie.value.genres)
      ensures movie.Some? && isDuplicate ==>
        successfulScrapes == old(successfulScrapes) + 1 && failedScrapes == old(failedScrapes) &&
        totalMoviesFound == old(totalMoviesFound) && duplicateMovies == old(duplicateMovies) + 1 &&
        moviesByYear == old(moviesByYear) && moviesByGenre == old(moviesByGenre)
    {
      UpdateConsistent(totalMoviesFound, totalMoviesProcessed, successfulScrapes, failedScrapes, duplicateMovies,
                       moviesByYear, moviesByGenre, depthReached, moviesAtDepth, movie, isDuplicate, depth);
      var successful, failed, found, duplicates := successfulScrapes, failedScrapes, totalMoviesFound, duplicateMovies;
      var byYear, byGenre := moviesByYear, moviesByGenre;
      if movie.Some? {
        successful := successful + 1;
        if !isDuplicate {
          found := found + 1;
          byYear := Incr(byYear, movie.value.year);
          byGenre := CountEach(byGenre, movie.value.genres);
        } else {
          duplicates := duplicates + 1;
        }
      } else {
        failed := failed + 1;
      }
      totalMoviesProcessed, depthReached, moviesAtDepth :=
        totalMoviesProcessed + 1, Max(depthReached, depth), Incr(moviesAtDepth, depth);
      successfulScrapes, failedScrapes, totalMoviesFound, duplicateMovies := successful, failed, found, duplicates;
      moviesByYear, moviesByGenre := byYear, byGenre;
    }
  }

  /** The identities `update` keeps: every processed title is a success or a failure, every
      success is new or a duplicate, the per-depth and per-year counters add up, and the deepest
      depth seen is recorded. */
  predicate Consistent(found: int, processed: int, successful: int, failed: int, duplicates: int,
                       byYear: seq<(int, int)>, byGenre: seq<(string, int)>, reached: int, atDepth: seq<(int, int)>)
  {
    processed == successful + failed &&
    successful == found + duplicates &&
    Total(atDepth) == processed &&
    Total(byYear) == found &&
    UniqueKeys(atDepth) && UniqueKeys(byYear) && UniqueKeys(byGenre) &&
    reached >= 0 &&
    (forall e :: e in atDepth ==> e.0 <= reached) &&
    (reached == 0 || HasKey(atDepth, reached))
  }

  /** One `update` keeps the identities: a failure, a new title or a duplicate at `depth`. */
  lemma UpdateConsistent(found: int, processed: int, successful: int, failed: int, duplicates: int,
                         byYear: seq<(int, int)>, byGenre: seq<(string, int)>, reached: int,
                         atDepth: seq<(int, int)>, movie: Option<Movie>, isDuplicate: bool, depth: int)
    requires Consistent(found, processed, successful, failed, duplicates, byYear, byGenre, reached, atDepth)
    ensures var isNew := movie.Some? && !isDuplicate;
      Consistent(if isNew then found + 1 else found,
                 processed + 1,
                 if movie.Some? then successful + 1 else successful,
                 if movie.None? then failed + 1 else failed,
                 if movie.Some? && isDuplicate then duplicates + 1 else duplicates,
                 if isNew then Incr(byYear, movie.value.year) else byYear,
                 if isNew then IncrAll(byGenre, movie.value.genres) else byGenre,
                 Max(reached, depth), Incr(atDepth, depth))
  {
    DepthStep(atDepth, reached, depth);
    if movie.Some? && !isDuplicate {
      IncrTotal(byYear, movie.value.year);
      IncrUnique(byYear, movie.value.year);
      IncrAllUnique(byGenre, movie.value.genres);
    }
  }

  /** Counting one more title at `depth` keeps the per-depth counter consistent with the deepest
      depth recorded. */
  lemma DepthStep(atDepth: seq<(int, int)>, reached: int, depth: int)
    requires UniqueKeys(atDepth) && reached >= 0
    requires forall e :: e in atDepth ==> e.0 <= reached
    requires reached == 0 || HasKey(atDepth, reached)
    ensures var c := Incr(atDepth, depth); var r := Max(reached, depth);
      UniqueKeys(c) && Total(c) == Total(atDepth) + 1 && r >= 0 &&
      (forall e :: e in c ==> e.0 <= r) && (r == 0 || HasKey(c, r))
  {
    IncrTotal(atDepth, depth);
    IncrUnique(atDepth, depth);
    IncrKeepsKeys(atDepth, depth);
    forall e | e in Incr(atDepth, depth) ensures e.0 <= Max(reached, depth) {
      IncrKeys(atDepth, depth, e);
      if e.0 != depth {
        var i :| 0 <= i < |atDepth| && atDepth[i].0 == e.0;
        assert atDepth[i] in atDepth;
      }
    }
  }

  /** Every key of a counter after `c[k] += 1` is `k` or a key it had before. */
  lemma {:induction false} IncrKeys<K>(c: seq<(K, int)>, k: K, e: (K, int))
    requires e in Incr(c, k)
    ensures e.0 == k || HasKey(c, e.0)
  {
    if c != [] && c[0].0 != k {
      if e != c[0] {
        IncrKeys(c[1..], k, e);
        if HasKey(c[1..], e.0) {
          var i :| 0 <= i < |c| - 1 && c[1..][i].0 == e.0;
          assert c[i + 1].0 == e.0;
        }
      } else {
        assert c[0].0 == e.0;
      }
    }
  }

  // ----- the checkpoint merge -----

  /** The database file is a list of movie records; the merge keys them by `imdb_id`. */
  predicate UniqueIds(s: seq<Movie>)
  {
    forall i, j :: 0 <= i < j < |s| ==> s[i].imdbId != s[j].imdbId
  }

  function Ids(s: seq<Movie>): set<string>
  {
    set m | m in s :: m.imdbId
  }

  /** `existing[m["imdb_id"]] = m` on a dict kept in insertion order: a record with the same id is
      replaced in place, otherwise the record is appended. */
  function Upsert(d: seq<Movie>, m: Movie): seq<Movie>
  {
    if d == [] then [m]
    else if d[0].imdbId == m.imdbId then [m] + d[1..]
    else [d[0]] + Upsert(d[1..], m)
  }

  /** Upserting the records of `ms` one after the other. */
  function UpsertAll(d: seq<Movie>, ms: seq<Movie>): seq<Movie>
  {
    if ms == [] then d else Upsert(UpsertAll(d, ms[..|ms| - 1]), ms[|ms| - 1])
  }

  /** `_save_progress`: the file's records are loaded into a dict, then every cached record is
      written over it; the dict's values in order are the new file. */
  function Merge(onDisk: seq<Movie>, inMemory: seq<Movie>): seq<Movie>
  {
    UpsertAll(UpsertAll([], onDisk), inMemory)
  }

  lemma IdsCons(x: Movie, s: seq<Movie>)
    ensures Ids([x] + s) == {x.imdbId} + Ids(s)
  {
    assert forall m :: m in [x] + s <==> m == x || m in s;
  }

  lemma UniqueCons(x: Movie, s: seq<Movie>)
    ensures UniqueIds([x] + s) <==> x.imdbId !in Ids(s) && UniqueIds(s)
  {
    if UniqueIds([x] + s) {
      UniqueConsSplit(x, s);
    }
    if x.imdbId !in Ids(s) && UniqueIds(s) {
      UniqueConsJoin(x, s);
    }
  }

  lemma UniqueConsSplit(x: Movie, s: seq<Movie>)
    requires UniqueIds([x] + s)
    ensures x.imdbId !in Ids(s) && UniqueIds(s)
  {
    var t := [x] + s;
    forall i, j | 0 <= i < j < |s| ensures s[i].imdbId != s[j].imdbId {
      assert t[i + 1] == s[i] && t[j + 1] == s[j];
    }
    forall y | y in s ensures y.imdbId != x.imdbId {
      var i :| 0 <= i < |s| && s[i] == y;
      assert t[i + 1] == y && t[0] == x;
    }
  }

  lemma UniqueConsJoin(x: Movie, s: seq<Movie>)
    requires x.imdbId !in Ids(s) && UniqueIds(s)
    ensures UniqueIds([x] + s)
  {
    var t := [x] + s;
    forall i, j | 0 <= i < j < |t| ensures t[i].imdbId != t[j].imdbId {
      assert t[j] == s[j - 1];
      if i == 0 {
        assert s[j - 1] in s;
        assert s[j - 1].imdbId in Ids(s);
      } else {
        assert t[i] == s[i - 1];
      }
    }
  }

  /** One upsert adds the new record's id to the ids there were. */
  lemma {:induction false} UpsertIds(d: seq<Movie>, m: Movie)
    ensures Ids(Upsert(d, m)) == Ids(d) + {m.imdbId}
  {
    if d == [] {
      assert Ids([m]) == {m.imdbId} by { IdsCons(m, []); }
    } else {
      assert d == [d[0]] + d[1..];
      IdsCons(d[0], d[1..]);
      if d[0].imdbId == m.imdbId {
        IdsCons(m, d[1..]);
      } else {
        UpsertIds(d[1..], m);
        IdsCons(d[0], Upsert(d[1..], m));
      }
    }
  }

  /** One upsert keeps the ids distinct. */
  lemma {:induction false} UpsertUnique(d: seq<Movie>, m: Movie)
    requires UniqueIds(d)
    ensures UniqueIds(Upsert(d, m))
  {
    if d != [] {
      assert d == [d[0]] + d[1..];
      UniqueCons(d[0], d[1..]);
      if d[0].imdbId == m.imdbId {
        UniqueCons(m, d[1..]);
      } else {
        UpsertUnique(d[1..], m);
        UpsertIds(d[1..], m);
        UniqueCons(d[0], Upsert(d[1..], m));
      }
    }
  }

  /** After one upsert the new record is present and every record with another id is kept. */
  lemma {:induction false} UpsertKeeps(d: seq<Movie>, m: Movie)
    ensures m in Upsert(d, m)
    ensures forall x :: x in d && x.imdbId != m.imdbId ==> x in Upsert(d, m)
  {
    if d != [] && d[0].imdbId != m.imdbId {
      UpsertKeeps(d[1..], m);
      assert d == [d[0]] + d[1..];
    } else if d != [] {
      assert d == [d[0]] + d[1..];
    }
  }

  /** Upserting a record whose id is absent appends it. */
  lemma {:induction false} UpsertAbsent(d: seq<Movie>, m: Movie)
    requires m.imdbId !in Ids(d)
    ensures Upsert(d, m) == d + [m]
  {
    if d != [] {
      assert d == [d[0]] + d[1..];
      IdsCons(d[0], d[1..]);
      UpsertAbsent(d[1..], m);
    }
  }

  /** Upserting a record that is already there changes nothing. */
  lemma {:induction false} UpsertPresent(d: seq<Movie>, m: Movie)
    requires UniqueIds(d) && m in d
    ensures Upsert(d, m) == d
  {
    assert d == [d[0]] + d[1..];
    UniqueCons(d[0], d[1..]);
    if d[0] != m {
      assert m in d[1..];
      assert d[0].imdbId != m.imdbId;
      UpsertPresent(d[1..], m);
    }
  }

  /** The ids after upserting a list are those before plus those of the list. */
  lemma {:induction false} UpsertAllIds(d: seq<Movie>, ms: seq<Movie>)
    ensures Ids(UpsertAll(d, ms)) == Ids(d) + Ids(ms)
    ensures UniqueIds(d) ==> UniqueIds(UpsertAll(d, ms))
  {
    if ms != [] {
      var init := ms[..|ms| - 1];
      var last := ms[|ms| - 1];
      UpsertAllIds(d, init);
      UpsertIds(UpsertAll(d, init), last);
      if UniqueIds(d) {
        UpsertUnique(UpsertAll(d, init), last);
      }
      assert ms == init + [last];
      IdsSnoc(init, last);
    }
  }

  lemma IdsSnoc(s: seq<Movie>, x: Movie)
    ensures Ids(s + [x]) == Ids(s) + {x.imdbId}
  {
    assert forall m :: m in s + [x] <==> m in s || m == x;
  }

  /** Upserting a list keeps every record of `d` whose id the list does not have, and, when the
      list's ids are distinct, leaves every record of the list present. */
  lemma {:induction false} UpsertAllKeeps(d: seq<Movie>, ms: seq<Movie>)
    ensures UniqueIds(ms) ==> forall m :: m in ms ==> m in UpsertAll(d, ms)
    ensures forall x :: x in d && x.imdbId !in Ids(ms) ==> x in UpsertAll(d, ms)
  {
    if ms != [] {
      var init := ms[..|ms| - 1];
      var last := ms[|ms| - 1];
      UpsertAllKeeps(d, init);
      UpsertKeeps(UpsertAll(d, init), last);
      assert ms == init + [last];
      assert forall x :: x in ms <==> x in init || x == last;
      assert Ids(init) <= Ids(ms);
      if UniqueIds(ms) {
        UniqueSnoc(init, last);
      }
    }
  }

  lemma UniqueSnoc(s: seq<Movie>, x: Movie)
    requires UniqueIds(s + [x])
    ensures UniqueIds(s) && x.imdbId !in Ids(s)
  {
    var t := s + [x];
    forall i, j | 0 <= i < j < |s| ensures s[i].imdbId != s[j].imdbId {
      assert t[i] == s[i] && t[j] == s[j];
    }
    forall y | y in s ensures y.imdbId != x.imdbId {
      var i :| 0 <= i < |s| && s[i] == y;
      assert t[i] == y && t[|s|] == x;
    }
  }

  lemma {:induction false} UpsertAllAppend(d: seq<Movie>, a: seq<Movie>, c: seq<Movie>)
    ensures UpsertAll(d, a + c) == UpsertAll(UpsertAll(d, a), c)
  {
    if c == [] {
      assert a + c == a;
    } else {
      UpsertAllAppend(d, a, c[..|c| - 1]);
      assert (a + c)[..|a + c| - 1] == a + c[..|c| - 1];
    }
  }

  lemma {:induction false} UpsertAllPresent(d: seq<Movie>, ms: seq<Movie>)
    requires UniqueIds(d) && forall m :: m in ms ==> m in d
    ensures UpsertAll(d, ms) == d
  {
    if ms != [] {
      UpsertAllPresent(d, ms[..|ms| - 1]);
      UpsertPresent(d, ms[|ms| - 1]);
    }
  }

  /** Loading a file whose ids are distinct gives back the same records in the same order. */
  lemma {:induction false} UpsertAllFresh(s: seq<Movie>)
    requires UniqueIds(s)
    ensures UpsertAll([], s) == s
  {
    if s != [] {
      var init := s[..|s| - 1];
      var last := s[|s| - 1];
      assert s == init + [last];
      UniqueSnoc(init, last);
      UpsertAllFresh(init);
      UpsertAbsent(init, last);
    }
  }

  /** The checkpoint merge: the file afterwards holds every id that was on disk or in memory, each
      once; every cached record is there as it is in memory; an on-disk record survives when
      memory has no record with its id. */
  lemma MergeSpec(onDisk: seq<Movie>, inMemory: seq<Movie>)
    ensures Ids(Merge(onDisk, inMemory)) == Ids(onDisk) + Ids(inMemory)
    ensures UniqueIds(Merge(onDisk, inMemory))
    ensures UniqueIds(inMemory) ==> forall m :: m in inMemory ==> m in Merge(onDisk, inMemory)
    ensures UniqueIds(onDisk) ==>
      forall x :: x in onDisk && x.imdbId !in Ids(inMemory) ==> x in Merge(onDisk, inMemory)
  {
    UpsertAllIds([], onDisk);
    assert UniqueIds([]);
    assert Ids([]) == {};
    UpsertAllIds(UpsertAll([], onDisk), inMemory);
    UpsertAllKeeps(UpsertAll([], onDisk), inMemory);
    if UniqueIds(onDisk) {
      UpsertAllFresh(onDisk);
    }
  }

  /** Saving a database over itself changes nothing. */
  lemma MergeSelf(s: seq<Movie>)
    requires UniqueIds(s)
    ensures Merge(s, s) == s
  {
    UpsertAllFresh(s);
    UpsertAllPresent(s, s);
  }

  /** Saving a prefix of the cache and later the whole cache gives the same file as saving the
      whole cache once: periodic checkpoints lose nothing and add nothing. */
  lemma MergeCheckpoint(onDisk: seq<Movie>, saved: seq<Movie>, all: seq<Movie>)
    requires UniqueIds(all) && saved <= all
    ensures Merge(Merge(onDisk, saved), all) == Merge(onDisk, all)
  {
    var u := UpsertAll([], onDisk);
    var first := UpsertAll(u, saved);
    var rest := all[|saved|..];
    assert all == saved + rest;
    assert UniqueIds(saved);
    MergeSpec(onDisk, saved);
    UpsertAllFresh(first);
    UpsertAllAppend(first, saved, rest);
    UpsertAllKeeps(u, saved);
    UpsertAllPresent(first, saved);
    UpsertAllAppend(u, saved, rest);
  }

  /** The records `to_dict` makes of the cache, in the cache's insertion order. */
  function Records(cache: map<string, Movie>, order: seq<string>): (r: seq<Movie>)
    requires forall k :: k in order ==> k in cache
    ensures |r| == |order|
    ensures forall i :: 0 <= i < |order| ==> r[i] == ToDict(cache[order[i]])
  {
    if order == [] then []
    else Records(cache, order[..|order| - 1]) + [ToDict(cache[order[|order| - 1]])]
  }

  /** When every cached movie carries its own key as id and the order lists each key once, the
      records have distinct ids, exactly the keys. */
  lemma RecordsIds(cache: map<string, Movie>, order: seq<string>)
    requires forall k :: k in order ==> k in cache && cache[k].imdbId == k
    requires Distinct(order)
    ensures Ids(Records(cache, order)) == set k | k in order
    ensures UniqueIds(Records(cache, order))
    ensures |Records(cache, order)| == |order|
  {
    var r := Records(cache, order);
    forall i | 0 <= i < |r| ensures r[i].imdbId == order[i] {
      assert order[i] in order;
    }
    forall x | x in Ids(r) ensures x in order {
      var m :| m in r && m.imdbId == x;
      var i :| 0 <= i < |r| && r[i] == m;
    }
    forall x | x in order ensures x in Ids(r) {
      var i :| 0 <= i < |order| && order[i] == x;
      assert r[i] in r;
    }
  }

  /** Records of a cache that grew, in an order that grew, extend the records before. */
  lemma {:induction false} RecordsGrow(cache: map<string, Movie>, order: seq<string>,
                                       bigger: map<string, Movie>, biggerOrder: seq<string>)
    requires order <= biggerOrder
    requires forall k :: k in order ==> k in cache && k in bigger && bigger[k] == cache[k]
    requires forall k :: k in biggerOrder ==> k in bigger
    ensures Records(cache, order) <= Records(bigger, biggerOrder)
    decreases |biggerOrder|
  {
    if |biggerOrder| == |order| {
      assert order == biggerOrder;
      RecordsSame(cache, bigger, order);
    } else {
      var init := biggerOrder[..|biggerOrder| - 1];
      assert order <= init;
      RecordsGrow(cache, order, bigger, init);
    }
  }

  lemma {:induction false} RecordsSame(cache: map<string, Movie>, bigger: map<string, Movie>, order: seq<string>)
    requires forall k :: k in order ==> k in cache && k in bigger && bigger[k] == cache[k]
    ensures Records(cache, order) == Records(bigger, order)
  {
    if order != [] {
      RecordsSame(cache, bigger, order[..|order| - 1]);
    }
  }

  // ----- the crawler -----

  function QueueIds(q: seq<(string, int)>): set<string>
  {
    set e | e in q :: e.0
  }

  /** The related titles the lookup returns for `id`; a failed lookup returns none. */
  function RelatedOf(related: map<string, set<string>>, id: string): set<string>
  {
    if id in related then related[id] else {}
  }

  /** Every id some lookup can return. */
  function AllRelated(related: map<string, set<string>>): set<string>
  {
    set id, k | k in related && id in related[k] :: id
  }

  class IMDBCrawler {
    const targetCount: int
    const minYear: int
    const minRating: real
    const minVotes: int
    const maxDepth: int
    const seedMovies: seq<string>
    const stats: CrawlStats
    var movieCache: map<string, Movie>
    /** The keys of `movieCache` in insertion order (Python dicts keep it). */
    var cacheOrder: seq<string>
    var queue: seq<(string, int)>
    var visited: set<string>
    /** The contents of the database file. */
    var saved: seq<Movie>
    /** The ids whose related titles the last crawl enqueued. */
    ghost var expanded: set<string>
    /** For each id the last crawl processed, the depth at which it was processed. */
    ghost var depthOf: map<string, int>

    /** The deepest depth anything can be queued at: seeds are at 0, children at most at
        `maxDepth`. */
    function DepthBound(): int
    {
      Max(maxDepth, 0)
    }

    /** The acceptance filter. */
    predicate Accepts(m: Movie)
    {
      m.year >= minYear && m.rating >= minRating && m.numVotes >= minVotes
    }

    /** The scraper returns a movie for the id and that movie passes the filter. */
    predicate Admissible(site: map<string, Page>, id: string)
    {
      var m := Scrape(id, PageOf(site, id));
      m.Some? && Accepts(m.value)
    }

    /** The crawler's own bookkeeping: every cached movie was visited, carries its key as id and
        passed the filter; the insertion order lists each cached id once; every queued depth is
        within bounds. */
    ghost predicate CacheValid()
      reads this`expanded, this`movieCache, this`visited, this`cacheOrder, this`queue
    {
      expanded <= movieCache.Keys &&
      (forall k :: k in movieCache ==> k in visited && movieCache[k].imdbId == k && Accepts(movieCache[k])) &&
      (forall k :: k in cacheOrder <==> k in movieCache) &&
      Distinct(cacheOrder) &&
      (forall e :: e in queue ==> 0 <= e.1 <= DepthBound())
    }

    /** The crawl invariant: the statistics are consistent in themselves and with the crawler:
        one processed title per visited id, one found title per cached movie, no duplicates, and
        no depth beyond the bound. */
    ghost predicate Valid()
      reads this`expanded, this`movieCache, this`visited, this`cacheOrder, this`queue, stats
    {
      Counted(0)
    }

    /** `Valid` while `pending` visited ids are still to be counted as processed. */
    ghost predicate Counted(pending: int)
      reads this`expanded, this`movieCache, this`visited, this`cacheOrder, this`queue, stats
    {
      stats.Valid() && CacheValid() &&
      stats.depthReached <= DepthBound() &&
      stats.duplicateMovies == 0 &&
      stats.totalMoviesFound == |cacheOrder| &&
      stats.totalMoviesProcessed + pending == |visited|
    }

    constructor(targetMovieCount: int, minYear: int, minRating: real, minVotes: int, maxDepth: int,
                onDisk: seq<Movie>)
      ensures Valid()
      ensures this.targetCount == targetMovieCount && this.minYear == minYear
      ensures this.minRating == minRating && this.minVotes == minVotes && this.maxDepth == maxDepth
      ensures seedMovies == SeedMovies && saved == onDisk
      ensures movieCache == map[] && cacheOrder == [] && queue == [] && visited == {}
      ensures fresh(stats)
    {
      this.targetCount := targetMovieCount;
      this.minYear := minYear;
      this.minRating := minRating;
      this.minVotes := minVotes;
      this.maxDepth := maxDepth;
      seedMovies := SeedMovies;
      stats := new CrawlStats();
      movieCache := map[];
      cacheOrder := [];
      queue := [];
      visited := {};
      saved := onDisk;
      expanded := {};
      depthOf := map[];
    }

    function CacheRecords(): seq<Movie>
      reads this`movieCache, this`cacheOrder
      requires forall k :: k in cacheOrder ==> k in movieCache
    {
      Records(movieCache, cacheOrder)
    }

    /** `_save_progress`: the file becomes the merge of its records with the cache's. */
    method SaveProgress()
      requires forall k :: k in cacheOrder ==> k in movieCache
      modifies this`saved
      ensures saved == Merge(old(saved), CacheRecords())
    {
      var existing: seq<Movie> := [];
      for i := 0 to |saved|
        invariant existing == UpsertAll([], saved[..i])
      {
        assert saved[..i + 1][..i] == saved[..i];
        existing := Upsert(existing, saved[i]);
      }
      assert saved[..|saved|] == saved;
      for i := 0 to |cacheOrder|
        invariant existing == UpsertAll(UpsertAll([], saved), Records(movieCache, cacheOrder[..i]))
      {
        assert cacheOrder[..i + 1][..i] == cacheOrder[..i];
        existing := Upsert(existing, ToDict(movieCache[cacheOrder[i]]));
      }
      assert cacheOrder[..|cacheOrder|] == cacheOrder;
      saved := existing;
    }

    /** The seed loop at the start of `crawl`: the seeds are appended in order, all at depth 0. */
    method EnqueueSeeds()
      modifies this`queue
      ensures |queue| == |old(queue)| + |seedMovies|
      ensures queue[..|old(queue)|] == old(queue)
      ensures forall i :: 0 <= i < |seedMovies| ==> queue[|old(queue)| + i] == (seedMovies[i], 0)
    {
      for i := 0 to |seedMovies|
        invariant |queue| == |old(queue)| + i
        invariant queue[..|old(queue)|] == old(queue)
        invariant forall j :: 0 <= j < i ==> queue[|old(queue)| + j] == (seedMovies[j], 0)
      {
        queue := queue + [(seedMovies[i], 0)];
      }
    }

    /** The expansion step: every related id not yet visited is appended at `depth + 1` (in the
        set's iteration order, which the model leaves open). */
    method EnqueueRelated(ids: set<string>, depth: int)
      modifies this`queue
      ensures |queue| >= |old(queue)| && queue[..|old(queue)|] == old(queue)
      ensures forall j :: |old(queue)| <= j < |queue| ==>
        queue[j].0 in ids && queue[j].0 !in visited && queue[j].1 == depth + 1
      ensures forall r :: r in ids && r !in visited ==> r in QueueIds(queue)
    {
      var rest := ids;
      while rest != {}
        invariant rest <= ids
        invariant |queue| >= |old(queue)| && queue[..|old(queue)|] == old(queue)
        invariant forall j :: |old(queue)| <= j < |queue| ==>
          queue[j].0 in ids && queue[j].0 !in visited && queue[j].1 == depth + 1
        invariant forall r :: r in ids - rest && r !in visited ==> r in QueueIds(queue)
        decreases |rest|
      {
        var relatedId :| relatedId in rest;
        rest := rest - {relatedId};
        if relatedId !in visited {
          queue := queue + [(relatedId, depth + 1)];
          assert queue[|queue| - 1] in queue;
        }
      }
    }

    /** The accepted branch of the crawl loop: the movie is not cached yet (it was just visited),
        so it is cached and counted as found, and below `maxDepth` its related titles are
        queued. */
    method Admit(movieId: string, movie: Movie, depth: int, relatedIds: set<string>)
      requires Counted(1)
      requires movieId in visited && 0 <= depth <= DepthBound()
      requires movieId !in movieCache
      requires movie.imdbId == movieId && Accepts(movie)
      modifies this`movieCache, this`cacheOrder, this`queue, this`expanded, stats
      ensures Valid()
      ensures movieCache == old(movieCache)[movieId := movie] && cacheOrder == old(cacheOrder) + [movieId]
      ensures expanded == if depth < maxDepth then old(expanded) + {movieId} else old(expanded)
      ensures depth >= maxDepth ==> queue == old(queue)
      ensures |queue| >= |old(queue)| && queue[..|old(queue)|] == old(queue)
      ensures forall j :: |old(queue)| <= j < |queue| ==>
        queue[j].0 in relatedIds && queue[j].0 !in visited && queue[j].1 == depth + 1
      ensures movieId in expanded ==> forall r :: r in relatedIds ==> r in visited || r in QueueIds(queue)
    {
      if movieId !in movieCache {
        Store(movieId, movie, depth);
        if depth < maxDepth {
          Expand(movieId, depth, relatedIds);
        }
      } else {
        assert false;
      }
    }

    /** The accepted movie enters the cache, at the end of the cache order, and is counted
        as found. */
    method Store(movieId: string, movie: Movie, depth: int)
      requires Counted(1)
      requires movieId in visited && 0 <= depth <= DepthBound()
      requires movieId !in movieCache
      requires movie.imdbId == movieId && Accepts(movie)
      modifies this`movieCache, this`cacheOrder, stats
      ensures Valid()
      ensures movieCache == old(movieCache)[movieId := movie] && cacheOrder == old(cacheOrder) + [movieId]
    {
      AppendDistinct(cacheOrder, movieId);
      movieCache := movieCache[movieId := movie];
      cacheOrder := cacheOrder + [movieId];
      assert CacheValid();
      stats.Update(Some(movie), false, depth);
    }

    /** A cached movie below `maxDepth` is expanded: its related titles not visited yet are
        queued one level deeper. */
    method Expand(movieId: string, depth: int, relatedIds: set<string>)
      requires Valid()
      requires movieId in movieCache && 0 <= depth < maxDepth
      modifies this`queue, this`expanded
      ensures Valid()
      ensures expanded == old(expanded) + {movieId}
      ensures |queue| >= |old(queue)| && queue[..|old(queue)|] == old(queue)
      ensures forall j :: |old(queue)| <= j < |queue| ==>
        queue[j].0 in relatedIds && queue[j].0 !in visited && queue[j].1 == depth + 1
      ensures forall r :: r in relatedIds ==> r in visited || r in QueueIds(queue)
    {
      expanded := expanded + {movieId};
      ghost var before := queue;
      EnqueueRelated(relatedIds, depth);
      QueueDepths(before, queue, DepthBound());
    }

    /** The body of the crawl loop for a popped id not visited yet: mark it visited, scrape it,
        and either cache it (expanding its related titles below `maxDepth`) or count a failure. */
    method Visit(movieId: string, depth: int, site: map<string, Page>, related: map<string, set<string>>)
      requires Valid() && movieId !in visited && 0 <= depth <= DepthBound()
      modifies this`visited, this`movieCache, this`cacheOrder, this`queue, this`expanded, stats
      ensures Valid()
      ensures visited == old(visited) + {movieId}
      ensures var m := Scrape(movieId, PageOf(site, movieId));
        if m.Some? && Accepts(m.value) then
          movieCache == old(movieCache)[movieId := m.value] && cacheOrder == old(cacheOrder) + [movieId] &&
          expanded == if depth < maxDepth then old(expanded) + {movieId} else old(expanded)
        else
          movieCache == old(movieCache) && cacheOrder == old(cacheOrder) && expanded == old(expanded)
      ensures movieId !in expanded ==> queue == old(queue)
      ensures |queue| >= |old(queue)| && queue[..|old(queue)|] == old(queue)
      ensures forall j :: |old(queue)| <= j < |queue| ==>
        queue[j].0 in RelatedOf(related, movieId) && queue[j].0 !in visited && queue[j].1 == depth + 1
      ensures movieId in expanded ==> forall r :: r in RelatedOf(related, movieId) ==> r in visited || r in QueueIds(queue)
    {
      Mark(movieId);
      var movie := ScrapeMovieDetails(movieId, PageOf(site, movieId));
      Settle(movieId, depth, movie, RelatedOf(related, movieId));
    }

    /** The scraped result of a just-visited id decides its fate: a movie that passes the
        filter is admitted, anything else is counted as a failure. */
    method Settle(movieId: string, depth: int, movie: Option<Movie>, relatedIds: set<string>)
      requires Counted(1) && movieId in visited && 0 <= depth <= DepthBound()
      requires movieId !in movieCache && movieId !in expanded
      requires movie.Some? ==> movie.value.imdbId == movieId
      modifies this`movieCache, this`cacheOrder, this`queue, this`expanded, stats
      ensures Valid()
      ensures if movie.Some? && Accepts(movie.value) then
          movieCache == old(movieCache)[movieId := movie.value] && cacheOrder == old(cacheOrder) + [movieId] &&
          expanded == if depth < maxDepth then old(expanded) + {movieId} else old(expanded)
        else
          movieCache == old(movieCache) && cacheOrder == old(cacheOrder) && expanded == old(expanded)
      ensures movieId !in expanded ==> queue == old(queue)
      ensures |queue| >= |old(queue)| && queue[..|old(queue)|] == old(queue)
      ensures forall j :: |old(queue)| <= j < |queue| ==>
        queue[j].0 in relatedIds && queue[j].0 !in visited && queue[j].1 == depth + 1
      ensures movieId in expanded ==> forall r :: r in relatedIds ==> r in visited || r in QueueIds(queue)
    {
      if movie.Some? && Accepts(movie.value) {
        Admit(movieId, movie.value, depth, relatedIds);
      } else {
        Reject(movieId, depth);
      }
    }

    /** `self.visited.add(movie_id)`: the id is now visited but not yet counted as processed. */
    method Mark(movieId: string)
      requires Valid() && movieId !in visited
      modifies this`visited
      ensures Counted(1) && visited == old(visited) + {movieId} && movieId !in movieCache && movieId !in expanded
    {
      visited := visited + {movieId};
    }

    /** A title that could not be scraped or did not pass the filter: counted as a failure. */
    method Reject(movieId: string, depth: int)
      requires Counted(1) && movieId in visited && 0 <= depth <= DepthBound()
      modifies stats
      ensures Valid()
    {
      stats.Update(None, false, depth);
    }

    /** The invariant of the crawl loop, relative to the state the crawl started from
        (`visited0`, `cache0`, `order0`, `saved0`): the crawler stays `Valid`, and the parts
        `FrontierOf`, `KeptOf`, `DepthsOf`, `ClosedOf` and `SavedAs` hold. */
    ghost predicate Progress(site: map<string, Page>, related: map<string, set<string>>, universe: set<string>,
                             visited0: set<string>, cache0: map<string, Movie>, order0: seq<string>,
                             saved0: seq<Movie>, checkpointed: bool, checkpoint: seq<Movie>)
      reads this`expanded, this`movieCache, this`visited, this`cacheOrder, this`queue, this`depthOf, this`saved, stats
    {
      Valid() &&
      FrontierOf(queue, visited, universe, visited0, seedMovies) &&
      KeptOf(movieCache, cacheOrder, site, cache0, order0) &&
      TakenFrom(site, visited0, cache0) &&
      DepthsOf(depthOf, visited, expanded, movieCache, visited0, DepthBound(), maxDepth) &&
      ClosedOf(expanded, visited, queue, related) &&
      SavedAs(saved0, checkpointed, checkpoint)
    }

    /** The cache gains exactly the admissible ids visited in this crawl: the earlier entries were
        visited before it, a new entry was not, and every id visited in this crawl whose scraped
        movie passes the filter is cached. */
    ghost predicate TakenFrom(site: map<string, Page>, visited0: set<string>, cache0: map<string, Movie>)
      reads this`movieCache, this`visited
    {
      (forall k :: k in cache0 ==> k in visited0) &&
      (forall k :: k in movieCache && k !in cache0 ==> k !in visited0) &&
      (forall k :: k in visited && k !in visited0 && Admissible(site, k) ==> k in movieCache)
    }

    /** The file holds the merge of its old records with the last checkpoint of the cache, or
        is untouched if there was none. */
    ghost predicate SavedAs(saved0: seq<Movie>, checkpointed: bool, checkpoint: seq<Movie>)
      reads this`saved, this`movieCache, this`cacheOrder
    {
      (forall k :: k in cacheOrder ==> k in movieCache) &&
      (checkpointed ==> checkpoint <= CacheRecords() && saved == Merge(saved0, checkpoint)) &&
      (!checkpointed ==> saved == saved0)
    }

    /** One turn of the crawl loop: pop the head of the queue and, unless it was visited
        already, process it. Either fewer ids of `universe` are left unvisited, or nothing was
        visited and the queue got shorter. */
    method Step(site: map<string, Page>, related: map<string, set<string>>, ghost universe: set<string>,
                ghost visited0: set<string>, ghost cache0: map<string, Movie>, ghost order0: seq<string>,
                ghost saved0: seq<Movie>, ghost checkpointed: bool, ghost checkpoint: seq<Movie>)
      returns (ghost checkpointed': bool, ghost checkpoint': seq<Movie>)
      requires queue != [] && AllRelated(related) <= universe
      requires Progress(site, related, universe, visited0, cache0, order0, saved0, checkpointed, checkpoint)
      modifies this`queue, this`visited, this`depthOf, this`movieCache, this`cacheOrder, this`expanded, this`saved, stats
      ensures Progress(site, related, universe, visited0, cache0, order0, saved0, checkpointed', checkpoint')
      ensures |universe - visited| < old(|universe - visited|) || (visited == old(visited) && |queue| < old(|queue|))
    {
      ghost var popped := queue;
      var movieId := queue[0].0;
      var depth := queue[0].1;
      assert queue[0] in queue;
      queue := queue[1..];
      if movieId in visited {
        FrontierStep(popped, queue, visited, universe, visited0, seedMovies, {});
        ClosedStep(expanded, expanded, popped, queue, visited, related);
        assert visited + {movieId} == visited;
        return checkpointed, checkpoint;
      }
      assert universe - (visited + {movieId}) == (universe - visited) - {movieId};
      checkpointed', checkpoint' := Process(movieId, depth, site, related, popped, universe, visited0, cache0,
                                            order0, saved0, checkpointed, checkpoint);
    }

    /** The crawl loop's work on a popped id not visited yet: mark it visited, record its
        depth, visit it, and save a checkpoint when the cache size is a multiple of 50. */
    method Process(movieId: string, depth: int, site: map<string, Page>, related: map<string, set<string>>,
                   ghost popped: seq<(string, int)>, ghost universe: set<string>, ghost visited0: set<string>,
                   ghost cache0: map<string, Movie>, ghost order0: seq<string>, ghost saved0: seq<Movie>,
                   ghost checkpointed: bool, ghost checkpoint: seq<Movie>)
      returns (ghost checkpointed': bool, ghost checkpoint': seq<Movie>)
      requires popped != [] && popped[0] == (movieId, depth) && queue == popped[1..]
      requires movieId !in visited && 0 <= depth <= DepthBound() && AllRelated(related) <= universe
      requires Valid()
      requires FrontierOf(popped, visited, universe, visited0, seedMovies)
      requires KeptOf(movieCache, cacheOrder, site, cache0, order0)
      requires TakenFrom(site, visited0, cache0)
      requires DepthsOf(depthOf, visited, expanded, movieCache, visited0, DepthBound(), maxDepth)
      requires ClosedOf(expanded, visited, popped, related)
      requires SavedAs(saved0, checkpointed, checkpoint)
      modifies this`queue, this`visited, this`depthOf, this`movieCache, this`cacheOrder, this`expanded, this`saved, stats
      ensures Progress(site, related, universe, visited0, cache0, order0, saved0, checkpointed', checkpoint')
      ensures visited == old(visited) + {movieId}
      ensures |movieCache| % SaveEvery == 0 ==>
        checkpointed' && checkpoint' == CacheRecords() && saved == Merge(old(saved), CacheRecords()) &&
        saved == Merge(saved0, CacheRecords())
      ensures |movieCache| % SaveEvery != 0 ==>
        saved == old(saved) && checkpointed' == checkpointed && checkpoint' == checkpoint
    {
      Advance(movieId, depth, site, related, popped, universe, visited0, cache0, order0);
      checkpointed', checkpoint' := Checkpoint(saved0, checkpointed, checkpoint);
    }

    /** The visit of one popped id together with the bookkeeping of the crawl's invariant:
        the depth is recorded, the id is visited, and the cache only grows. */
    method Advance(movieId: string, depth: int, site: map<string, Page>, related: map<string, set<string>>,
                   ghost popped: seq<(string, int)>, ghost universe: set<string>, ghost visited0: set<string>,
                   ghost cache0: map<string, Movie>, ghost order0: seq<string>)
      requires popped != [] && popped[0] == (movieId, depth) && queue == popped[1..]
      requires movieId !in visited && 0 <= depth <= DepthBound() && AllRelated(related) <= universe
      requires Valid()
      requires FrontierOf(popped, visited, universe, visited0, seedMovies)
      requires KeptOf(movieCache, cacheOrder, site, cache0, order0)
      requires TakenFrom(site, visited0, cache0)
      requires DepthsOf(depthOf, visited, expanded, movieCache, visited0, DepthBound(), maxDepth)
      requires ClosedOf(expanded, visited, popped, related)
      modifies this`queue, this`visited, this`depthOf, this`movieCache, this`cacheOrder, this`expanded, stats
      ensures Valid()
      ensures FrontierOf(queue, visited, universe, visited0, seedMovies)
      ensures KeptOf(movieCache, cacheOrder, site, cache0, order0)
      ensures TakenFrom(site, visited0, cache0)
      ensures DepthsOf(depthOf, visited, expanded, movieCache, visited0, DepthBound(), maxDepth)
      ensures ClosedOf(expanded, visited, queue, related)
      ensures Records(old(movieCache), old(cacheOrder)) <= CacheRecords()
      ensures visited == old(visited) + {movieId}
    {
      ghost var v := visited;
      ghost var c := movieCache;
      ghost var o := cacheOrder;
      ghost var e := expanded;
      ghost var d := depthOf;
      ghost var added, m := VisitAt(movieId, depth, site, related);
      RelatedWithin(related, movieId);
      FrontierStep(popped, queue, v, universe, visited0, seedMovies, RelatedOf(related, movieId));
      KeptStep(c, o, movieCache, cacheOrder, movieId, site, cache0, order0, added, m);
      TakenStep(this, site, visited0, cache0, v, c, visited, movieCache, movieId, added, m);
      DepthsStep(d, v, e, c, expanded, movieCache, movieId, depth, visited0, DepthBound(), maxDepth, added, m);
      ClosedStep(e, expanded, popped, queue, v, related);
      RecordsGrow(c, o, movieCache, cacheOrder);
    }

    /** The visit of one id with its depth recorded: `added` says whether the scraped movie `m`
        passed the filter, and the cache, its order and the expanded set change accordingly. */
    method VisitAt(movieId: string, depth: int, site: map<string, Page>, related: map<string, set<string>>)
      returns (ghost added: bool, ghost m: Option<Movie>)
      requires movieId !in visited && 0 <= depth <= DepthBound()
      requires Valid()
      modifies this`queue, this`visited, this`depthOf, this`movieCache, this`cacheOrder, this`expanded, stats
      ensures Valid()
      ensures depthOf == old(depthOf)[movieId := depth]
      ensures visited == old(visited) + {movieId}
      ensures m == Scrape(movieId, PageOf(site, movieId)) && added == (m.Some? && Accepts(m.value))
      ensures added ==> m.Some? && movieCache == old(movieCache)[movieId := m.value] &&
                        cacheOrder == old(cacheOrder) + [movieId] &&
                        expanded == if depth < maxDepth then old(expanded) + {movieId} else old(expanded)
      ensures !added ==> movieCache == old(movieCache) && cacheOrder == old(cacheOrder) && expanded == old(expanded)
      ensures |queue| >= |old(queue)| && queue[..|old(queue)|] == old(queue)
      ensures forall j :: |old(queue)| <= j < |queue| ==> queue[j].0 in RelatedOf(related, movieId)
      ensures movieId in expanded ==> forall r :: r in RelatedOf(related, movieId) ==> r in visited || r in QueueIds(queue)
    {
      m := Scrape(movieId, PageOf(site, movieId));
      added := m.Some? && Accepts(m.value);
      depthOf := depthOf[movieId := depth];
      Visit(movieId, depth, site, related);
    }

    /** The periodic save: when the cache size is a multiple of 50 the file is rewritten, and
        the cache records at that point become the last checkpoint. */
    method Checkpoint(ghost saved0: seq<Movie>, ghost checkpointed: bool, ghost checkpoint: seq<Movie>)
      returns (ghost checkpointed': bool, ghost checkpoint': seq<Movie>)
      requires CacheValid()
      requires checkpointed ==> checkpoint <= CacheRecords() && saved == Merge(saved0, checkpoint)
      requires !checkpointed ==> saved == saved0
      modifies this`saved
      ensures SavedAs(saved0, checkpointed', checkpoint')
      ensures |movieCache| % SaveEvery == 0 ==>
        checkpointed' && checkpoint' == CacheRecords() && saved == Merge(old(saved), CacheRecords()) &&
        saved == Merge(saved0, CacheRecords())
      ensures |movieCache| % SaveEvery != 0 ==>
        saved == old(saved) && checkpointed' == checkpointed && checkpoint' == checkpoint
    {
      checkpointed', checkpoint' := checkpointed, checkpoint;
      if |movieCache| % SaveEvery == 0 {
        RecordsIds(movieCache, cacheOrder);
        if checkpointed {
          MergeCheckpoint(saved0, checkpoint, CacheRecords());
        }
        SaveProgress();
        checkpointed', checkpoint' := true, CacheRecords();
      }
    }

    /** The start of `crawl`: the seeds are queued at depth 0, and the loop invariant holds
        with nothing visited, cached, expanded or saved yet in this crawl. `universe` is every
        id the crawl can ever queue. */
    method Start(related: map<string, set<string>>, site: map<string, Page>) returns (ghost universe: set<string>)
      requires Valid()
      modifies this`expanded, this`depthOf, this`queue
      ensures queue == old(queue) + seq(|seedMovies|, i requires 0 <= i < |seedMovies| => (seedMovies[i], 0))
      ensures Progress(site, related, universe, visited, movieCache, cacheOrder, saved, false, [])
      ensures AllRelated(related) <= universe
    {
      universe := (set s | s in seedMovies) + QueueIds(queue) + AllRelated(related);
      expanded := {};
      depthOf := map[];
      EnqueueSeeds();
      SeedIds(old(queue), queue, seedMovies);
    }

    /** The end of `crawl`: with the queue empty, the closure over expanded ids is complete,
        and the final save merges the whole cache into the file. */
    method Finish(site: map<string, Page>, related: map<string, set<string>>, ghost universe: set<string>,
                  ghost visited0: set<string>, ghost cache0: map<string, Movie>, ghost order0: seq<string>,
                  ghost saved0: seq<Movie>, ghost checkpointed: bool, ghost checkpoint: seq<Movie>)
      requires queue == []
      requires Progress(site, related, universe, visited0, cache0, order0, saved0, checkpointed, checkpoint)
      modifies this`saved
      ensures Valid()
      ensures visited0 <= visited
      ensures forall s :: s in seedMovies ==> s in visited
      ensures forall k :: k in cache0 ==> k in movieCache && movieCache[k] == cache0[k]
      ensures order0 <= cacheOrder
      ensures forall k :: k in movieCache && k !in cache0 ==> Scrape(k, PageOf(site, k)) == Some(movieCache[k])
      ensures forall k :: k in movieCache && k !in cache0 <==> k in visited && k !in visited0 && Admissible(site, k)
      ensures depthOf.Keys == visited - visited0
      ensures forall k :: k in depthOf ==> 0 <= depthOf[k] <= DepthBound()
      ensures forall k :: k in expanded <==> k in depthOf && k in movieCache && depthOf[k] < maxDepth
      ensures forall e, r :: e in expanded && r in RelatedOf(related, e) ==> r in visited
      ensures saved == Merge(saved0, CacheRecords())
    {
      ClosedDone(expanded, visited, related);
      TakenDone(this, site, visited0, cache0, visited, movieCache);
      RecordsIds(movieCache, cacheOrder);
      if checkpointed {
        MergeCheckpoint(saved0, checkpoint, CacheRecords());
      }
      SaveProgress();
    }

    /** The crawl loop: steps until the queue is empty, keeping the loop invariant. */
    method Run(site: map<string, Page>, related: map<string, set<string>>, ghost universe: set<string>,
               ghost visited0: set<string>, ghost cache0: map<string, Movie>, ghost order0: seq<string>,
               ghost saved0: seq<Movie>)
      returns (ghost checkpointed: bool, ghost checkpoint: seq<Movie>)
      requires AllRelated(related) <= universe
      requires Progress(site, related, universe, visited0, cache0, order0, saved0, false, [])
      modifies this`queue, this`visited, this`depthOf, this`movieCache, this`cacheOrder, this`expanded, this`saved, stats
      ensures queue == []
      ensures Progress(site, related, universe, visited0, cache0, order0, saved0, checkpointed, checkpoint)
    {
      checkpointed, checkpoint := false, [];
      while queue != []
        invariant Progress(site, related, universe, visited0, cache0, order0, saved0, checkpointed, checkpoint)
        decreases |universe - visited|, |queue|
      {
        checkpointed, checkpoint := Step(site, related, universe, visited0, cache0, order0, saved0,
                                         checkpointed, checkpoint);
      }
    }

    /** `crawl`: breadth-first over the queue until it is empty. Each popped id not yet visited
        is visited; a checkpoint is saved whenever the cache size is a multiple of 50, and once
        more at the end. Reaching `targetCount` only logs. */
    method Crawl(site: map<string, Page>, related: map<string, set<string>>)
      requires Valid()
      modifies this`queue, this`visited, this`depthOf, this`movieCache, this`cacheOrder, this`expanded, this`saved, stats
      ensures Valid()
      ensures queue == []
      ensures old(visited) <= visited
      ensures forall s :: s in seedMovies ==> s in visited
      ensures forall k :: k in old(movieCache) ==> k in movieCache && movieCache[k] == old(movieCache[k])
      ensures old(cacheOrder) <= cacheOrder
      ensures forall k :: k in movieCache && k !in old(movieCache) ==> Scrape(k, PageOf(site, k)) == Some(movieCache[k])
      ensures forall k :: k in movieCache && k !in old(movieCache) <==>
        k in visited && k !in old(visited) && Admissible(site, k)
      ensures depthOf.Keys == visited - old(visited)
      ensures forall k :: k in depthOf ==> 0 <= depthOf[k] <= DepthBound()
      ensures forall k :: k in expanded <==> k in depthOf && k in movieCache && depthOf[k] < maxDepth
      ensures forall e, r :: e in expanded && r in RelatedOf(related, e) ==> r in visited
      ensures saved == Merge(old(saved), CacheRecords())
    {
      ghost var universe := Start(related, site);
      ghost var checkpointed, checkpoint := Run(site, related, universe, old(visited), old(movieCache),
                                                old(cacheOrder), old(saved));
      Finish(site, related, universe, old(visited), old(movieCache), old(cacheOrder), old(saved),
             checkpointed, checkpoint);
    }
  }

  /** The queue holds only ids of `universe`; every seed is visited or queued; nothing visited
      before the crawl is forgotten. */
  ghost predicate FrontierOf(queue: seq<(string, int)>, visited: set<string>, universe: set<string>,
                             visited0: set<string>, seeds: seq<string>)
  {
    QueueIds(queue) <= universe &&
    visited0 <= visited &&
    (forall s :: s in seeds ==> s in visited || s in QueueIds(queue))
  }

  /** Earlier cache entries are kept, in the same order, and every new one is what the scraper
      returned for its id. */
  ghost predicate KeptOf(cache: map<string, Movie>, order: seq<string>, site: map<string, Page>,
                         cache0: map<string, Movie>, order0: seq<string>)
  {
    (forall k :: k in cache0 ==> k in cache && cache[k] == cache0[k]) &&
    order0 <= order &&
    (forall k :: k in cache && k !in cache0 ==> Scrape(k, PageOf(site, k)) == Some(cache[k]))
  }

  /** Visiting one more id keeps `TakenFrom`: the id was not visited before the crawl, and it
      enters the cache exactly when it is admissible. */
  lemma TakenStep(crawler: IMDBCrawler, site: map<string, Page>, visited0: set<string>, cache0: map<string, Movie>,
                  visited: set<string>, cache: map<string, Movie>, visited1: set<string>, cache1: map<string, Movie>,
                  movieId: string, added: bool, m: Option<Movie>)
    requires m == Scrape(movieId, PageOf(site, movieId)) && added == (m.Some? && crawler.Accepts(m.value))
    requires forall k :: k in cache0 ==> k in visited0
    requires forall k :: k in cache && k !in cache0 ==> k !in visited0
    requires forall k :: k in visited && k !in visited0 && crawler.Admissible(site, k) ==> k in cache
    requires visited0 <= visited && movieId !in visited && visited1 == visited + {movieId}
    requires added ==> cache1 == cache[movieId := m.value]
    requires !added ==> cache1 == cache
    ensures forall k :: k in cache1 && k !in cache0 ==> k !in visited0
    ensures forall k :: k in visited1 && k !in visited0 && crawler.Admissible(site, k) ==> k in cache1
  {
  }

  /** At the end of a crawl, the new cache entries are exactly the admissible ids it visited. */
  lemma TakenDone(crawler: IMDBCrawler, site: map<string, Page>, visited0: set<string>, cache0: map<string, Movie>,
                  visited: set<string>, cache: map<string, Movie>)
    requires forall k :: k in cache0 ==> k in visited0
    requires forall k :: k in cache && k !in cache0 ==> k !in visited0
    requires forall k :: k in visited && k !in visited0 && crawler.Admissible(site, k) ==> k in cache
    requires forall k :: k in cache ==> k in visited && crawler.Accepts(cache[k])
    requires forall k :: k in cache && k !in cache0 ==> Scrape(k, PageOf(site, k)) == Some(cache[k])
    ensures forall k :: k in cache && k !in cache0 <==> k in visited && k !in visited0 && crawler.Admissible(site, k)
  {
  }

  /** `depthOf` records the depth of each id visited in this crawl, within the bound, and
      `expanded` holds exactly the cached ids visited below `maxDepth`. */
  ghost predicate DepthsOf(depthOf: map<string, int>, visited: set<string>, expanded: set<string>,
                           cache: map<string, Movie>, visited0: set<string>, bound: int, maxDepth: int)
  {
    depthOf.Keys == visited - visited0 &&
    (forall k :: k in depthOf ==> 0 <= depthOf[k] <= bound) &&
    (forall k :: k in expanded <==> k in depthOf && k in cache && depthOf[k] < maxDepth)
  }

  /** Every title related to an expanded id is visited or queued. */
  ghost predicate ClosedOf(expanded: set<string>, visited: set<string>, queue: seq<(string, int)>,
                           related: map<string, set<string>>)
  {
    forall e, r :: e in expanded && r in RelatedOf(related, e) ==> r in visited || r in QueueIds(queue)
  }

  /** Popping the head and appending ids of `ids` (within `universe`) keeps the frontier once the
      head is visited. */
  lemma FrontierStep(popped: seq<(string, int)>, queue: seq<(string, int)>, visited: set<string>,
                     universe: set<string>, visited0: set<string>, seeds: seq<string>, ids: set<string>)
    requires popped != [] && |popped| - 1 <= |queue| && queue[..|popped| - 1] == popped[1..]
    requires forall j :: |popped| - 1 <= j < |queue| ==> queue[j].0 in ids
    requires ids <= universe
    requires FrontierOf(popped, visited, universe, visited0, seeds)
    ensures FrontierOf(queue, visited + {popped[0].0}, universe, visited0, seeds)
  {
    PopIds(popped);
    AppendIds(popped[1..], queue);
    NewIdsWithin(popped[1..], queue, ids);
  }

  /** The cache after a visit: unchanged, or grown by the scraped movie under its id. */
  lemma KeptStep(cache: map<string, Movie>, order: seq<string>, cache1: map<string, Movie>, order1: seq<string>,
                 id: string, site: map<string, Page>, cache0: map<string, Movie>, order0: seq<string>,
                 added: bool, m: Option<Movie>)
    requires KeptOf(cache, order, site, cache0, order0) && id !in cache
    requires added ==> m.Some? && m == Scrape(id, PageOf(site, id)) &&
                       cache1 == cache[id := m.value] && order1 == order + [id]
    requires !added ==> cache1 == cache && order1 == order
    ensures KeptOf(cache1, order1, site, cache0, order0)
  {
  }

  /** The visited id gets its depth, and is expanded exactly when it was cached below
      `maxDepth`. */
  lemma DepthsStep(depthOf: map<string, int>, visited: set<string>, expanded: set<string>, cache: map<string, Movie>,
                   expanded1: set<string>, cache1: map<string, Movie>, id: string, depth: int,
                   visited0: set<string>, bound: int, maxDepth: int, added: bool, m: Option<Movie>)
    requires DepthsOf(depthOf, visited, expanded, cache, visited0, bound, maxDepth)
    requires id !in visited && id !in cache && visited0 <= visited && 0 <= depth <= bound
    requires added ==> m.Some? && cache1 == cache[id := m.value] &&
                       expanded1 == if depth < maxDepth then expanded + {id} else expanded
    requires !added ==> cache1 == cache && expanded1 == expanded
    ensures DepthsOf(depthOf[id := depth], visited + {id}, expanded1, cache1, visited0, bound, maxDepth)
  {
  }

  /** Popping the head keeps the closure once the head is visited, as long as an id newly
      expanded had all its related titles visited or queued. */
  lemma ClosedStep(expanded: set<string>, expanded1: set<string>, popped: seq<(string, int)>,
                   queue: seq<(string, int)>, visited: set<string>, related: map<string, set<string>>)
    requires popped != [] && |popped| - 1 <= |queue| && queue[..|popped| - 1] == popped[1..]
    requires ClosedOf(expanded, visited, popped, related)
    requires expanded1 == expanded ||
      (expanded1 == expanded + {popped[0].0} &&
       forall r :: r in RelatedOf(related, popped[0].0) ==> r in visited + {popped[0].0} || r in QueueIds(queue))
    ensures ClosedOf(expanded1, visited + {popped[0].0}, queue, related)
  {
    PopIds(popped);
    AppendIds(popped[1..], queue);
  }

  /** With the queue empty, the closure says every title related to an expanded id was
      visited. */
  lemma ClosedDone(expanded: set<string>, visited: set<string>, related: map<string, set<string>>)
    requires ClosedOf(expanded, visited, [], related)
    ensures forall e, r :: e in expanded && r in RelatedOf(related, e) ==> r in visited
  {
    assert QueueIds([]) == {};
  }

  /** The page the fetch returns for `id`; a failed fetch returns none. */
  function PageOf(site: map<string, Page>, id: string): Option<Page>
  {
    if id in site then Some(site[id]) else None
  }

  lemma RelatedWithin(related: map<string, set<string>>, id: string)
    ensures RelatedOf(related, id) <= AllRelated(related)
  {
  }

  /** The ids of entries appended to a queue come from `ids`. */
  lemma NewIdsWithin(before: seq<(string, int)>, after: seq<(string, int)>, ids: set<string>)
    requires |before| <= |after| && after[..|before|] == before
    requires forall j :: |before| <= j < |after| ==> after[j].0 in ids
    ensures QueueIds(after) <= QueueIds(before) + ids
  {
    forall id | id in QueueIds(after) ensures id in QueueIds(before) + ids {
      var e :| e in after && e.0 == id;
      var j :| 0 <= j < |after| && after[j] == e;
      if j < |before| {
        assert before[j] == e;
      }
    }
  }

  /** After the seed loop every seed is queued, and the queue holds only old entries and seeds. */
  lemma SeedIds(before: seq<(string, int)>, after: seq<(string, int)>, seeds: seq<string>)
    requires |after| == |before| + |seeds| && after[..|before|] == before
    requires forall i :: 0 <= i < |seeds| ==> after[|before| + i] == (seeds[i], 0)
    ensures forall s :: s in seeds ==> s in QueueIds(after)
    ensures QueueIds(after) <= QueueIds(before) + (set s | s in seeds)
    ensures forall e :: e in after ==> e in before || e.1 == 0
  {
    forall e | e in after ensures e in before || e.1 == 0 {
      var j :| 0 <= j < |after| && after[j] == e;
      if j < |before| {
        assert before[j] == e;
      } else {
        assert after[|before| + (j - |before|)] == (seeds[j - |before|], 0);
      }
    }
    forall s | s in seeds ensures s in QueueIds(after) {
      var i :| 0 <= i < |seeds| && seeds[i] == s;
      assert after[|before| + i] in after;
    }
    forall id | id in QueueIds(after) ensures id in QueueIds(before) + (set s | s in seeds) {
      var e :| e in after && e.0 == id;
      var j :| 0 <= j < |after| && after[j] == e;
      if j < |before| {
        assert before[j] == e;
      } else {
        assert seeds[j - |before|] == id;
      }
    }
  }

  predicate Distinct(s: seq<string>)
  {
    forall i, j :: 0 <= i < j < |s| ==> s[i] != s[j]
  }

  lemma AppendDistinct(s: seq<string>, x: string)
    requires Distinct(s) && x !in s
    ensures Distinct(s + [x])
  {
    var t := s + [x];
    forall i, j | 0 <= i < j < |t| ensures t[i] != t[j] {
      if j == |s| {
        assert t[i] == s[i];
        assert s[i] in s;
      } else {
        assert t[i] == s[i] && t[j] == s[j];
      }
    }
  }

  /** Entries appended at depths within the bound keep every queued depth within it. */
  lemma QueueDepths(before: seq<(string, int)>, after: seq<(string, int)>, bound: int)
    requires |before| <= |after| && after[..|before|] == before
    requires forall e :: e in before ==> 0 <= e.1 <= bound
    requires forall j :: |before| <= j < |after| ==> 0 <= after[j].1 <= bound
    ensures forall e :: e in after ==> 0 <= e.1 <= bound
  {
    forall e | e in after ensures 0 <= e.1 <= bound {
      var j :| 0 <= j < |after| && after[j] == e;
      if j < |before| {
        assert before[j] == e;
      }
    }
  }

  /** Popping the head of the queue: its id and the ids of the rest are all there was. */
  lemma PopIds(q: seq<(string, int)>)
    requires q != []
    ensures QueueIds(q) == {q[0].0} + QueueIds(q[1..])
  {
    assert q == [q[0]] + q[1..];
  }

  /** Appending to the queue only adds the ids of the new entries. */
  lemma AppendIds(before: seq<(string, int)>, after: seq<(string, int)>)
    requires |before| <= |after| && after[..|before|] == before
    ensures QueueIds(before) <= QueueIds(after)
  {
    forall id | id in QueueIds(before) ensures id in QueueIds(after) {
      var e :| e in before && e.0 == id;
      var j :| 0 <= j < |before| && before[j] == e;
      assert after[j] == e;
    }
  }
}
