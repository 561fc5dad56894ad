# letterboxd-recommender in Dafny

A verified model of the bookkeeping in letterboxd-recommender. This is a Python application.
It reads a user's watched films and ratings from Letterboxd and builds a taste profile from them.
It recommends films from a local database that it fills by crawling IMDb.

The model covers six parts of the program:

- **IMDb crawler** (`imdb_crawler.dfy`, module `ImdbCrawler`).
  - `CrawlStats` is a class whose counters `update` changes in place.
  - `IMDBCrawler` is a class holding the breadth-first crawl state: the FIFO queue of `(id, depth)` pairs, the `visited` set, the movie cache with its insertion order, and the saved database.
  - The crawl loop is a `while` loop proved against a loop invariant.
  - Saving progress is a keyed merge in which the in-memory record wins.
- **Film cache** (`cache.dfy`, module `FilmCache`). A key–value store with a 30-day expiry, as a class whose store field `close` sets to nothing.
- **Profile statistics** (`stats.dfy`, module `Stats`).
  - The user profile.
  - The threshold / stable descending sort / top-N preference lists.
  - The three-way rating tendency.
  - The decade preferences.
- **Recommendation engine** (`recommendation.dfy`, module `Recommendation`).
  - Validation of the movie database, with its in-place defaults and its fallback list.
  - The four inverted indexes.
  - The filter and cap of the discovery recommendations.
  - First-occurrence de-duplication against the watched films.
- **Letterboxd scraper** (`scraper.dfy`, module `Letterboxd`).
  - The page count read from the pagination.
  - The half-star rating of a film item.
  - The film id and film URL.
  - The request plan of `get_film_data`.
  - The counters `fetch_user_stats` accumulates over the pages of a user's films.
- **IMDb title-page extraction** (`imdb_scraper.dfy`, module `ImdbScraper`).
  - The fallback and de-duplication rules for title, year, genres, cast, votes and runtime.
  - The cast truncation of `Movie.to_dict`.

Three support modules hold the Python built-ins these rely on:

- `wrappers.dfy`: `Option` and `Result`.
- `text.dfy`: ASCII `strip`, `lower`, `int()`, `str()`, `float()` on decimal text, and `find`/`split`.
- `counts.dfy`: dictionaries and `Counter`s as sequences of `(key, count)` pairs that keep insertion order, plus Python's stable `sorted(..., reverse=True)` and slicing.

I/O is replaced by parameters:

- The network, HTML parsing and the clock are inputs.
- A fetched page is a value holding the texts the selectors would have produced, or `None` when fetching failed.
- The related titles of an IMDb id are a map from ids to sets of ids.
- The current time is an integer number of seconds.

Integers are unbounded, as in Python.
Ratings on the Letterboxd side are counted in half-stars, which makes them exact.

## Model

| member | source | states |
|---|---|---|
| ImdbCrawler.CrawlStats.constructor | imdb_crawler.py:26-42 | all counters start at zero and all per-key tables empty, which satisfies the statistics identities |
| ImdbCrawler.CrawlStats.Update | imdb_crawler.py:44-62 | one processed title: processed +1, deepest depth = max(old, depth), the depth counter gains one; a failure, a new title (found +1, its year and each of its genres counted) or a duplicate updates exactly its own counters; the identities are kept |
| ImdbCrawler.UpdateConsistent | imdb_crawler.py:44-62 | every update keeps processed = successful + failed, successful = found + duplicates, the depth counts summing to processed, the year counts summing to found, and the deepest depth being one that was counted |
| ImdbCrawler.DepthStep | imdb_crawler.py:47-48 | counting a title at a depth keeps every counted depth at most the recorded maximum, which is itself counted |
| ImdbCrawler.UpsertIds | imdb_crawler.py:241-245 | writing one record by id adds exactly its id to the set of ids |
| ImdbCrawler.UpsertPresent | imdb_crawler.py:241-245 | writing a record that is already present changes nothing |
| ImdbCrawler.UpsertAbsent | imdb_crawler.py:241-245 | writing a record with a new id appends it at the end, as a Python dict does |
| ImdbCrawler.UpsertAllAppend | imdb_crawler.py:240-245 | writing two batches in turn is writing their concatenation |
| ImdbCrawler.MergeSpec | imdb_crawler.py:237-248 | the merged database holds every on-disk id and every in-memory id, each once; every in-memory record is in it (memory wins); every on-disk record whose id memory lacks is kept |
| ImdbCrawler.MergeSelf | imdb_crawler.py:237-248 | merging a database with itself leaves it unchanged |
| ImdbCrawler.MergeCheckpoint | imdb_crawler.py:179-193 | a periodic save followed by the final save leaves the file as one final save would |
| ImdbCrawler.Records | imdb_crawler.py:243-244 | the records written are the `to_dict` forms of the cached movies, in cache insertion order |
| ImdbCrawler.RecordsIds | imdb_crawler.py:243-245 | the written records have distinct ids, which are exactly the cached ids |
| ImdbCrawler.RecordsGrow | imdb_crawler.py:163-166 | a cache that only gains entries yields a record list extended at the end |
| ImdbCrawler.IMDBCrawler.constructor | imdb_crawler.py:87-131 | stores the thresholds and the ten seed ids; empty cache, queue and visited set; the statistics are fresh |
| ImdbCrawler.IMDBCrawler.SaveProgress | imdb_crawler.py:232-251 | the file becomes the merge of its old records with the cache's records |
| ImdbCrawler.IMDBCrawler.EnqueueSeeds | imdb_crawler.py:139-141 | the seeds are appended to the queue in list order, all at depth 0, and the old queue is kept in front |
| ImdbCrawler.IMDBCrawler.EnqueueRelated | imdb_crawler.py:170-173 | only related ids not yet visited are appended, each at the next depth; every related unvisited id ends up queued |
| ImdbCrawler.IMDBCrawler.Mark | imdb_crawler.py:151 | the popped id becomes visited; it is in neither the cache nor the expanded set |
| ImdbCrawler.IMDBCrawler.Store | imdb_crawler.py:164-166 | an accepted movie is cached under its id, the id is appended to the insertion order, and it is counted as a new title |
| ImdbCrawler.IMDBCrawler.Expand | imdb_crawler.py:168-173 | below the maximum depth, the related ids are enqueued and the id joins the expanded set |
| ImdbCrawler.IMDBCrawler.Admit | imdb_crawler.py:163-173 | caching and counting a movie, then expanding it only when its depth is below the maximum; at or beyond the maximum the queue is unchanged |
| ImdbCrawler.IMDBCrawler.Reject | imdb_crawler.py:176-177 | a title that was not scraped or failed the filter is counted as a failure |
| ImdbCrawler.IMDBCrawler.Settle | imdb_crawler.py:158-177 | the cache changes exactly when the scraped movie passes the year, rating and votes filter; the queue is unchanged unless the id was expanded, and otherwise grows only at its end, with unvisited related ids at the next depth |
| ImdbCrawler.IMDBCrawler.Visit | imdb_crawler.py:145-177 | processing an unvisited id adds exactly that id to `visited`; the cache gains the scraped movie exactly when it passes the filter; a rejected or depth-capped id leaves the queue unchanged; the duplicate branch is never taken |
| ImdbCrawler.IMDBCrawler.VisitAt | imdb_crawler.py:151-177 | the visited id gets its depth; the cache, its order and the expanded set grow by the id exactly when its scraped movie passes the filter, and are unchanged otherwise |
| ImdbCrawler.IMDBCrawler.Advance | imdb_crawler.py:151-177 | one processed id keeps the crawl invariant: the frontier, the cached movies being scraped results, every admissible id visited in this crawl being cached, the depths and the closure of expanded ids |
| ImdbCrawler.IMDBCrawler.Checkpoint | imdb_crawler.py:179-181 | when the cache size is a multiple of 50 the file becomes the merge of its previous contents with the cache's records, which is also the merge of the initial file with them, and those records become the last checkpoint; otherwise the file and the checkpoint are unchanged |
| ImdbCrawler.IMDBCrawler.Process | imdb_crawler.py:151-186 | the loop body for an unvisited id keeps the loop invariant, adds exactly that id to `visited`, and rewrites the file with the cache's records exactly when the cache size is then a multiple of 50 |
| ImdbCrawler.IMDBCrawler.Step | imdb_crawler.py:144-151 | one turn of the loop keeps the invariant; either fewer reachable ids remain unvisited, or nothing was visited and the queue got shorter, so the loop terminates |
| ImdbCrawler.IMDBCrawler.Start | imdb_crawler.py:139-141 | the queue is the old queue followed by the seeds at depth 0, and the loop invariant holds |
| ImdbCrawler.IMDBCrawler.Run | imdb_crawler.py:143-190 | the loop ends only when the queue is empty (reaching the target count does not stop it) and the invariant then still holds |
| ImdbCrawler.IMDBCrawler.Finish | imdb_crawler.py:192-193 | after the final save: every seed is visited; earlier cache entries are kept; every new cache entry is the scraped movie of its id; each id processed was processed at one depth within bounds; an id was expanded exactly when it was cached below the maximum depth; every related id of an expanded id was visited; the new cache entries are exactly the ids visited in this crawl whose scraped movie passes the filter; the file is the merge of its old contents with the cache |
| ImdbCrawler.TakenStep | imdb_crawler.py:151-166 | visiting one more id keeps the cache's new entries outside the ids visited before the crawl, and caches the id exactly when its scraped movie passes the filter |
| ImdbCrawler.TakenDone | imdb_crawler.py:151-166 | the new cache entries are exactly the ids visited in this crawl whose scraped movie passes the filter |
| ImdbCrawler.IMDBCrawler.Crawl | imdb_crawler.py:133-196 | the whole crawl, with the guarantees of `Finish` relative to the state before the call |
| ImdbCrawler.FrontierStep | imdb_crawler.py:144-151 | popping the head and appending reachable ids keeps every queued id reachable and every seed visited or queued |
| ImdbCrawler.KeptStep | imdb_crawler.py:163-166 | the cache keeps its earlier entries, and every new entry is the scraped movie of its id |
| ImdbCrawler.DepthsStep | imdb_crawler.py:145-173 | recording the popped id's depth keeps the depth map's keys equal to the ids processed, with expanded ids exactly the cached ones below the maximum depth |
| ImdbCrawler.ClosedStep | imdb_crawler.py:168-173 | every related id of an expanded id stays visited or queued |
| ImdbCrawler.ClosedDone | imdb_crawler.py:144 | with the queue empty, every related id of an expanded id has been visited |
| ImdbCrawler.SeedIds | imdb_crawler.py:140-141 | after the seeds are enqueued, every seed is queued, nothing else was added, and all new entries have depth 0 |
| ImdbCrawler.QueueDepths | imdb_crawler.py:169-173 | appending entries within the depth bound keeps every queued depth within it |
| FilmCache.Cache.constructor | cache.py:15-60 | the cache holds the stored entries |
| FilmCache.Cache.Close | cache.py:62-69 | afterwards there is no store; closing twice is the same as closing once |
| FilmCache.Cache.GetFilm | cache.py:83-92 | with no store the result is None; otherwise the data of an entry that is present, decodable and not expired, and None for a missing, corrupt or expired entry; returned data is never expired |
| FilmCache.Cache.SetFilm | cache.py:94-103 | the key's entry becomes the value stamped now and every other key is unchanged; with no store nothing happens |
| FilmCache.Cache.ClearExpired | cache.py:105-119 | reports whether there was a store; the store becomes its sweep at the current time |
| FilmCache.SetThenGet | cache.py:83-101 | a value written at time w is read back at time t exactly when t - w is at most 30 days; other keys read as before |
| FilmCache.ExpiryBoundary | cache.py:13 | an age of exactly 30 days is not expired, one second more is; an unparseable timestamp is expired |
| FilmCache.LookupFresh | cache.py:83-92 | a lookup that returns data found a decodable entry that is not stale |
| FilmCache.SweepSpec | cache.py:105-119 | the sweep keeps exactly the entries that are neither expired nor undecodable; no lookup at that time changes; sweeping twice is sweeping once |
| FilmCache.SweepLater | cache.py:105-119 | a sweep followed by a later sweep is the later sweep alone |
| Stats.CalculateUserProfile | stats.py:40-60 | username, total and average come from the raw stats or their defaults; each preference table is copied only when present and non-empty, and is empty otherwise |
| Stats.RankedMembers | stats.py:62-83 | every preferred name comes from the input with a count at least the threshold |
| Stats.RankedSpec | stats.py:62-83 | at most the cap, distinct names, counts non-increasing, each from the input and at least the threshold; for every count, the names with that count are the first ones the input has with it (stable sort) |
| Stats.RankedTop | stats.py:68-73 | the list is as long as the cap allows, and no qualifying name that was cut has a larger count than a kept one |
| Stats.PreferenceCaps | stats.py:62-83 | at most 10 genres and 15 directors; empty input gives the empty list |
| Stats.RatingTendencySpec | stats.py:85-109 | "unknown" exactly for an empty or zero-total histogram; "generous" exactly when more than 40% are 4 stars or more; otherwise "critical" exactly when more than 30% are 2.5 stars or fewer, else "balanced" |
| Stats.FilterSortCommute | stats.py:116-118 | filtering a stable descending sort is sorting the filtered list |
| Stats.DecadePreferencesSpec | stats.py:111-118 | the decades are exactly those counted more than once, in non-increasing count order, each once, ties in input order |
| Counts.IncrGet | scraper.py:243 | incrementing a key's count adds one to it and leaves every other key's count unchanged |
| Counts.IncrTotal | scraper.py:243-245 | incrementing raises the counter's total by one |
| Counts.IncrUnique | imdb_crawler.py:48 | incrementing keeps the keys distinct and makes the key present |
| Counts.CountEach | imdb_crawler.py:57-58 | the loop that counts each genre computes the specification fold |
| Counts.IncrAllGet | imdb_crawler.py:57-58 | after counting a list of keys, each key's count grows by its number of occurrences in the list |
| Counts.IncrAllTotal | imdb_crawler.py:57-58 | counting a list raises the total by its length |
| Counts.IncrAllUnique | imdb_crawler.py:57-58 | counting a list keeps keys distinct and makes every listed key present |
| Counts.SortDescSorted | stats.py:71 | the descending sort orders counts non-increasingly (and is a permutation by its own contract) |
| Counts.SortDescStable | stats.py:117 | for every count, the entries with that count keep their input order |
| Counts.SortDescUnique | stats.py:117 | sorting keeps distinct keys distinct |
| Counts.AtLeastWithCount | stats.py:68 | the threshold filter keeps exactly the entries at or above the threshold, in order |
| Counts.AtLeastUnique | stats.py:68 | filtering keeps distinct keys distinct |
| Recommendation.Trunc | recommendation.py:98-116 | Python's `int()` of a float truncates toward zero |
| Recommendation.HasRequiredSpec | recommendation.py:85-95 | no required field is missing exactly when all nine required keys are present |
| Recommendation.Patch | recommendation.py:122-128 | a missing or non-list cast becomes `[]`, a missing poster URL becomes "", every other field is kept |
| Recommendation.Check | recommendation.py:87-138 | an entry is kept exactly when it is a dict with all required fields, year in [1900, 2030], rating in [0, 10], votes ≥ 0, runtime > 0, a list of string genres and a string id starting "tt"; it raises OverflowError exactly when, in the order of the checks, `int` meets an infinite year, votes or runtime or `float` meets an int beyond the double range; otherwise an entry passing every other check whose id is not a string raises AttributeError; a kept record is patched and accepted |
| Recommendation.MovieRecord | recommendation.py:147-168 | a record built from in-range values passes the validation |
| Recommendation.Fallback | recommendation.py:147-168 | three records, each passing the validation itself |
| Recommendation.Validate | recommendation.py:78-145 | computes the validated database |
| Recommendation.ValidateLoop | recommendation.py:84-138 | the validation loop computes the specification fold, stopping at the first entry that raises |
| Recommendation.ErrStays | recommendation.py:130 | once an entry has raised, later entries do not change the outcome |
| Recommendation.KeptAccepted | recommendation.py:84-134 | every kept record is accepted |
| Recommendation.ValidateItemsRaises | recommendation.py:130-138 | the validation raises exactly when some entry raises (an overflowing conversion, or a non-string id past the other checks) |
| Recommendation.ValidateItemsError | recommendation.py:84-138 | the exception that escapes is the one of the first entry that raises |
| Recommendation.ValidateItemsKeeps | recommendation.py:84-134 | when it does not raise, the result is the kept entries in input order |
| Recommendation.ValidateDatabaseSpec | recommendation.py:78-145 | non-list input gives the fallback; list input raises exactly when some entry raises, and then with the first such entry's exception; otherwise the result is the kept entries in order, or the fallback when none is kept; every result record is accepted and the result is never empty |
| Recommendation.Engine.LoadMovieDatabase | recommendation.py:61-76 | the database becomes the validated file contents (or the fallback for a missing file or one that is not valid JSON); when validation raises, the database is unchanged |
| Recommendation.AddAllSpec | recommendation.py:172-196 | appending a position under some keys creates exactly those keys, leaves other lists alone and extends each of those lists at the end with the position |
| Recommendation.BuildIndexSpec | recommendation.py:170-196 | an index lists in-range positions in ascending order, each position under a key of its record, and every key of every record lists that record's position |
| Recommendation.AppendAll | recommendation.py:179-180 | the key loop appends the position under each key in turn |
| Recommendation.IndexRecord | recommendation.py:177-196 | indexing one record appends its position under its genre, director, decade and cast keys, unless reading a field raises |
| Recommendation.BuildIndexes | recommendation.py:170-196 | the loop builds all four indexes of the database, and fails exactly when some record raises |
| Recommendation.Engine.CreateIndexes | recommendation.py:170-196 | the engine's four indexes become the inverted indexes of its database |
| Recommendation.IndexesSpec | recommendation.py:170-196 | each of the four indexes is an inverted index of the database; no director key is "" or "unknown"; a record with a non-zero year is listed under `(year // 10) * 10` followed by "s" |
| Recommendation.IndexNonEmpty | recommendation.py:172-196 | every key present in an index lists at least one position |
| Recommendation.LowerStrs | recommendation.py:179-180 | each genre key is the lower-cased genre |
| Recommendation.DirectorKeys | recommendation.py:183-185 | the empty director and "unknown" are never index keys |
| Recommendation.DecadeKeys | recommendation.py:188-191 | a non-zero year gives the key `(year // 10) * 10` followed by "s"; a falsy year gives none |
| Recommendation.CastNames | recommendation.py:194-196 | every cast key is the lower-cased form of a non-empty cast name |
| Recommendation.FromAcceptedMovie | recommendation.py:374-390 | a recommendation made from an accepted record carries its title, year, director, genres, overview, poster, id, rating, votes, runtime and cast |
| Recommendation.PyTake | recommendation.py:356-372 | Python slicing `s[:n]`: a prefix of length min(n, len) for n ≥ 0, and len + n (at least 0) otherwise |
| Recommendation.DiscoveryRecommendations | recommendation.py:344-372 | the loop over the first `3 * count` ranked movies computes the specification |
| Recommendation.PicksStay | recommendation.py:357-358 | once the quota is met, the remaining candidates do not change the picks |
| Recommendation.PicksSpec | recommendation.py:356-370 | at most `count` picks, each a recommendation of an eligible examined movie; below the quota no eligible movie was passed over |
| Recommendation.EligibleFields | recommendation.py:361-364 | an eligible movie's recommendation has a rating ≥ 7.5 (or an infinite one, which compares above every number) and votes in [1000, 500000] |
| Recommendation.DiscoverySpec | recommendation.py:344-372 | at most `count` recommendations, each rated at least 7.5 (or infinite) with 1000 to 500000 votes |
| Recommendation.DeduplicateAndFilter | recommendation.py:395-408 | computes the de-duplicated list, or the error when some title is not a string |
| Recommendation.KeepFirstLoop | recommendation.py:397-406 | the loop with its seen set computes the first-occurrence filter |
| Recommendation.KeepFirstSpec | recommendation.py:397-408 | the output elements come from the input; keys are distinct and not excluded; the output's keys are the input's minus the excluded ones; the first occurrence of each admissible key is kept |
| Recommendation.KeepFirstPrefix | recommendation.py:400-406 | filtering a prefix of the input gives a prefix of the output (input order is kept) |
| Recommendation.DeduplicateSpec | recommendation.py:395-408 | raises exactly when some title is not a string; otherwise keys `title (year)` are unique, none is watched, and each unwatched key keeps its first recommendation |
| Letterboxd.GetTotalPages | scraper.py:342-363 | the loop over the pagination links computes the page count |
| Letterboxd.MaxPageStep | scraper.py:352-361 | one more link raises the running maximum to its number when it has a larger one |
| Letterboxd.MaxPageSpec | scraper.py:352-363 | the maximum is ≥ 1, at least every link's number, and is 1 or the number of some link |
| Letterboxd.TotalPagesSpec | scraper.py:342-363 | the page count is ≥ 1; it is the largest integer-valued link text, skipping "Newer", "Older" and non-numbers, or 1 when there is none or no pagination |
| Letterboxd.FilmRating | scraper.py:305-313 | None exactly when there is no rating tag; otherwise two half-stars per "★" plus one for "½" |
| Letterboxd.RatingStringValue | scraper.py:258-312 | the rating string `float()` reads back as the number of stars |
| Letterboxd.HalfRatingValue | scraper.py:311-312 | the text `stars.5` reads back as stars + 0.5 |
| Letterboxd.WholeRatingValue | scraper.py:312 | the digits of a whole rating read back as the stars |
| Letterboxd.RatingStringInjective | scraper.py:263 | different ratings give different distribution keys |
| Letterboxd.FilmId | scraper.py:218-219 | the film id never contains "/" |
| Letterboxd.FilmIdOfFilmUrl | scraper.py:218-220 | the id read back from a film URL `base/film/id/` is the id |
| Letterboxd.PlanRequests | scraper.py:76-98 | the URLs to fetch run parallel to the cache keys, which follow the plan |
| Letterboxd.PlanSpec | scraper.py:76-98 | at most three requests; the JSON URL exactly when basic info is not cached; `genres/` exactly when genres are asked for and not cached; `crew/` exactly when cast is asked for and not cached |
| Letterboxd.PlanOrdered | scraper.py:76-98 | each request carries its kind's URL, and kinds come in the order basic info, genres, cast, each at most once |
| Letterboxd.Tasks | scraper.py:209-232 | the film tasks are the listed items with a details endpoint, in order |
| Letterboxd.ProcessPage | scraper.py:205-268 | processing a page's items computes the counter fold over that page |
| Letterboxd.CountDataConsistent | scraper.py:240-265 | counting one film's data keeps the year and decade totals equal, the rating distribution summing to the rated films and all keys distinct; processed grows by one |
| Letterboxd.CountFilmConsistent | scraper.py:235-268 | a film task that fails counts nothing; one that succeeds keeps the counters consistent and counts as processed |
| Letterboxd.CountFilmsConsistent | scraper.py:235-268 | processing the film tasks keeps the counters consistent and processes no more films than there are film tasks |
| Letterboxd.CountPageConsistent | scraper.py:205-268 | a page raises the total by its number of items, skipped ones included, and keeps processed ≤ total |
| Letterboxd.TalliedConsistent | scraper.py:196-268 | the counters over all pages are consistent, and ratings are counted only when asked for |
| Letterboxd.FilmsPerYearRaises | scraper.py:283-284 | one listed item without a details endpoint makes the division by the number of years raise |
| Letterboxd.FilmsPerYearSpec | scraper.py:283-284 | as written, films per year raises exactly when films were listed but no year was counted; the corrected ratio agrees elsewhere and is positive |
| Letterboxd.FetchPage | scraper.py:196-203 | one page turn: a later page that cannot be fetched is skipped; the first page is counted from its parsed form |
| Letterboxd.FetchPagesUpTo | scraper.py:196-268 | the page loop computes the fold over pages 1 to the page count |
| Letterboxd.FetchPages | scraper.py:193-268 | the pages counted are 1 to the page count read from the first page |
| Letterboxd.FetchUserStats | scraper.py:186-303 | an unfetchable first page raises RuntimeError; films listed with no year counted raise ZeroDivisionError; otherwise the statistics summarise the fold over all pages |
| Letterboxd.UserStatsSpec | scraper.py:186-303 | raises exactly when the first page is missing or films were listed but no year was counted; otherwise the year and decade totals agree, processed ≤ total, the rating distribution sums to the rated films, the average is present exactly when ratings are asked for and some film was rated, the genre and rating tables are present exactly when asked for, and films per year is present exactly when films were listed and equals their number over the number of years |
| Letterboxd.SummaryResultSpec | scraper.py:270-297 | the end of the request over consistent counters raises exactly when films were listed but no year was counted, and otherwise gives statistics with the properties above |
| Letterboxd.TalliedNoData | scraper.py:195-267 | when every film's data task fails, no year is ever counted while every listed film still counts towards the total |
| Letterboxd.NoDataRaises | scraper.py:258-303 | when every film's data task fails and the first page lists a film, the whole request raises ZeroDivisionError |
| Letterboxd.SummarizeSpec | scraper.py:270-297 | summarising consistent counters gives statistics with those properties |
| ImdbScraper.ToDict | imdb_scraper.py:28-41 | only the first five cast members are emitted; every other field is copied |
| ImdbScraper.ToDictIdempotent | imdb_scraper.py:28-41 | converting twice is converting once; a cast of at most five is untouched |
| ImdbScraper.FirstDistinct | imdb_scraper.py:158-175 | the append-if-absent loop over the first candidates computes the specification |
| ImdbScraper.KeepDistinctUnique | imdb_scraper.py:161-164 | the collected names are non-empty and distinct, and no more than the candidates |
| ImdbScraper.KeepDistinctMembers | imdb_scraper.py:161-164 | every collected name is a normalised candidate, and every non-empty normalised candidate is collected |
| ImdbScraper.KeepDistinctPrefix | imdb_scraper.py:161-164 | the names from a prefix of the candidates are a prefix of the result (first-occurrence order) |
| ImdbScraper.ExtractGenres | imdb_scraper.py:158-164 | genres are collected from the first five genre links |
| ImdbScraper.ExtractCast | imdb_scraper.py:166-175 | the cast is collected from the first five candidates, which are the fallback selector's only when the primary finds none |
| ImdbScraper.GenresAndCastSpec | imdb_scraper.py:158-175 | at most five genres and five cast names, non-empty, distinct, each the stripped text of one of the first five candidates |
| ImdbScraper.ExtractTitle | imdb_scraper.py:126-133 | the stripped text of the first of the three title selectors that matches, else "Unknown" |
| ImdbScraper.FirstYearLink | imdb_scraper.py:135-143 | a year from a link is always within [1900, 2030] |
| ImdbScraper.ExtractYear | imdb_scraper.py:135-147 | the first in-range all-digit link text; else the first parenthesised four-digit number; else 0 |
| ImdbScraper.FirstParenYearSpec | imdb_scraper.py:144-147 | a parenthesised year is the leftmost `(dddd)` match and is not range-checked; none means no match |
| ImdbScraper.RemoveCommas | imdb_scraper.py:195 | removing commas keeps only characters of the input other than commas |
| ImdbScraper.RemoveCommasDigits | imdb_scraper.py:195 | a digits-and-commas run without its commas is all digits, and empty exactly when the run was only commas |
| ImdbScraper.ExtractVotes | imdb_scraper.py:188-196 | the vote loop computes the specification |
| ImdbScraper.FirstVotesSpec | imdb_scraper.py:188-248 | the vote count is never negative; reading it raises exactly when the first match is only commas |
| ImdbScraper.ExtractRuntime | imdb_scraper.py:198-206 | the runtime loop computes the specification |
| ImdbScraper.FirstRuntimeSpec | imdb_scraper.py:198-206 | a runtime is the number of the leftmost `N min` match; none means no match |
| ImdbScraper.ScrapeMovieDetails | imdb_scraper.py:115-248 | the scrape of a fetched page computes the specification, or None when the page is missing or reading the votes raised |
| ImdbScraper.ScrapedMovieSpec | imdb_scraper.py:115-248 | a scraped movie carries the requested id; at most five distinct genres and cast names; year in [0, 9999], and in [1900, 2030] when it came from a link; votes and runtime ≥ 0; `to_dict` leaves it unchanged |
| Text.IntToStringRoundTrip | recommendation.py:190-191 | `int()` of the decimal text of an integer gives the integer back, so a decade key names its decade |
| Text.NatToStringValue | scraper.py:312 | `str()` of a natural number is digits whose value is that number |
| Text.StripKeeps | scraper.py:309-311 | stripping does not change how many times a non-space character occurs |
| Text.ParseDecimalPoint | scraper.py:260 | `float()` of `whole.frac` is the whole part plus the fraction |

## Left out

- Network I/O (aiohttp and requests sessions, status codes, timeouts), the asyncio semaphore, `gather` and event-loop wrappers: fetched pages and the related-title map are inputs, and film data tasks are a present or absent value.
- HTML and regular-expression matching by BeautifulSoup and `re`: each selector's matches are a sequence of strings given to the model. The regular expressions applied to those strings (year, votes, runtime, film id) are modelled.
- RocksDB, its lock clean-up, `atexit` and `__del__`, and reading and writing JSON files: the database file is a sequence of records and the cache store is a map. FilmCache.Cache.SetFilm stores the value as given; `json.dumps` of data it cannot serialise raises, and the JSON round trip turns tuples into lists and non-string keys into strings, so FilmCache.SetThenGet holds for values that survive that round trip unchanged.
- `datetime.fromisoformat` and `datetime.now()`: timestamps are integer seconds, and an unparseable timestamp is its own case.
- Logging, `print`, `print_summary` and the random politeness sleeps; reaching the target count only logs, and the model's loop ignores it.
- Floating point: the rating tendency, the average rating and films per year are exact rationals, and `round(…, 2)` is not applied.
- Stats.RatingTendencySpec: ratings are half-star counts rather than the distribution's string keys; `float(key)` of such a key is the half-star count divided by two.
- The scoring of recommendations with `math.log`, `get_database_stats`, `generate_recommendations` and the `_get_*_recommendations` functions other than the discovery filter. The ranking order of discovery candidates is an input. The `sorted` call at recommendation.py:349-353 multiplies the stored rating by a logarithm; validation only checks that the rating converts to a number, so a record kept with a string rating (such as `"8.5"`) makes that sort raise TypeError. The model does not capture that raise.
- `calculate_diversity_score` (it calls `bit_length` on a float, which raises) and `build_movie_database` (random shuffle, sleeps, and a float slice index that raises).
- `rating_percentages`, the monthly watching distribution and the `debug` block of `fetch_user_stats`; `get_watched_films` beyond its film-id derivation.
- Letterboxd.FetchUserStats: the fetch and cache calls inside `get_film_data` are not modelled; each film's data task is an input that is present or absent. The cache is modelled as written, with one key, and the fetch plan takes the cache hits as booleans. The `basic_info` option is never consulted, and the model keeps that.
- Letterboxd.FetchUserStats: scraper.py:76 calls `get_film(film_id, "basic_info")`, but cache.py:83 takes only a film id. As written, every awaited `get_film_data` task therefore raises TypeError. The handler at scraper.py:267 catches it, so no film is processed. The model takes the task outcomes as inputs; an input where every task failed is this case, and `Letterboxd.NoDataRaises` shows that the request then raises ZeroDivisionError for any user with a listed film.
- Recommendation.Engine.LoadMovieDatabase: only a missing file and invalid JSON fall back, as at recommendation.py:71-76. Other errors raised while reading the file (PermissionError, UnicodeDecodeError) propagate; the model has no input for them.
- Text.ParseInt and Text.ParseDecimal accept plain decimal notation only. Python's `int` also accepts underscores between digits (`int("1_994")`), and `float` also accepts exponents, `"inf"` and `"nan"`. The model reads these as ValueError. This affects validation in recommendation.py, the year at scraper.py:242 and the rating at imdb_scraper.py:183.
- ImdbCrawler.IMDBCrawler.Crawl: the `except` branch of the loop is not modelled. Scraping, the related-title lookup and saving each catch their own errors, so in the model nothing in the body raises. The related titles are a set, and the order in which they are enqueued is left open.
- Unicode: `strip`, `lower` and `isdigit` are modelled on ASCII characters.
- workspace.py, populate_db.py and app.py are not part of this model.

## Findings

| source | as written | input that shows it | evidently intended | confidence | as-written member | corrected member |
|---|---|---|---|---|---|---|
| scraper.py:283-284 | `films_per_year = total_films / len(years)` whenever `total_films > 0`; the exception handler at 301-303 re-raises | a user whose films all lack a details endpoint, a data task that succeeds or a year: one poster item without `data-details-endpoint` gives `total_films = 1` and no years, so the division raises ZeroDivisionError and the whole statistics request fails. Since every data task raises TypeError as written (scraper.py:76 against cache.py:83), any user with a listed film hits it (`Letterboxd.NoDataRaises`) | compute the ratio only when some year was counted | not executed | Letterboxd.FilmsPerYearRaises | Letterboxd.FilmsPerYearSpec |
