/** The Letterboxd side of scraper.py: the page count read from a list page's pagination, the
    half-star rating of a film item, the film id and film URL derived from a details endpoint, the
    plan of requests `get_film_data` issues, and the counters `fetch_user_stats` accumulates over
    the pages of a user's films. Pages, items and the data fetched for a film are inputs: the
    HTML parsing, the requests and the cache lookups themselves are not modelled. */
module Letterboxd {
  import opened Wrappers
  import opened Text
  import opened Counts

  // ---------------------------------------------------------------------------------------
  // get_total_pages

  /** The page number a pagination link stands for: "Newer" and "Older" are skipped, and so is
      any text `int` rejects. */
  function PageNumber(text: string): Option<int>
  {
    var t := Strip(text);
    if t == "Newer" || t == "Older" then None else ParseInt(t)
  }

  /** The running `max_page` after the given links, starting from 1, with `num` reading each
      link's number. */
  function MaxPage(links: seq<string>, num: string -> Option<int>): int
  {
    if links == [] then 1
    else
      var m := MaxPage(links[..|links| - 1], num);
      match num(links[|links| - 1])
      case None => m
      case Some(n) => if n > m then n else m
  }

  /** `get_total_pages`: `pagination` holds the link texts of the pagination block, `None` when the
      page has no such block. */
  function TotalPages(pagination: Option<seq<string>>): int
  {
    if pagination.None? || pagination.value == [] then 1 else MaxPage(pagination.value, PageNumber)
  }

  method GetTotalPages(pagination: Option<seq<string>>) returns (maxPage: int)
    ensures maxPage == TotalPages(pagination)
  {
    if pagination.None? {
      return 1;
    }
    var links := pagination.value;
    if links == [] {
      return 1;
    }
    maxPage := 1;
    for i := 0 to |links|
      invariant maxPage == MaxPage(links[..i], PageNumber)
    {
      MaxPageStep(links, i, PageNumber);
      var t := Strip(links[i]);
      if t == "Newer" || t == "Older" {
        continue;
      }
      var pageNum := ParseInt(t);
      if pageNum.Some? && pageNum.value > maxPage {
        maxPage := pageNum.value;
      }
    }
    assert links[..|links|] == links;
  }

  lemma MaxPageStep(links: seq<string>, i: int, num: string -> Option<int>)
    requires 0 <= i < |links|
    ensures MaxPage(links[..i + 1], num) ==
      match num(links[i])
      case None => MaxPage(links[..i], num)
      case Some(n) => if n > MaxPage(links[..i], num) then n else MaxPage(links[..i], num)
  {
    assert links[..i + 1][..i] == links[..i];
  }

  /** The page count is the largest of 1 and the numbers of the links: at least 1, no smaller
      than any link's number, and either 1 or the number of some link. */
  lemma {:induction false} MaxPageSpec(links: seq<string>, num: string -> Option<int>)
    ensures MaxPage(links, num) >= 1
    ensures forall i :: 0 <= i < |links| && num(links[i]).Some? ==> num(links[i]).value <= MaxPage(links, num)
    ensures MaxPage(links, num) == 1 || exists i :: 0 <= i < |links| && num(links[i]) == Some(MaxPage(links, num))
    decreases |links|
  {
    if links != [] {
      var init := links[..|links| - 1];
      MaxPageSpec(init, num);
      var m := MaxPage(links, num);
      forall i | 0 <= i < |init| ensures links[i] == init[i] { }
      if m != 1 && m == MaxPage(init, num) {
        var i :| 0 <= i < |init| && num(init[i]) == Some(MaxPage(init, num));
        assert links[i] == init[i];
      } else if m != 1 {
        assert num(links[|links| - 1]) == Some(m);
      }
    }
  }

  lemma TotalPagesSpec(pagination: Option<seq<string>>)
    ensures TotalPages(pagination) >= 1
    ensures pagination.Some? ==>
      var links := pagination.value;
      (forall i :: 0 <= i < |links| && PageNumber(links[i]).Some? ==> PageNumber(links[i]).value <= TotalPages(pagination)) &&
      (TotalPages(pagination) == 1 || exists i :: 0 <= i < |links| && PageNumber(links[i]) == Some(TotalPages(pagination)))
  {
    if pagination.Some? {
      MaxPageSpec(pagination.value, PageNumber);
    }
  }

  // ---------------------------------------------------------------------------------------
  // get_film_rating

  /** `get_film_rating`, counted in half-stars: two for each "★" and one for a "½" in the rating
      tag's text; `None` when the item has no rating tag. */
  function FilmRating(ratingTag: Option<string>): (r: Option<nat>)
    ensures r.Some? <==> ratingTag.Some?
    ensures r.Some? ==>
      r.value == 2 * multiset(ratingTag.value)['★'] + (if '½' in ratingTag.value then 1 else 0)
  {
    match ratingTag
    case None => None
    case Some(text) =>
      var t := Strip(text);
      StripKeeps(text, '★');
      StripKeeps(text, '½');
      Some(2 * CountChar(t, '★') + (if '½' in t then 1 else 0))
  }

  /** The string `get_film_rating` returns for a rating of `h` half-stars: `str(stars + 0.5)` or
      `str(stars)`. */
  function RatingString(h: nat): string
  {
    if h % 2 == 1 then NatToString(h / 2) + ".5" else NatToString(h / 2)
  }

  /** `float(rating)` never raises on a rating string and gives back the number of stars. */
  lemma RatingStringValue(h: nat)
    ensures ParseDecimal(RatingString(h)) == Some(h as real / 2.0)
  {
    var d := NatToString(h / 2);
    NatToStringValue(h / 2);
    if h % 2 == 1 {
      HalfRatingValue(d, h / 2, h);
    } else {
      WholeRatingValue(d, h / 2, h);
    }
  }

  /** "<stars>.5" reads as an odd number of half-stars. */
  lemma HalfRatingValue(d: string, stars: nat, h: nat)
    requires IsDigitString(d) && DigitsValue(d) == stars && h == 2 * stars + 1
    ensures ParseDecimal(d + ".5") == Some(h as real / 2.0)
  {
    HalfStars(h, stars);
    ParseDecimalHalf(d, h as real / 2.0);
  }

  /** "<stars>" reads as an even number of half-stars. */
  lemma WholeRatingValue(d: string, stars: nat, h: nat)
    requires IsDigitString(d) && DigitsValue(d) == stars && h == 2 * stars
    ensures ParseDecimal(d) == Some(h as real / 2.0)
  {
    WholeStars(h, stars);
    ParseDecimalDigits(d);
  }

  /** The number of stars of an odd number of half-stars, as a real. */
  lemma HalfStars(h: nat, stars: nat)
    requires h == 2 * stars + 1
    ensures stars as real + 0.5 == h as real / 2.0
  {
  }

  lemma WholeStars(h: nat, stars: nat)
    requires h == 2 * stars
    ensures stars as real == h as real / 2.0
  {
  }

  /** Different ratings have different strings: the rating counter keyed by the string counts
      each number of half-stars separately. */
  lemma RatingStringInjective(h1: nat, h2: nat)
    requires RatingString(h1) == RatingString(h2)
    ensures h1 == h2
  {
    RatingStringValue(h1);
    RatingStringValue(h2);
  }

  // ---------------------------------------------------------------------------------------
  // The film id and the film URL

  /** `json_url.split('/film/')[-1].split('/')[0]`. */
  function FilmId(jsonUrl: string): (id: string)
    ensures '/' !in id
  {
    SplitFirst(SplitLast(jsonUrl, "/film/"), '/')
  }

  /** `f"{base_url}/film/{film_id}/"`. */
  function FilmUrl(base: string, id: string): string
  {
    base + "/film/" + id + "/"
  }

  /** The id read back from a film URL is the id it was built from, when the id has no "/" and the
      base URL does not itself hold "/film/". */
  lemma FilmIdOfFilmUrl(base: string, id: string)
    requires '/' !in id
    requires FirstOccurrence(base + "/film/", "/film/") == Some(|base|)
    ensures FilmId(FilmUrl(base, id)) == id
  {
    FilmUrlAfterSeparator(base, id);
    NoSeparatorInId(id);
    SplitFirstOfId(id);
  }

  /** The first "/film/" of a film URL is the one after the base URL. */
  lemma FilmUrlAfterSeparator(base: string, id: string)
    requires FirstOccurrence(base + "/film/", "/film/") == Some(|base|)
    ensures SplitLast(FilmUrl(base, id), "/film/") == SplitLast(id + "/", "/film/")
  {
    var sep := "/film/";
    var prefix := base + sep;
    var u := FilmUrl(base, id);
    assert u == prefix + (id + "/");
    var r := FirstOccurrence(u, sep);
    assert u[|base|..|base| + |sep|] == sep;
    assert OccursAt(u, sep, |base|);
    assert r == Some(|base|) by {
      if r.value < |base| {
        assert u[r.value..r.value + |sep|] == prefix[r.value..r.value + |sep|];
        assert OccursAt(prefix, sep, r.value);
      }
    }
    assert u[|base| + |sep|..] == id + "/";
  }

  /** An id with no "/" followed by "/" holds no "/film/". */
  lemma NoSeparatorInId(id: string)
    requires '/' !in id
    ensures SplitLast(id + "/", "/film/") == id + "/"
  {
    var sep := "/film/";
    var rest := id + "/";
    forall q ensures !OccursAt(rest, sep, q) {
      if 0 <= q <= |rest| - |sep| {
        assert rest[q] == id[q] && id[q] in id;
        assert rest[q..q + |sep|][0] != sep[0];
      }
    }
  }

  lemma SplitFirstOfId(id: string)
    requires '/' !in id
    ensures SplitFirst(id + "/", '/') == id
  {
    var rest := id + "/";
    var r := SplitFirst(rest, '/');
    assert rest[|id|] == '/';
    assert rest[..|id|] == id;
  }

  // ---------------------------------------------------------------------------------------
  // The request plan of get_film_data

  /** `FilmDataOptions`. */
  datatype Options = Options(basicInfo: bool, genres: bool, cast: bool, ratings: bool)

  datatype DataType = BasicInfo | Genres | Cast

  /** Which kinds of data the cache holds for the film (each one a non-empty `get_film` result). */
  datatype Cached = Cached(basicInfo: bool, genres: bool, cast: bool)

  /** The requests one kind of data needs: none when it is cached or not asked for. */
  function PlanFor(kind: DataType, wanted: bool, cached: bool, url: string): seq<(DataType, string)>
  {
    if wanted && !cached then [(kind, url)] else []
  }

  /** The `cache_keys` of `get_film_data`: the film's JSON unless its basic information is cached
      (whatever `options.basic_info` says), then the genres page and the crew page when asked for
      and not cached. */
  function Plan(filmUrl: string, jsonUrl: string, options: Options, cached: Cached): seq<(DataType, string)>
  {
    PlanFor(BasicInfo, true, cached.basicInfo, jsonUrl) +
    PlanFor(Genres, options.genres, cached.genres, filmUrl + "genres/") +
    PlanFor(Cast, options.cast, cached.cast, filmUrl + "crew/")
  }

  /** The part of `get_film_data` that decides what to fetch: `urlsToFetch` and `cacheKeys` grow
      together. */
  method PlanRequests(filmUrl: string, jsonUrl: string, options: Options, cached: Cached)
    returns (urlsToFetch: seq<string>, cacheKeys: seq<(DataType, string)>)
    ensures cacheKeys == Plan(filmUrl, jsonUrl, options, cached)
    ensures |urlsToFetch| == |cacheKeys| && forall i :: 0 <= i < |cacheKeys| ==> urlsToFetch[i] == cacheKeys[i].1
  {
    urlsToFetch, cacheKeys := [], [];
    if !cached.basicInfo {
      urlsToFetch := urlsToFetch + [jsonUrl];
      cacheKeys := cacheKeys + [(BasicInfo, jsonUrl)];
    }
    if options.genres {
      if !cached.genres {
        var genreUrl := filmUrl + "genres/";
        urlsToFetch := urlsToFetch + [genreUrl];
        cacheKeys := cacheKeys + [(Genres, genreUrl)];
      }
    }
    if options.cast {
      if !cached.cast {
        urlsToFetch := urlsToFetch + [filmUrl + "crew/"];
        cacheKeys := cacheKeys + [(Cast, filmUrl + "crew/")];
      }
    }
  }

  /** A request is planned for a kind of data exactly when it is wanted and not cached, and there
      are at most three of them. */
  lemma PlanSpec(filmUrl: string, jsonUrl: string, options: Options, cached: Cached)
    ensures var p := Plan(filmUrl, jsonUrl, options, cached);
      |p| <= 3 &&
      ((BasicInfo, jsonUrl) in p <==> !cached.basicInfo) &&
      ((Genres, filmUrl + "genres/") in p <==> options.genres && !cached.genres) &&
      ((Cast, filmUrl + "crew/") in p <==> options.cast && !cached.cast)
  {
    var a := PlanFor(BasicInfo, true, cached.basicInfo, jsonUrl);
    var b := PlanFor(Genres, options.genres, cached.genres, filmUrl + "genres/");
    var c := PlanFor(Cast, options.cast, cached.cast, filmUrl + "crew/");
    assert Plan(filmUrl, jsonUrl, options, cached) == a + b + c;
  }

  /** Each planned request carries its kind's URL, and the kinds come in the order basic
      information, genres, cast, so each is requested at most once. */
  lemma PlanOrdered(filmUrl: string, jsonUrl: string, options: Options, cached: Cached)
    ensures var p := Plan(filmUrl, jsonUrl, options, cached);
      (forall i :: 0 <= i < |p| ==>
         (p[i].0 == BasicInfo ==> p[i].1 == jsonUrl) &&
         (p[i].0 == Genres ==> p[i].1 == filmUrl + "genres/") &&
         (p[i].0 == Cast ==> p[i].1 == filmUrl + "crew/")) &&
      (forall i, j :: 0 <= i < j < |p| ==> Rank(p[i].0) < Rank(p[j].0))
  {
    var a := PlanFor(BasicInfo, true, cached.basicInfo, jsonUrl);
    var b := PlanFor(Genres, options.genres, cached.genres, filmUrl + "genres/");
    var c := PlanFor(Cast, options.cast, cached.cast, filmUrl + "crew/");
    var p := a + b + c;
    forall i | 0 <= i < |p|
      ensures p[i] in a ==> i < |a|
      ensures p[i] in b ==> |a| <= i < |a| + |b|
      ensures p[i] in c ==> |a| + |b| <= i
    {
      if i < |a| {
        assert p[i] == a[i];
      } else if i < |a| + |b| {
        assert p[i] == b[i - |a|];
      } else {
        assert p[i] == c[i - |a| - |b|];
      }
    }
  }

  /** The position of a kind of data in the plan. */
  function Rank(kind: DataType): nat
  {
    match kind
    case BasicInfo => 0
    case Genres => 1
    case Cast => 2
  }

  // ---------------------------------------------------------------------------------------
  // The counters of fetch_user_stats

  /** What `get_film_data` returned for a film, as far as the statistics read it: the "year",
      "director" and "genres" entries, each `None` when absent. */
  datatype FilmData = FilmData(year: Option<string>, director: Option<string>, genres: Option<seq<string>>)

  /** A poster item of a list page: its details endpoint (absent for some items), the text of its
      rating tag, and the outcome of the film's data task (`None` when awaiting it raised). */
  datatype Item = Item(endpoint: Option<string>, ratingTag: Option<string>, data: Option<FilmData>)

  /** A list page: the link texts of its pagination block and its poster items. */
  datatype Page = Page(pagination: Option<seq<string>>, items: seq<Item>)

  /** The running statistics. The total rating is kept in half-stars, so it is exact. */
  datatype Tally = Tally(
    totalFilms: nat, processedFilms: nat, ratedFilms: nat, ratingSum: nat,
    years: seq<(int, int)>, decades: seq<(string, int)>, directors: seq<(string, int)>,
    genres: seq<(string, int)>, ratingDistribution: seq<(string, int)>)

  const EmptyTally := Tally(0, 0, 0, 0, [], [], [], [], [])

  /** `f"{(year // 10) * 10}s"`; Python's `//` floors, as Dafny's `/` does for a positive divisor. */
  function DecadeKey(year: int): string
  {
    IntToString(year / 10 * 10) + "s"
  }

  /** The year of a film as `int(year)` reads it: `None` when the entry is absent or `int`
      rejects it. */
  function YearOf(year: Option<string>): Option<int>
  {
    if year.None? then None else ParseInt(year.value)
  }

  /** Counting the year and its decade, whose key `decadeOf` computes. */
  function CountYear(t: Tally, year: Option<int>, decadeOf: int -> string): Tally
  {
    match year
    case None => t
    case Some(y) => t.(years := Incr(t.years, y), decades := Incr(t.decades, decadeOf(y)))
  }

  /** Counting a director other than "Unknown". */
  function CountDirector(t: Tally, director: Option<string>): Tally
  {
    if director.Some? && director.value != "Unknown" then t.(directors := Incr(t.directors, director.value)) else t
  }

  /** Counting each genre, when genres are asked for and the list is not empty. */
  function CountGenres(t: Tally, options: Options, genres: Option<seq<string>>): Tally
  {
    if options.genres && genres.Some? && genres.value != [] then t.(genres := IncrAll(t.genres, genres.value)) else t
  }

  /** Counting the rating, when ratings are asked for and the item has one (the rating string is
      never empty, and `float` accepts it). The distribution's key is `ratingKey` of the rating. */
  function CountRating(t: Tally, options: Options, rating: Option<nat>, ratingKey: nat -> string): Tally
  {
    if options.ratings && rating.Some? then
      t.(ratedFilms := t.ratedFilms + 1, ratingSum := t.ratingSum + rating.value,
         ratingDistribution := Incr(t.ratingDistribution, ratingKey(rating.value)))
    else t
  }

  /** The body of the second loop over a page's films. A film whose data task raised is not
      processed at all. */
  function CountFilm(t: Tally, item: Item, options: Options): Tally
  {
    match item.data
    case None => t
    case Some(d) => CountData(t, YearOf(d.year), d.director, d.genres, FilmRating(item.ratingTag), options,
                                DecadeKey, RatingString)
  }

  /** A processed film, with its year already read by `int` and its rating in half-stars. The
      program keys decades by `DecadeKey` and ratings by `RatingString`; nothing below depends on
      which keys those are. */
  function CountData(t: Tally, year: Option<int>, director: Option<string>, genres: Option<seq<string>>,
                     rating: Option<nat>, options: Options, decadeOf: int -> string, ratingKey: nat -> string): Tally
  {
    var t1 := t.(processedFilms := t.processedFilms + 1);
    CountRating(CountGenres(CountDirector(CountYear(t1, year, decadeOf), director), options, genres), options,
                rating, ratingKey)
  }

  function CountFilms(t: Tally, items: seq<Item>, options: Options): Tally
  {
    if items == [] then t else CountFilm(CountFilms(t, items[..|items| - 1], options), items[|items| - 1], options)
  }

  /** The items that get a data task: those with a details endpoint. */
  function Tasks(items: seq<Item>): (r: seq<Item>)
    ensures |r| <= |items| && forall k :: 0 <= k < |r| ==> r[k] in items && r[k].endpoint.Some?
  {
    if items == [] then []
    else Tasks(items[..|items| - 1]) + (if items[|items| - 1].endpoint.Some? then [items[|items| - 1]] else [])
  }

  /** One page: every item counts towards `total_films`; the items with an endpoint are then
      processed in order. */
  function CountPage(t: Tally, items: seq<Item>, options: Options): Tally
  {
    CountFilms(t.(totalFilms := t.totalFilms + |items|), Tasks(items), options)
  }

  /** The statistics after pages 1 to `n`: page 1 is the first page, and a later page that could
      not be fetched is skipped. */
  function Tallied(first: Page, pageAt: int -> Option<seq<Item>>, options: Options, n: int): Tally
    decreases n
  {
    if n < 1 then EmptyTally
    else CountPageAt(Tallied(first, pageAt, options, n - 1), first, pageAt, options, n)
  }

  /** Page `n` added to the statistics: the first page is at hand, a later one is fetched and is
      skipped when that fails. */
  function CountPageAt(t: Tally, first: Page, pageAt: int -> Option<seq<Item>>, options: Options, n: int): Tally
  {
    if n == 1 then CountPage(t, first.items, options)
    else
      match pageAt(n)
      case None => t
      case Some(items) => CountPage(t, items, options)
  }

  /** The two loops over one page's items. */
  method ProcessPage(t0: Tally, items: seq<Item>, options: Options) returns (t: Tally)
    ensures t == CountPage(t0, items, options)
  {
    t := t0;
    var filmTasks: seq<Item> := [];
    for i := 0 to |items|
      invariant t == t0.(totalFilms := t0.totalFilms + i)
      invariant filmTasks == Tasks(items[..i])
    {
      assert items[..i + 1][..i] == items[..i];
      t := t.(totalFilms := t.totalFilms + 1);
      if items[i].endpoint.None? {
        continue;
      }
      filmTasks := filmTasks + [items[i]];
    }
    assert items[..|items|] == items;
    var t1 := t;
    for j := 0 to |filmTasks|
      invariant t == CountFilms(t1, filmTasks[..j], options)
    {
      assert filmTasks[..j + 1][..j] == filmTasks[..j];
      t := CountFilm(t, filmTasks[j], options);
    }
    assert filmTasks[..|filmTasks|] == filmTasks;
  }

  /** The counters stay consistent: years and decades are counted together, no film is
      processed that was not counted, no rating is counted for an unprocessed film, the rating
      distribution adds up to the rated films, and every counter has distinct keys. */
  predicate Consistent(t: Tally)
  {
    Total(t.years) == Total(t.decades) &&
    t.ratedFilms <= t.processedFilms <= t.totalFilms &&
    Total(t.ratingDistribution) == t.ratedFilms &&
    UniqueKeys(t.years) && UniqueKeys(t.decades) && UniqueKeys(t.directors) &&
    UniqueKeys(t.genres) && UniqueKeys(t.ratingDistribution)
  }

  /** Without the options, the genre counter and the ratings stay empty. */
  predicate Unasked(t: Tally, options: Options)
  {
    (!options.genres ==> t.genres == []) &&
    (!options.ratings ==> t.ratedFilms == 0 && t.ratingSum == 0 && t.ratingDistribution == [])
  }

  lemma CountFilmConsistent(t: Tally, item: Item, options: Options)
    requires Consistent(t) && t.processedFilms < t.totalFilms
    ensures Consistent(CountFilm(t, item, options))
    ensures Unasked(t, options) ==> Unasked(CountFilm(t, item, options), options)
    ensures CountFilm(t, item, options).totalFilms == t.totalFilms
    ensures CountFilm(t, item, options).processedFilms == t.processedFilms + (if item.data.Some? then 1 else 0)
  {
    if item.data.Some? {
      var d := item.data.value;
      CountDataConsistent(t, YearOf(d.year), d.director, d.genres, FilmRating(item.ratingTag), options,
                          DecadeKey, RatingString);
    }
  }

  lemma CountDataConsistent(t: Tally, year: Option<int>, director: Option<string>, genres: Option<seq<string>>,
                            rating: Option<nat>, options: Options, decadeOf: int -> string,
                            ratingKey: nat -> string)
    requires Consistent(t) && t.processedFilms < t.totalFilms
    ensures Consistent(CountData(t, year, director, genres, rating, options, decadeOf, ratingKey))
    ensures Unasked(t, options) ==> Unasked(CountData(t, year, director, genres, rating, options, decadeOf, ratingKey), options)
    ensures CountData(t, year, director, genres, rating, options, decadeOf, ratingKey).totalFilms == t.totalFilms
    ensures CountData(t, year, director, genres, rating, options, decadeOf, ratingKey).processedFilms == t.processedFilms + 1
  {
    CountDataTotals(t, year, director, genres, rating, options, decadeOf, ratingKey);
    CountDataUnique(t, year, director, genres, rating, options, decadeOf, ratingKey);
  }

  /** The counting part of `CountDataConsistent`. */
  lemma CountDataTotals(t: Tally, year: Option<int>, director: Option<string>, genres: Option<seq<string>>,
                        rating: Option<nat>, options: Options, decadeOf: int -> string, ratingKey: nat -> string)
    requires Total(t.years) == Total(t.decades) && Total(t.ratingDistribution) == t.ratedFilms
    requires t.ratedFilms <= t.processedFilms < t.totalFilms
    ensures var r := CountData(t, year, director, genres, rating, options, decadeOf, ratingKey);
      Total(r.years) == Total(r.decades) && Total(r.ratingDistribution) == r.ratedFilms &&
      r.ratedFilms <= r.processedFilms <= r.totalFilms &&
      r.totalFilms == t.totalFilms && r.processedFilms == t.processedFilms + 1 &&
      (Unasked(t, options) ==> Unasked(r, options))
  {
    var r := CountData(t, year, director, genres, rating, options, decadeOf, ratingKey);
    var counted := options.ratings && rating.Some?;
    assert r.years == (if year.Some? then Incr(t.years, year.value) else t.years);
    assert r.decades == (if year.Some? then Incr(t.decades, decadeOf(year.value)) else t.decades);
    assert r.ratingDistribution == (if counted then Incr(t.ratingDistribution, ratingKey(rating.value)) else t.ratingDistribution);
    assert r.ratedFilms == t.ratedFilms + (if counted then 1 else 0);
    assert r.processedFilms == t.processedFilms + 1 && r.totalFilms == t.totalFilms;
    if year.Some? {
      IncrTotal(t.years, year.value);
      IncrTotal(t.decades, decadeOf(year.value));
    }
    if options.ratings && rating.Some? {
      IncrTotal(t.ratingDistribution, ratingKey(rating.value));
    }
  }

  /** The unique-keys part of `CountDataConsistent`. */
  lemma CountDataUnique(t: Tally, year: Option<int>, director: Option<string>, genres: Option<seq<string>>,
                        rating: Option<nat>, options: Options, decadeOf: int -> string, ratingKey: nat -> string)
    requires UniqueKeys(t.years) && UniqueKeys(t.decades) && UniqueKeys(t.directors)
    requires UniqueKeys(t.genres) && UniqueKeys(t.ratingDistribution)
    ensures var r := CountData(t, year, director, genres, rating, options, decadeOf, ratingKey);
      UniqueKeys(r.years) && UniqueKeys(r.decades) && UniqueKeys(r.directors) &&
      UniqueKeys(r.genres) && UniqueKeys(r.ratingDistribution)
  {
    if year.Some? {
      IncrUnique(t.years, year.value);
      IncrUnique(t.decades, decadeOf(year.value));
    }
    if director.Some? && director.value != "Unknown" {
      IncrUnique(t.directors, director.value);
    }
    if options.genres && genres.Some? && genres.value != [] {
      IncrAllUnique(t.genres, genres.value);
    }
    if options.ratings && rating.Some? {
      IncrUnique(t.ratingDistribution, ratingKey(rating.value));
    }
  }

  lemma {:induction false} CountFilmsConsistent(t: Tally, items: seq<Item>, options: Options)
    requires Consistent(t) && t.processedFilms + |items| <= t.totalFilms
    ensures Consistent(CountFilms(t, items, options))
    ensures Unasked(t, options) ==> Unasked(CountFilms(t, items, options), options)
    ensures CountFilms(t, items, options).totalFilms == t.totalFilms
    ensures CountFilms(t, items, options).processedFilms <= t.processedFilms + |items|
    decreases |items|
  {
    if items != [] {
      var init := items[..|items| - 1];
      CountFilmsConsistent(t, init, options);
      CountFilmConsistent(CountFilms(t, init, options), items[|items| - 1], options);
    }
  }

  /** Each page keeps the statistics consistent and adds its number of items to `total_films`. */
  lemma CountPageConsistent(t: Tally, items: seq<Item>, options: Options)
    requires Consistent(t)
    ensures Consistent(CountPage(t, items, options))
    ensures Unasked(t, options) ==> Unasked(CountPage(t, items, options), options)
    ensures CountPage(t, items, options).totalFilms == t.totalFilms + |items|
  {
    CountFilmsConsistent(t.(totalFilms := t.totalFilms + |items|), Tasks(items), options);
  }

  lemma {:induction false} TalliedConsistent(first: Page, pageAt: int -> Option<seq<Item>>, options: Options, n: int)
    ensures Consistent(Tallied(first, pageAt, options, n))
    ensures Unasked(Tallied(first, pageAt, options, n), options)
    decreases n
  {
    if n >= 1 {
      TalliedConsistent(first, pageAt, options, n - 1);
      var t := Tallied(first, pageAt, options, n - 1);
      if n == 1 {
        CountPageConsistent(t, first.items, options);
      } else if pageAt(n).Some? {
        CountPageConsistent(t, pageAt(n).value, options);
      }
    }
  }

  /** The statistics `fetch_user_stats` returns. `average_rating` and `films_per_year` are exact
      quotients here (the rounding to two places is not modelled); the percentage table and the
      monthly distribution are left out. */
  datatype UserStats = UserStats(
    tally: Tally,
    averageRating: Option<real>,
    ratingDistribution: Option<seq<(string, int)>>,
    genres: Option<seq<(string, int)>>,
    topGenres: Option<seq<(string, int)>>,
    topYears: seq<(int, int)>,
    topDirectors: seq<(string, int)>,
    topDecades: seq<(string, int)>,
    filmsPerYear: Option<real>)

  /** `total_rating / rated_films` in stars, set only when some film was rated. */
  function AverageRating(t: Tally, options: Options): Option<real>
  {
    if options.ratings && t.ratedFilms > 0 then Some(t.ratingSum as real / (2 * t.ratedFilms) as real) else None
  }

  /** `films_per_year` as written: `total_films / len(years)` whenever some film was listed, which
      raises ZeroDivisionError when no film had a usable year. */
  function FilmsPerYearAsWritten(t: Tally): Result<Option<real>>
  {
    if t.totalFilms > 0 then
      if |t.years| == 0 then Err("ZeroDivisionError") else Ok(Some(t.totalFilms as real / |t.years| as real))
    else Ok(None)
  }

  /** `films_per_year` as intended: the ratio, present only when there is a year to divide by. */
  function FilmsPerYear(t: Tally): Option<real>
  {
    if t.totalFilms > 0 && |t.years| > 0 then Some(t.totalFilms as real / |t.years| as real) else None
  }

  /** One listed film without a details endpoint is enough: it counts towards `total_films` but
      never yields a year, so the division raises and the whole statistics request fails. */
  lemma FilmsPerYearRaises(options: Options)
    ensures FilmsPerYearAsWritten(CountPage(EmptyTally, [Item(None, None, None)], options)).Err?
  {
    var t := CountPage(EmptyTally, [Item(None, None, None)], options);
    assert Tasks([Item(None, None, None)]) == [];
    assert t.totalFilms == 1 && t.years == [];
  }

  /** The corrected ratio agrees with the original wherever that does not raise, it raises exactly
      when films were listed but none had a year, and the ratio, when present, is positive. */
  lemma FilmsPerYearSpec(t: Tally)
    ensures FilmsPerYearAsWritten(t).Err? <==> t.totalFilms > 0 && |t.years| == 0
    ensures FilmsPerYearAsWritten(t).Ok? ==> FilmsPerYearAsWritten(t).value == FilmsPerYear(t)
    ensures FilmsPerYear(t).Some? <==> t.totalFilms > 0 && |t.years| > 0
    ensures FilmsPerYear(t).Some? ==> FilmsPerYear(t).value > 0.0
  {
  }

  function Summarize(t: Tally, options: Options): UserStats
  {
    UserStats(
      t, AverageRating(t, options),
      if options.ratings then Some(t.ratingDistribution) else None,
      if options.genres then Some(t.genres) else None,
      if options.genres then Some(Take(SortDesc(t.genres), 10)) else None,
      Take(SortDesc(t.years), 10), Take(SortDesc(t.directors), 10), SortDesc(t.decades),
      FilmsPerYear(t))
  }

  /** `fetch_user_stats` over the user's list pages: `first` is the first page (`None` when it
      could not be fetched, which raises), `pageAt(n)` is page `n` (`None` when fetching it
      failed, which skips it). As written, the division for `films_per_year` raises when films
      were listed but no year was counted, and the handler re-raises it. */
  function UserStatsOf(first: Option<Page>, pageAt: int -> Option<seq<Item>>, options: Options): Result<UserStats>
  {
    if first.None? then Err("RuntimeError")
    else
      var t := Tallied(first.value, pageAt, options, TotalPages(first.value.pagination));
      if FilmsPerYearAsWritten(t).Err? then Err(FilmsPerYearAsWritten(t).error) else Ok(Summarize(t, options))
  }

  method FetchUserStats(first: Option<Page>, pageAt: int -> Option<seq<Item>>, options: Options)
    returns (r: Result<UserStats>)
    ensures r == UserStatsOf(first, pageAt, options)
  {
    if first.None? {
      return Err("RuntimeError");
    }
    var t := FetchPages(first.value, pageAt, options);
    if t.totalFilms > 0 && |t.years| == 0 {
      return Err("ZeroDivisionError");
    }
    return Ok(Summarize(t, options));
  }

  /** Every item of the page failed its data task (or has no details endpoint). */
  predicate NoData(items: seq<Item>)
  {
    forall i :: 0 <= i < |items| ==> items[i].data.None?
  }

  /** Items whose data tasks all failed count towards `total_films` only. */
  lemma {:induction false} CountFilmsNoData(t: Tally, items: seq<Item>, options: Options)
    requires NoData(items)
    ensures CountFilms(t, items, options) == t
    decreases |items|
  {
    if items != [] {
      CountFilmsNoData(t, items[..|items| - 1], options);
    }
  }

  lemma {:induction false} TasksNoData(items: seq<Item>)
    requires NoData(items)
    ensures NoData(Tasks(items))
    decreases |items|
  {
    if items != [] {
      TasksNoData(items[..|items| - 1]);
    }
  }

  /** A page whose data tasks all fail only adds its items to `total_films`. */
  lemma CountPageNoData(t: Tally, items: seq<Item>, options: Options)
    requires NoData(items)
    ensures CountPage(t, items, options) == t.(totalFilms := t.totalFilms + |items|)
  {
    TasksNoData(items);
    CountFilmsNoData(t.(totalFilms := t.totalFilms + |items|), Tasks(items), options);
  }

  /** Over pages whose data tasks all fail, no year is ever counted and `total_films` only
      grows. */
  lemma {:induction false} TalliedNoData(first: Page, pageAt: int -> Option<seq<Item>>, options: Options, n: int)
    requires NoData(first.items)
    requires forall m :: pageAt(m).Some? ==> NoData(pageAt(m).value)
    ensures Tallied(first, pageAt, options, n).years == []
    ensures n >= 1 ==> Tallied(first, pageAt, options, n).totalFilms >= |first.items|
    decreases n
  {
    if n >= 1 {
      TalliedNoData(first, pageAt, options, n - 1);
      var t := Tallied(first, pageAt, options, n - 1);
      assert Tallied(first, pageAt, options, n) == CountPageAt(t, first, pageAt, options, n);
      if n == 1 {
        CountPageNoData(t, first.items, options);
      } else if pageAt(n).Some? {
        CountPageNoData(t, pageAt(n).value, options);
      }
    }
  }

  /** When every awaited film task raises, a user with any film listed on the first page gets
      ZeroDivisionError instead of statistics. */
  lemma NoDataRaises(first: Page, pageAt: int -> Option<seq<Item>>, options: Options)
    requires first.items != [] && NoData(first.items)
    requires forall m :: pageAt(m).Some? ==> NoData(pageAt(m).value)
    ensures UserStatsOf(Some(first), pageAt, options) == Err("ZeroDivisionError")
  {
    TotalPagesSpec(first.pagination);
    TalliedNoData(first, pageAt, options, TotalPages(first.pagination));
  }

  /** The page loop of `fetch_user_stats`, over pages 1 to the page count of the first page. */
  method FetchPages(firstPage: Page, pageAt: int -> Option<seq<Item>>, options: Options) returns (t: Tally)
    ensures t == Tallied(firstPage, pageAt, options, TotalPages(firstPage.pagination))
  {
    var totalPages := GetTotalPages(firstPage.pagination);
    assert totalPages >= 1 by {
      TotalPagesSpec(firstPage.pagination);
    }
    t := FetchPagesUpTo(firstPage, pageAt, options, totalPages);
  }

  method FetchPagesUpTo(firstPage: Page, pageAt: int -> Option<seq<Item>>, options: Options, totalPages: int)
    returns (t: Tally)
    requires totalPages >= 1
    ensures t == Tallied(firstPage, pageAt, options, totalPages)
  {
    t := EmptyTally;
    for page := 1 to totalPages + 1
      invariant t == Tallied(firstPage, pageAt, options, page - 1)
    {
      t := FetchPage(t, firstPage, pageAt, options, page);
    }
  }

  /** One turn of the page loop of `fetch_user_stats`. */
  method FetchPage(t0: Tally, first: Page, pageAt: int -> Option<seq<Item>>, options: Options, page: int)
    returns (t: Tally)
    requires page >= 1
    ensures t == CountPageAt(t0, first, pageAt, options, page)
  {
    t := t0;
    var items: seq<Item>;
    if page > 1 {
      var pageItems := pageAt(page);
      if pageItems.None? {
        return;
      }
      items := pageItems.value;
    } else {
      items := first.items;
    }
    t := ProcessPage(t, items, options);
  }

  /** What the returned statistics promise: the request raises exactly when the first page is
      missing or films were listed but no year was counted; otherwise the year and decade
      counters have equal totals, no more films are processed than listed, the rating
      distribution adds up to the rated films, the average rating is present exactly when ratings
      are asked for and some film was rated (and is then not negative), the genre and rating
      counters are present exactly when asked for, and films per year is present exactly when
      films were listed, as the number of films over the number of years. */
  lemma UserStatsSpec(first: Option<Page>, pageAt: int -> Option<seq<Item>>, options: Options)
    ensures UserStatsOf(first, pageAt, options).Err? <==>
      first.None? ||
      (var t := Tallied(first.value, pageAt, options, TotalPages(first.value.pagination));
       t.totalFilms > 0 && t.years == [])
    ensures UserStatsOf(first, pageAt, options).Ok? ==> StatsHold(UserStatsOf(first, pageAt, options).value, options)
    ensures UserStatsOf(first, pageAt, options).Ok? ==>
      var s := UserStatsOf(first, pageAt, options).value;
      (s.filmsPerYear.Some? <==> s.tally.totalFilms > 0) &&
      (s.filmsPerYear.Some? ==>
         |s.tally.years| > 0 && s.filmsPerYear.value == s.tally.totalFilms as real / |s.tally.years| as real)
  {
    if first.Some? {
      var t := Tallied(first.value, pageAt, options, TotalPages(first.value.pagination));
      TalliedConsistent(first.value, pageAt, options, TotalPages(first.value.pagination));
      SummaryResultSpec(t, options, UserStatsOf(first, pageAt, options));
    }
  }

  /** The end of `fetch_user_stats` over the final counters. */
  lemma SummaryResultSpec(t: Tally, options: Options, r: Result<UserStats>)
    requires Consistent(t) && Unasked(t, options)
    requires r == if FilmsPerYearAsWritten(t).Err? then Err(FilmsPerYearAsWritten(t).error) else Ok(Summarize(t, options))
    ensures r.Err? <==> t.totalFilms > 0 && t.years == []
    ensures r.Ok? ==> StatsHold(r.value, options) && r.value.tally == t
    ensures r.Ok? ==> (r.value.filmsPerYear.Some? <==> t.totalFilms > 0)
    ensures r.Ok? && r.value.filmsPerYear.Some? ==>
      |t.years| > 0 && r.value.filmsPerYear.value == t.totalFilms as real / |t.years| as real
  {
    FilmsPerYearSpec(t);
    if r.Ok? {
      SummarizeSpec(t, options);
    }
  }

  predicate StatsHold(s: UserStats, options: Options)
  {
    var t := s.tally;
    Total(t.years) == Total(t.decades) &&
    t.ratedFilms <= t.processedFilms <= t.totalFilms &&
    (s.averageRating.Some? <==> options.ratings && t.ratedFilms > 0) &&
    (s.averageRating.Some? ==> s.averageRating.value >= 0.0) &&
    (s.ratingDistribution.Some? <==> options.ratings) &&
    (s.ratingDistribution.Some? ==> Total(s.ratingDistribution.value) == t.ratedFilms) &&
    (s.genres.Some? <==> options.genres) &&
    (!options.ratings ==> t.ratedFilms == 0)
  }

  lemma SummarizeSpec(t: Tally, options: Options)
    requires Consistent(t) && Unasked(t, options)
    ensures StatsHold(Summarize(t, options), options)
  {
  }
}
