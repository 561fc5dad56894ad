/** The user-profile statistics of stats.py: a profile built from the raw per-user counters, the
    preferred genres, directors and decades (threshold filter, stable sort by count, top-N), and the
    rating-tendency classifier. Everything here is a pure function of its arguments.
    Ratings are counted in half-stars: 7 half-stars is the rating "3.5". */
module Stats {
  import opened Wrappers
  import opened Counts

  /** The raw statistics dictionary handed to `calculate_user_profile`; a missing key is None. */
  datatype RawStats = RawStats(
    username: Option<string>,
    totalFilms: Option<int>,
    averageRating: Option<real>,
    topGenres: Option<seq<(string, int)>>,
    topDirectors: Option<seq<(string, int)>>,
    topDecades: Option<seq<(string, int)>>,
    ratingDistribution: Option<seq<(nat, int)>>)

  datatype UserProfile = UserProfile(
    username: string,
    totalFilms: int,
    averageRating: real,
    preferredGenres: seq<(string, int)>,
    preferredDirectors: seq<(string, int)>,
    preferredDecades: seq<(string, int)>,
    ratingDistribution: seq<(nat, int)>)

  datatype Tendency = Unknown | Generous | Critical | Balanced

  function GetOr<T>(o: Option<T>, default: T): T
  {
    if o.Some? then o.value else default
  }

  /** `if key in raw and raw[key]: field = raw[key]`, the field otherwise staying an empty dict. */
  function NonEmptyOr<T>(o: Option<seq<T>>): seq<T>
  {
    if o.Some? && o.value != [] then o.value else []
  }

  function CalculateUserProfile(raw: RawStats): (p: UserProfile)
    ensures p.username == GetOr(raw.username, "")
    ensures p.totalFilms == GetOr(raw.totalFilms, 0) && p.averageRating == GetOr(raw.averageRating, 0.0)
    ensures raw.topGenres.Some? && raw.topGenres.value != [] ==> p.preferredGenres == raw.topGenres.value
    ensures raw.topGenres.None? || raw.topGenres.value == [] ==> p.preferredGenres == []
    ensures raw.topDirectors.Some? && raw.topDirectors.value != [] ==> p.preferredDirectors == raw.topDirectors.value
    ensures raw.topDirectors.None? || raw.topDirectors.value == [] ==> p.preferredDirectors == []
    ensures raw.topDecades.Some? && raw.topDecades.value != [] ==> p.preferredDecades == raw.topDecades.value
    ensures raw.topDecades.None? || raw.topDecades.value == [] ==> p.preferredDecades == []
    ensures raw.ratingDistribution.Some? && raw.ratingDistribution.value != [] ==> p.ratingDistribution == raw.ratingDistribution.value
    ensures raw.ratingDistribution.None? || raw.ratingDistribution.value == [] ==> p.ratingDistribution == []
  {
    UserProfile(
      GetOr(raw.username, ""),
      GetOr(raw.totalFilms, 0),
      GetOr(raw.averageRating, 0.0),
      NonEmptyOr(raw.topGenres),
      NonEmptyOr(raw.topDirectors),
      NonEmptyOr(raw.topDecades),
      NonEmptyOr(raw.ratingDistribution))
  }

  const GenreCap := 10
  const DirectorCap := 15
  const DefaultThreshold := 2

  /** The entries behind a preference list: those with count >= threshold, stably sorted by count,
      largest first, cut to `cap`. */
  function Ranked(data: seq<(string, int)>, threshold: int, cap: nat): seq<(string, int)>
  {
    if data == [] then [] else Take(SortDesc(AtLeast(data, threshold)), cap)
  }

  /** `identify_genre_preferences`: the names of the ranked genres (at most 10). */
  function IdentifyGenrePreferences(genres: seq<(string, int)>, threshold: int): seq<string>
  {
    KeysOf(Ranked(genres, threshold, GenreCap))
  }

  /** `identify_director_preferences`: the names of the ranked directors (at most 15). */
  function IdentifyDirectorPreferences(directors: seq<(string, int)>, threshold: int): seq<string>
  {
    KeysOf(Ranked(directors, threshold, DirectorCap))
  }

  lemma TakeWithCount(s: seq<(string, int)>, k: nat, n: int)
    ensures WithCount(Take(s, k), n) <= WithCount(s, n)
  {
    if |s| > k {
      WithCountAppend(s[..k], s[k..], n);
      assert s == s[..k] + s[k..];
    }
  }

  lemma {:induction false} WithCountAppend<K>(a: seq<(K, int)>, b: seq<(K, int)>, n: int)
    ensures WithCount(a + b, n) == WithCount(a, n) + WithCount(b, n)
  {
    if a != [] {
      WithCountAppend(a[1..], b, n);
      assert (a + b)[1..] == a[1..] + b;
    } else {
      assert a + b == b;
    }
  }

  lemma RankedMembers(data: seq<(string, int)>, threshold: int, cap: nat)
    ensures var r := Ranked(data, threshold, cap);
      forall e :: e in r ==> e in data && e.1 >= threshold
  {
    var r := Ranked(data, threshold, cap);
    var f := AtLeast(data, threshold);
    var all := SortDesc(f);
    if data != [] {
      forall e | e in r ensures e in data && e.1 >= threshold {
        assert r == all[..|r|];
        assert e in multiset(all);
        assert e in multiset(data);
        var k :| 0 <= k < |f| && f[k] == e;
      }
    }
  }

  /** What a preference list promises: at most `cap` entries, each from the input and at or above
      the threshold, with distinct names, ordered by count (largest first), and ties in input order:
      for every count at or above the threshold, the entries with that count are the first ones the
      input has with that count. */
  lemma RankedSpec(data: seq<(string, int)>, threshold: int, cap: nat)
    requires UniqueKeys(data)
    ensures var r := Ranked(data, threshold, cap);
      |r| <= cap && NonIncreasing(r) && UniqueKeys(r) &&
      (forall e :: e in r ==> e in data && e.1 >= threshold) &&
      (forall n :: n >= threshold ==> WithCount(r, n) <= WithCount(data, n))
  {
    var r := Ranked(data, threshold, cap);
    var f := AtLeast(data, threshold);
    var all := SortDesc(f);
    RankedMembers(data, threshold, cap);
    if data != [] {
      SortDescSorted(f);
      AtLeastUnique(data, threshold);
      SortDescUnique(f);
      assert r == all[..|r|];
      forall n | n >= threshold ensures WithCount(r, n) <= WithCount(data, n) {
        TakeWithCount(all, cap, n);
        SortDescStable(f, n);
        AtLeastWithCount(data, threshold, n);
      }
      forall i, j | 0 <= i < j < |r| ensures r[i].0 != r[j].0 {
        assert r[i] == all[i] && r[j] == all[j];
      }
    }
  }

  /** The cut keeps the best entries: the list is as long as the cap allows, and every qualifying
      entry that was cut has a count no larger than any kept one. */
  lemma RankedTop(data: seq<(string, int)>, threshold: int, cap: nat)
    requires data != []
    ensures var all := SortDesc(AtLeast(data, threshold));
      var r := Ranked(data, threshold, cap);
      |r| == (if |all| < cap then |all| else cap) &&
      forall i, j :: 0 <= i < |r| <= j < |all| ==> r[i].1 >= all[j].1
  {
    var all := SortDesc(AtLeast(data, threshold));
    SortDescSorted(AtLeast(data, threshold));
    var r := Ranked(data, threshold, cap);
    assert r == all[..|r|];
  }

  /** The genre list has at most 10 names; the director list at most 15. */
  lemma PreferenceCaps(genres: seq<(string, int)>, directors: seq<(string, int)>, threshold: int)
    ensures |IdentifyGenrePreferences(genres, threshold)| <= 10
    ensures |IdentifyDirectorPreferences(directors, threshold)| <= 15
    ensures genres == [] ==> IdentifyGenrePreferences(genres, threshold) == []
    ensures directors == [] ==> IdentifyDirectorPreferences(directors, threshold) == []
  {
  }

  /** Sum of the counts of the histogram entries whose rating satisfies the half-star test. */
  function CountHigh(dist: seq<(nat, int)>): int
  {
    if dist == [] then 0 else (if dist[0].0 >= 8 then dist[0].1 else 0) + CountHigh(dist[1..])
  }

  function CountLow(dist: seq<(nat, int)>): int
  {
    if dist == [] then 0 else (if dist[0].0 <= 5 then dist[0].1 else 0) + CountLow(dist[1..])
  }

  /** `calculate_rating_tendency`: "generous" when more than 40% of the ratings are 4.0 or more
      (checked first), else "critical" when more than 30% are 2.5 or less, else "balanced". The
      percentages are computed exactly. */
  function CalculateRatingTendency(dist: seq<(nat, int)>): Tendency
  {
    if dist == [] then Unknown
    else
      var total := Total(dist);
      if total == 0 then Unknown
      else
        var highPct := (CountHigh(dist) as real) / (total as real) * 100.0;
        var lowPct := (CountLow(dist) as real) / (total as real) * 100.0;
        if highPct > 40.0 then Generous
        else if lowPct > 30.0 then Critical
        else Balanced
  }

  lemma ShareAbove(part: int, total: int, pct: int, num: int, den: int)
    requires total > 0 && den > 0 && pct * den == 100 * num
    ensures ((part as real) / (total as real) * 100.0 > pct as real) <==> den * part > num * total
  {
    var q := (part as real) / (total as real);
    assert q * (total as real) == part as real;
    if den * part > num * total {
      assert (den as real) * (part as real) > (num as real) * (total as real);
      assert q * 100.0 > pct as real by {
        assert (den as real) * q * (total as real) > (num as real) * (total as real);
        assert (den as real) * q > num as real;
        assert (pct as real) * (den as real) == 100.0 * (num as real);
      }
    } else {
      assert (den as real) * (part as real) <= (num as real) * (total as real);
      assert q * 100.0 <= pct as real by {
        assert (den as real) * q * (total as real) <= (num as real) * (total as real);
        assert (den as real) * q <= num as real;
        assert (pct as real) * (den as real) == 100.0 * (num as real);
      }
    }
  }

  /** The classifier in integer terms, for a histogram with a positive total: generous iff
      5 * high > 2 * total, whatever the share of low ratings; otherwise critical iff
      10 * low > 3 * total; otherwise balanced. An empty histogram or a zero total is unknown. */
  lemma RatingTendencySpec(dist: seq<(nat, int)>)
    ensures dist == [] || Total(dist) == 0 ==> CalculateRatingTendency(dist) == Unknown
    ensures Total(dist) > 0 ==>
      (CalculateRatingTendency(dist) == Generous <==> 5 * CountHigh(dist) > 2 * Total(dist))
    ensures Total(dist) > 0 && 5 * CountHigh(dist) <= 2 * Total(dist) ==>
      (CalculateRatingTendency(dist) == Critical <==> 10 * CountLow(dist) > 3 * Total(dist))
    ensures Total(dist) > 0 ==> CalculateRatingTendency(dist) != Unknown
  {
    var total := Total(dist);
    if total > 0 {
      assert dist != [];
      ShareAbove(CountHigh(dist), total, 40, 2, 5);
      ShareAbove(CountLow(dist), total, 30, 3, 10);
    }
  }

  /** `get_decade_preferences`: the decades stably sorted by count, largest first, keeping those
      counted more than once. */
  function GetDecadePreferences(decades: seq<(string, int)>): seq<string>
  {
    if decades == [] then [] else KeysOf(AtLeast(SortDesc(decades), 2))
  }

  lemma AtLeastCons(x: (string, int), s: seq<(string, int)>, t: int)
    ensures AtLeast([x] + s, t) == (if x.1 >= t then [x] else []) + AtLeast(s, t)
  {
    assert ([x] + s)[1..] == s;
  }

  lemma AtLeastHead(x: (string, int), s: seq<(string, int)>, t: int)
    requires NonIncreasing(s) && (s == [] || x.1 >= s[0].1)
    ensures Insert(x, AtLeast(s, t)) == [x] + AtLeast(s, t)
  {
    var f := AtLeast(s, t);
    if f != [] {
      assert f[0] in multiset(s);
      var k :| 0 <= k < |s| && s[k] == f[0];
    }
  }

  lemma {:induction false} AtLeastInsert(x: (string, int), s: seq<(string, int)>, t: int)
    requires NonIncreasing(s)
    ensures AtLeast(Insert(x, s), t) == if x.1 >= t then Insert(x, AtLeast(s, t)) else AtLeast(s, t)
  {
    if s == [] || x.1 >= s[0].1 {
      assert Insert(x, s) == [x] + s;
      AtLeastCons(x, s, t);
      if x.1 >= t {
        AtLeastHead(x, s, t);
      }
    } else {
      NonIncreasingTail(s);
      AtLeastInsert(x, s[1..], t);
      AtLeastInsertBehind(x, s, t);
    }
  }

  lemma NonIncreasingTail(s: seq<(string, int)>)
    requires NonIncreasing(s) && s != []
    ensures NonIncreasing(s[1..])
  {
    forall i, j | 0 <= i < j < |s| - 1 ensures s[1..][i].1 >= s[1..][j].1 {
      assert s[1..][i] == s[i + 1] && s[1..][j] == s[j + 1];
    }
  }

  lemma {:induction false} AtLeastInsertBehind(x: (string, int), s: seq<(string, int)>, t: int)
    requires s != [] && x.1 < s[0].1
    requires AtLeast(Insert(x, s[1..]), t) == if x.1 >= t then Insert(x, AtLeast(s[1..], t)) else AtLeast(s[1..], t)
    ensures AtLeast(Insert(x, s), t) == if x.1 >= t then Insert(x, AtLeast(s, t)) else AtLeast(s, t)
  {
    var s0, tail := s[0], s[1..];
    var rest := Insert(x, tail);
    var a := AtLeast(tail, t);
    assert s == [s0] + tail;
    InsertBehind(x, s0, tail);
    AtLeastCons(s0, rest, t);
    AtLeastCons(s0, tail, t);
    if x.1 >= t {
      InsertBehind(x, s0, a);
    }
  }

  lemma InsertBehind(x: (string, int), y: (string, int), s: seq<(string, int)>)
    requires x.1 < y.1
    ensures Insert(x, [y] + s) == [y] + Insert(x, s)
  {
    assert ([y] + s)[1..] == s;
  }

  /** Filtering by count and the stable sort commute: `get_decade_preferences` lists exactly the
      decades with count > 1 in the order the stable descending sort gives them. */
  lemma {:induction false} FilterSortCommute(c: seq<(string, int)>, t: int)
    ensures AtLeast(SortDesc(c), t) == SortDesc(AtLeast(c, t))
  {
    if c != [] {
      FilterSortCommute(c[1..], t);
      SortDescSorted(c[1..]);
      AtLeastInsert(c[0], SortDesc(c[1..]), t);
    }
  }

  lemma DecadePreferencesSpec(decades: seq<(string, int)>)
    requires UniqueKeys(decades)
    ensures var r := GetDecadePreferences(decades);
      exists e :: r == KeysOf(e) && |e| <= |decades| && NonIncreasing(e) && AllAtLeast(e, 2) && UniqueKeys(e) &&
        (forall n :: n >= 2 ==> WithCount(e, n) == WithCount(decades, n))
  {
    var e := AtLeast(SortDesc(decades), 2);
    FilterSortCommute(decades, 2);
    var f := AtLeast(decades, 2);
    SortDescSorted(f);
    AtLeastUnique(decades, 2);
    SortDescUnique(f);
    forall n | n >= 2 ensures WithCount(e, n) == WithCount(decades, n) {
      SortDescStable(f, n);
      AtLeastWithCount(decades, 2, n);
    }
    if decades == [] {
      assert GetDecadePreferences(decades) == KeysOf(e);
    }
  }
}
