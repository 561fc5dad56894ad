/** The title-page field extraction of imdb_scraper.py. The HTML selectors are outside the model:
    a `Page` holds, per field, the texts those selectors produced, in document order, and the rules
    the scraper applies to them (first match wins, de-duplication with a cap, defaults) are modelled
    here as loops proved against specification functions. */
module ImdbScraper {
  import opened Wrappers
  import opened Text
  import Counts

  const MaxGenres := 5
  const MaxCast := 5
  const MinYear := 1900
  const MaxYear := 2030

  /** The `Movie` record. Ratings are exact reals. */
  datatype Movie = Movie(
    title: string,
    year: int,
    director: string,
    genres: seq<string>,
    cast: seq<string>,
    rating: real,
    numVotes: int,
    runtime: int,
    overview: string,
    imdbId: string,
    posterUrl: string)

  /** What the selectors found on one title page. */
  datatype Page = Page(
    heroTitle: Option<string>,       // h1[data-testid="hero__pageTitle"] span
    classTitle: Option<string>,      // h1.sc-afe43def-0
    anyTitle: Option<string>,        // h1
    yearLinks: seq<string>,          // a[href*="/year/"]
    text: string,                    // the whole page text, for the "(dddd)" fallback
    personLinks: seq<(string, string)>, // a[href*="/name/nm"]: link text, parent text
    genreLinks: seq<string>,
    castLinks: seq<string>,          // a[data-testid="cast-item-characters-link"]
    castCells: seq<string>,          // td.primary_photo + td a
    ratingTexts: seq<string>,
    voteTexts: seq<string>,
    runtimeTexts: seq<string>,
    plotTexts: seq<string>,
    posterSrcs: seq<string>,         // src of img[data-testid="hero-media__poster"] ("" when absent)
    mediaSrcs: seq<string>)          // src of .ipc-media img

  /** `Movie.to_dict`: the same fields, with only the first five cast members. */
  function ToDict(m: Movie): (d: Movie)
    ensures d.cast == Counts.Take(m.cast, MaxCast)
    ensures d.(cast := m.cast) == m
  {
    m.(cast := Counts.Take(m.cast, MaxCast))
  }

  lemma ToDictIdempotent(m: Movie)
    ensures ToDict(ToDict(m)) == ToDict(m)
    ensures |m.cast| <= MaxCast ==> ToDict(m) == m
  {
  }

  predicate NoDuplicates(s: seq<string>)
  {
    forall i, j :: 0 <= i < j < |s| ==> s[i] != s[j]
  }

  // ----- genres and cast: de-duplication with a cap -----

  /** The names kept from `cands` in order: each normalised text that is non-empty and not kept
      already. */
  function KeepDistinct(cands: seq<string>, norm: string -> string): seq<string>
  {
    if cands == [] then []
    else
      var prev := KeepDistinct(cands[..|cands| - 1], norm);
      var t := norm(cands[|cands| - 1]);
      if t != "" && t !in prev then prev + [t] else prev
  }

  /** The names kept from `cands`, compared after stripping surrounding white space. */
  function Collected(cands: seq<string>): seq<string>
  {
    KeepDistinct(cands, Strip)
  }

  /** The append-if-absent loop over the first `cap` candidates. */
  method FirstDistinct(cands: seq<string>, cap: nat) returns (r: seq<string>)
    ensures r == Collected(Counts.Take(cands, cap))
  {
    var limited := Counts.Take(cands, cap);
    r := [];
    for i := 0 to |limited|
      invariant r == KeepDistinct(limited[..i], Strip)
    {
      assert limited[..i + 1][..i] == limited[..i];
      var t := Strip(limited[i]);
      if t != "" && t !in r {
        r := r + [t];
      }
    }
    assert limited[..|limited|] == limited;
  }

  /** The kept names are distinct and non-empty, and no more than the candidates. */
  lemma {:induction false} KeepDistinctUnique(cands: seq<string>, norm: string -> string)
    ensures var r := KeepDistinct(cands, norm);
      NoDuplicates(r) && |r| <= |cands| && forall x :: x in r ==> x != ""
  {
    if cands != [] {
      KeepDistinctUnique(cands[..|cands| - 1], norm);
    }
  }

  lemma CollectedDistinct(cands: seq<string>)
    ensures var r := Collected(cands);
      NoDuplicates(r) && |r| <= |cands| && forall x :: x in r ==> x != ""
  {
    KeepDistinctUnique(cands, Strip);
  }

  /** Each kept name is the normalised text of a candidate, and every candidate with non-empty
      normalised text is represented. */
  lemma {:induction false} KeepDistinctMembers(cands: seq<string>, norm: string -> string)
    ensures forall x :: x in KeepDistinct(cands, norm) ==> exists i :: 0 <= i < |cands| && norm(cands[i]) == x
    ensures forall i :: 0 <= i < |cands| && norm(cands[i]) != "" ==> norm(cands[i]) in KeepDistinct(cands, norm)
  {
    if cands != [] {
      var init := cands[..|cands| - 1];
      KeepDistinctMembers(init, norm);
      var prev := KeepDistinct(init, norm);
      var t := norm(cands[|cands| - 1]);
      var r := KeepDistinct(cands, norm);
      assert r == if t != "" && t !in prev then prev + [t] else prev;
      forall x | x in r ensures exists i :: 0 <= i < |cands| && norm(cands[i]) == x {
        if x in prev {
          var i :| 0 <= i < |init| && norm(init[i]) == x;
          assert cands[i] == init[i];
        } else {
          assert x == t;
        }
      }
      forall i | 0 <= i < |cands| && norm(cands[i]) != "" ensures norm(cands[i]) in r {
        if i < |init| {
          assert cands[i] == init[i];
        }
      }
    }
  }

  /** Each kept name is the stripped text of a candidate, and every candidate with non-empty
      stripped text is represented. */
  lemma CollectedMembers(cands: seq<string>)
    ensures forall x :: x in Collected(cands) ==> exists i :: 0 <= i < |cands| && Strip(cands[i]) == x
    ensures forall i :: 0 <= i < |cands| && Strip(cands[i]) != "" ==> Strip(cands[i]) in Collected(cands)
  {
    KeepDistinctMembers(cands, Strip);
  }

  /** First-occurrence order: what is kept from a prefix of the candidates is a prefix of what is
      kept from all of them. */
  lemma {:induction false} KeepDistinctPrefix(cands: seq<string>, norm: string -> string, n: nat)
    requires n <= |cands|
    ensures KeepDistinct(cands[..n], norm) <= KeepDistinct(cands, norm)
    decreases |cands|
  {
    if n == |cands| {
      assert cands[..n] == cands;
    } else {
      var init := cands[..|cands| - 1];
      KeepDistinctPrefix(init, norm, n);
      assert init[..n] == cands[..n];
    }
  }

  lemma CollectedPrefix(cands: seq<string>, n: nat)
    requires n <= |cands|
    ensures Collected(cands[..n]) <= Collected(cands)
  {
    KeepDistinctPrefix(cands, Strip, n);
  }

  /** Genres: from the first five genre links only. */
  method ExtractGenres(p: Page) returns (genres: seq<string>)
    ensures genres == Collected(Counts.Take(p.genreLinks, MaxGenres))
  {
    genres := FirstDistinct(p.genreLinks, MaxGenres);
  }

  /** The cast candidates: the fallback cells only when the primary selector found nothing. */
  function CastCandidates(p: Page): seq<string>
  {
    if p.castLinks != [] then p.castLinks else p.castCells
  }

  method ExtractCast(p: Page) returns (cast: seq<string>)
    ensures cast == Collected(Counts.Take(CastCandidates(p), MaxCast))
  {
    var elements := p.castLinks;
    if elements == [] {
      elements := p.castCells;
    }
    cast := FirstDistinct(elements, MaxCast);
  }

  /** Genres and cast hold at most five distinct, non-empty names, taken in order from the first
      five candidates. */
  lemma GenresAndCastSpec(p: Page)
    ensures var g := Collected(Counts.Take(p.genreLinks, MaxGenres));
      |g| <= MaxGenres && NoDuplicates(g) && forall x :: x in g ==> (x != "" &&
        exists i :: 0 <= i < |p.genreLinks| && i < MaxGenres && Strip(p.genreLinks[i]) == x)
    ensures var c := Collected(Counts.Take(CastCandidates(p), MaxCast));
      |c| <= MaxCast && NoDuplicates(c) && forall x :: x in c ==> (x != "" &&
        exists i :: 0 <= i < |CastCandidates(p)| && i < MaxCast && Strip(CastCandidates(p)[i]) == x)
  {
    var gl := Counts.Take(p.genreLinks, MaxGenres);
    CollectedDistinct(gl);
    CollectedMembers(gl);
    forall x | x in Collected(gl)
      ensures exists i :: 0 <= i < |p.genreLinks| && i < MaxGenres && Strip(p.genreLinks[i]) == x
    {
      var i :| 0 <= i < |gl| && Strip(gl[i]) == x;
      assert gl[i] == p.genreLinks[i];
    }
    var cl := Counts.Take(CastCandidates(p), MaxCast);
    CollectedDistinct(cl);
    CollectedMembers(cl);
    forall x | x in Collected(cl)
      ensures exists i :: 0 <= i < |CastCandidates(p)| && i < MaxCast && Strip(CastCandidates(p)[i]) == x
    {
      var i :| 0 <= i < |cl| && Strip(cl[i]) == x;
      assert cl[i] == CastCandidates(p)[i];
    }
  }

  // ----- title -----

  /** The first of the three title selectors that matched, stripped; "Unknown" if none did. */
  function ExtractTitle(p: Page): (title: string)
    ensures p.heroTitle.Some? ==> title == Strip(p.heroTitle.value)
    ensures p.heroTitle.None? && p.classTitle.Some? ==> title == Strip(p.classTitle.value)
    ensures p.heroTitle.None? && p.classTitle.None? && p.anyTitle.Some? ==> title == Strip(p.anyTitle.value)
    ensures p.heroTitle.None? && p.classTitle.None? && p.anyTitle.None? ==> title == "Unknown"
  {
    var element := if p.heroTitle.Some? then p.heroTitle else if p.classTitle.Some? then p.classTitle else p.anyTitle;
    if element.Some? then Strip(element.value) else "Unknown"
  }

  // ----- year -----

  /** A year link's text qualifies when it is all digits and names a year in [1900, 2030]. */
  predicate YearText(t: string)
  {
    IsDigitString(t) && MinYear <= DigitsValue(t) <= MaxYear
  }

  /** A year link whose stripped text is a year in [1900, 2030]. */
  predicate YearLink(link: string)
  {
    YearText(Strip(link))
  }

  /** The position of the first element at or after `i` that satisfies `p`. */
  function FirstWhere<T>(xs: seq<T>, p: T -> bool, i: nat): (r: Option<nat>)
    requires i <= |xs|
    ensures r.Some? ==> i <= r.value < |xs| && p(xs[r.value]) && forall k :: i <= k < r.value ==> !p(xs[k])
    ensures r.None? ==> forall k :: i <= k < |xs| ==> !p(xs[k])
    decreases |xs| - i
  {
    if i == |xs| then None
    else if p(xs[i]) then Some(i)
    else FirstWhere(xs, p, i + 1)
  }

  /** The year of the first qualifying year link. */
  function FirstYearLink(links: seq<string>): (r: Option<int>)
    ensures r.Some? ==> MinYear <= r.value <= MaxYear
  {
    match FirstWhere(links, YearLink, 0)
    case Some(j) => Some(DigitsValue(Strip(links[j])))
    case None => None
  }

  /** `(dddd)` occurs in `t` at position `i`. */
  predicate ParenYearAt(t: string, i: nat)
  {
    i + 6 <= |t| && t[i] == '(' && AllDigits(t[i + 1..i + 5]) && t[i + 5] == ')'
  }

  /** The leftmost match of `\((\d{4})\)` at or after position `i`, as a number. */
  function FirstParenYear(t: string, i: nat): (r: Option<int>)
    requires i <= |t|
    decreases |t| - i
  {
    if i + 6 > |t| then None
    else if ParenYearAt(t, i) then Some(DigitsValue(t[i + 1..i + 5]))
    else FirstParenYear(t, i + 1)
  }

  /** The year: the first qualifying link, else the first "(dddd)" in the page text (not range
      checked), else 0. */
  method ExtractYear(p: Page) returns (year: int)
    ensures FirstYearLink(p.yearLinks).Some? ==> year == FirstYearLink(p.yearLinks).value
    ensures FirstYearLink(p.yearLinks).None? && FirstParenYear(p.text, 0).Some? ==> year == FirstParenYear(p.text, 0).value
    ensures FirstYearLink(p.yearLinks).None? && FirstParenYear(p.text, 0).None? ==> year == 0
  {
    year := 0;
    var i := 0;
    while i < |p.yearLinks|
      invariant 0 <= i <= |p.yearLinks|
      invariant FirstWhere(p.yearLinks, YearLink, 0) == FirstWhere(p.yearLinks, YearLink, i)
      invariant year == 0
    {
      var yearText := Strip(p.yearLinks[i]);
      if YearText(yearText) {
        year := DigitsValue(yearText);
        break;
      }
      i := i + 1;
    }
    if year == 0 {
      var j := 0;
      while j + 6 <= |p.text|
        invariant 0 <= j <= |p.text|
        invariant FirstParenYear(p.text, 0) == FirstParenYear(p.text, j)
        invariant year == 0
      {
        if p.text[j] == '(' && AllDigits(p.text[j + 1..j + 5]) && p.text[j + 5] == ')' {
          year := DigitsValue(p.text[j + 1..j + 5]);
          break;
        }
        j := j + 1;
      }
    }
  }

  /** Position `j` holds the leftmost "(dddd)" at or after `i`. */
  predicate FirstParenYearAt(t: string, i: nat, j: nat)
  {
    i <= j && ParenYearAt(t, j) && forall k :: i <= k < j ==> !ParenYearAt(t, k)
  }

  /** The fallback year is the four digits of the leftmost "(dddd)", so it lies in [0, 9999]. */
  lemma {:induction false} FirstParenYearSpec(t: string, i: nat)
    requires i <= |t|
    ensures FirstParenYear(t, i).Some? ==> 0 <= FirstParenYear(t, i).value <= 9999
    ensures FirstParenYear(t, i).Some? ==> exists j: nat :: (FirstParenYearAt(t, i, j) &&
      FirstParenYear(t, i).value == DigitsValue(t[j + 1..j + 5]))
    ensures FirstParenYear(t, i).None? ==> forall k :: i <= k ==> !ParenYearAt(t, k)
    decreases |t| - i
  {
    if i + 6 <= |t| && !ParenYearAt(t, i) {
      FirstParenYearSpec(t, i + 1);
      if FirstParenYear(t, i).Some? {
        var j: nat :| FirstParenYearAt(t, i + 1, j) && FirstParenYear(t, i).value == DigitsValue(t[j + 1..j + 5]);
        assert FirstParenYearAt(t, i, j);
      }
    } else if i + 6 <= |t| {
      DigitsValueBound(t[i + 1..i + 5]);
      assert Pow10(4) == 10000;
      assert FirstParenYearAt(t, i, i);
    }
  }

  // ----- director, rating, overview, poster -----

  predicate NamesDirector(parentText: string)
  {
    Contains(Lower(parentText), "director") || Contains(Lower(parentText), "directed")
  }

  /** The first person link whose parent text mentions directing, else "Unknown". */
  function ExtractDirector(links: seq<(string, string)>): string
  {
    if links == [] then "Unknown"
    else if NamesDirector(links[0].1) then Strip(links[0].0)
    else ExtractDirector(links[1..])
  }

  /** The first rating text that parses as a number, else 0.0. */
  function ExtractRating(texts: seq<string>): real
  {
    if texts == [] then 0.0
    else match ParseDecimal(Strip(texts[0]))
      case Some(v) => v
      case None => ExtractRating(texts[1..])
  }

  /** The first non-empty plot text, else "". */
  function ExtractOverview(texts: seq<string>): string
  {
    if texts == [] then ""
    else if Strip(texts[0]) != "" then Strip(texts[0])
    else ExtractOverview(texts[1..])
  }

  /** The first non-empty poster source that mentions "image"; the generic media images are only
      looked at when the poster selector found nothing. */
  function ExtractPoster(p: Page): string
  {
    FirstImage(if p.posterSrcs != [] then p.posterSrcs else p.mediaSrcs)
  }

  function FirstImage(srcs: seq<string>): string
  {
    if srcs == [] then ""
    else if srcs[0] != "" && Contains(srcs[0], "image") then srcs[0]
    else FirstImage(srcs[1..])
  }

  // ----- votes -----

  predicate IsVoteChar(c: char) { IsDigit(c) || c == ',' }

  /** The end of the run of `[\d,]` characters starting at `i`. */
  function VoteRunEnd(t: string, i: nat): (j: nat)
    requires i <= |t|
    ensures i <= j <= |t| && (j == |t| || !IsVoteChar(t[j]))
    ensures forall k :: i <= k < j ==> IsVoteChar(t[k])
    decreases |t| - i
  {
    if i < |t| && IsVoteChar(t[i]) then VoteRunEnd(t, i + 1) else i
  }

  /** The leftmost match of `[\d,]+` at or after `i` (greedy, so the whole run). */
  function FirstVoteRun(t: string, i: nat): Option<string>
    requires i <= |t|
    decreases |t| - i
  {
    if i == |t| then None
    else if IsVoteChar(t[i]) then Some(t[i..VoteRunEnd(t, i)])
    else FirstVoteRun(t, i + 1)
  }

  function RemoveCommas(s: string): (r: string)
    ensures |r| <= |s|
    ensures forall c :: c in r ==> c in s && c != ','
  {
    if s == [] then [] else (if s[0] == ',' then [] else [s[0]]) + RemoveCommas(s[1..])
  }

  /** `int(run.replace(',', ''))`: a run of only commas raises ValueError. */
  function VoteValue(run: string): Result<int>
  {
    match ParseInt(RemoveCommas(run))
    case Some(v) => Ok(v)
    case None => Err("ValueError")
  }

  /** The vote count: from the first vote text containing a `[\d,]+` run, else 0. */
  function FirstVotes(texts: seq<string>): Result<int>
  {
    if texts == [] then Ok(0)
    else match FirstVoteRun(Strip(texts[0]), 0)
      case Some(run) => VoteValue(run)
      case None => FirstVotes(texts[1..])
  }

  method ExtractVotes(p: Page) returns (votes: Result<int>)
    ensures votes == FirstVotes(p.voteTexts)
  {
    votes := Ok(0);
    var i := 0;
    while i < |p.voteTexts|
      invariant 0 <= i <= |p.voteTexts|
      invariant FirstVotes(p.voteTexts) == FirstVotes(p.voteTexts[i..])
      invariant votes == Ok(0)
    {
      assert p.voteTexts[i..][1..] == p.voteTexts[i + 1..];
      var votesMatch := FirstVoteRun(Strip(p.voteTexts[i]), 0);
      if votesMatch.Some? {
        votes := VoteValue(votesMatch.value);
        return;
      }
      i := i + 1;
    }
  }

  lemma {:induction false} RemoveCommasDigits(s: string)
    requires forall c :: c in s ==> IsVoteChar(c)
    ensures AllDigits(RemoveCommas(s))
    ensures RemoveCommas(s) == [] <==> forall c :: c in s ==> c == ','
  {
    var r := RemoveCommas(s);
    forall i | 0 <= i < |r| ensures IsDigit(r[i]) {
      assert r[i] in r;
    }
    if r == [] {
      forall c | c in s ensures c == ',' {
        if c != ',' { RemoveCommasKeeps(s, c); }
      }
    } else {
      assert r[0] in s && r[0] != ',';
    }
  }

  lemma {:induction false} RemoveCommasKeeps(s: string, c: char)
    requires c in s && c != ','
    ensures c in RemoveCommas(s)
  {
    if s[0] != c {
      RemoveCommasKeeps(s[1..], c);
    }
  }

  lemma {:induction false} FirstVoteRunChars(t: string, i: nat)
    requires i <= |t|
    ensures FirstVoteRun(t, i).Some? ==> forall c :: c in FirstVoteRun(t, i).value ==> IsVoteChar(c)
    decreases |t| - i
  {
    if i < |t| && !IsVoteChar(t[i]) {
      FirstVoteRunChars(t, i + 1);
    } else if i < |t| {
      var j := VoteRunEnd(t, i);
      forall c | c in t[i..j] ensures IsVoteChar(c) {
        var k :| 0 <= k < j - i && t[i..j][k] == c;
        assert t[i + k] == c;
      }
    }
  }

  /** The vote count is never negative, and it is an error exactly when the first run found is
      made of commas only. */
  lemma {:induction false} FirstVotesSpec(texts: seq<string>)
    ensures FirstVotes(texts).Ok? ==> FirstVotes(texts).value >= 0
    ensures forall run :: texts != [] && FirstVoteRun(Strip(texts[0]), 0) == Some(run) ==>
      (FirstVotes(texts).Err? <==> forall c :: c in run ==> c == ',')
  {
    if texts != [] {
      var t := Strip(texts[0]);
      FirstVoteRunChars(t, 0);
      match FirstVoteRun(t, 0)
      case Some(run) =>
        RemoveCommasDigits(run);
        if RemoveCommas(run) != [] {
          assert IsDigitString(RemoveCommas(run));
        } else {
          assert Strip([]) == [];
        }
      case None =>
        FirstVotesSpec(texts[1..]);
    }
  }

  // ----- runtime -----

  function DigitRunEnd(t: string, i: nat): (j: nat)
    requires i <= |t|
    ensures i <= j <= |t| && forall k :: i <= k < j ==> IsDigit(t[k])
    decreases |t| - i
  {
    if i < |t| && IsDigit(t[i]) then DigitRunEnd(t, i + 1) else i
  }

  function SpaceRunEnd(t: string, i: nat): (j: nat)
    requires i <= |t|
    ensures i <= j <= |t|
    decreases |t| - i
  {
    if i < |t| && IsSpace(t[i]) then SpaceRunEnd(t, i + 1) else i
  }

  /** `(\d+)\s*(?:min|minute)` matches at `i`. Backtracking into the digits cannot help, since a
      shorter digit run is followed by a digit, so only the maximal run needs checking. */
  predicate RuntimeAt(t: string, i: nat)
  {
    i < |t| && IsDigit(t[i]) && StartsWith(t[SpaceRunEnd(t, DigitRunEnd(t, i))..], "min")
  }

  /** The minutes of the leftmost runtime match at or after `i`. */
  function FirstRuntime(t: string, i: nat): Option<nat>
    requires i <= |t|
    decreases |t| - i
  {
    if i == |t| then None
    else if RuntimeAt(t, i) then Some(DigitsValue(t[i..DigitRunEnd(t, i)]))
    else FirstRuntime(t, i + 1)
  }

  /** The runtime: from the first runtime text that has a match, else 0. */
  function FirstRuntimeOf(texts: seq<string>): nat
  {
    if texts == [] then 0
    else match FirstRuntime(Strip(texts[0]), 0)
      case Some(m) => m
      case None => FirstRuntimeOf(texts[1..])
  }

  method ExtractRuntime(p: Page) returns (runtime: nat)
    ensures runtime == FirstRuntimeOf(p.runtimeTexts)
  {
    runtime := 0;
    for i := 0 to |p.runtimeTexts|
      invariant FirstRuntimeOf(p.runtimeTexts) == FirstRuntimeOf(p.runtimeTexts[i..])
      invariant runtime == 0
    {
      assert p.runtimeTexts[i..][1..] == p.runtimeTexts[i + 1..];
      var runtimeMatch := FirstRuntime(Strip(p.runtimeTexts[i]), 0);
      if runtimeMatch.Some? {
        runtime := runtimeMatch.value;
        return;
      }
    }
  }

  /** The runtime found is the number written just before "min" (after optional whitespace), at
      the leftmost place where that pattern occurs. */
  lemma {:induction false} FirstRuntimeSpec(t: string, i: nat)
    requires i <= |t|
    ensures FirstRuntime(t, i).Some? ==> exists j: nat :: (FirstRuntimeAt(t, i, j) &&
      FirstRuntime(t, i).value == DigitsValue(t[j..DigitRunEnd(t, j)]))
    ensures FirstRuntime(t, i).None? ==> forall k :: i <= k < |t| ==> !RuntimeAt(t, k)
    decreases |t| - i
  {
    if i < |t| && !RuntimeAt(t, i) {
      FirstRuntimeSpec(t, i + 1);
      if FirstRuntime(t, i).Some? {
        var j: nat :| FirstRuntimeAt(t, i + 1, j) && FirstRuntime(t, i).value == DigitsValue(t[j..DigitRunEnd(t, j)]);
        assert FirstRuntimeAt(t, i, j);
      }
    } else if i < |t| {
      assert FirstRuntimeAt(t, i, i);
    }
  }

  /** Position `j` is the leftmost runtime match at or after `i`. */
  predicate FirstRuntimeAt(t: string, i: nat, j: nat)
  {
    i <= j < |t| && RuntimeAt(t, j) && forall k :: i <= k < j ==> !RuntimeAt(t, k)
  }

  // ----- the whole page -----

  /** `scrape_movie_details` as a function of the fetched page: None when the page could not be
      fetched, or when reading the vote count raised. */
  function Scrape(movieId: string, page: Option<Page>): Option<Movie>
  {
    match page
    case None => None
    case Some(p) =>
      match FirstVotes(p.voteTexts)
      case Err(_) => None
      case Ok(votes) =>
        var year :=
          if FirstYearLink(p.yearLinks).Some? then FirstYearLink(p.yearLinks).value
          else if FirstParenYear(p.text, 0).Some? then FirstParenYear(p.text, 0).value
          else 0;
        Some(Movie(
          ExtractTitle(p),
          year,
          ExtractDirector(p.personLinks),
          Collected(Counts.Take(p.genreLinks, MaxGenres)),
          Collected(Counts.Take(CastCandidates(p), MaxCast)),
          ExtractRating(p.ratingTexts),
          votes,
          FirstRuntimeOf(p.runtimeTexts),
          ExtractOverview(p.plotTexts),
          movieId,
          ExtractPoster(p)))
  }

  method ScrapeMovieDetails(movieId: string, page: Option<Page>) returns (movie: Option<Movie>)
    ensures movie == Scrape(movieId, page)
  {
    if page.None? {
      return None;
    }
    var p := page.value;
    var title := ExtractTitle(p);
    var year := ExtractYear(p);
    var director := ExtractDirector(p.personLinks);
    var genres := ExtractGenres(p);
    var cast := ExtractCast(p);
    var rating := ExtractRating(p.ratingTexts);
    var votes := ExtractVotes(p);
    if votes.Err? {
      return None;
    }
    var runtime := ExtractRuntime(p);
    var overview := ExtractOverview(p.plotTexts);
    var poster := ExtractPoster(p);
    movie := Some(Movie(title, year, director, genres, cast, rating, votes.value, runtime, overview, movieId, poster));
  }

  /** Every scraped movie carries the requested id, at most five distinct genres and cast members,
      a year that is 0, a linked year in [1900, 2030], or a four-digit year from the page text, and
      non-negative vote and runtime counts; and `to_dict` keeps it as it is. */
  lemma ScrapedMovieSpec(movieId: string, page: Option<Page>)
    requires Scrape(movieId, page).Some?
    ensures var m := Scrape(movieId, page).value;
      m.imdbId == movieId &&
      |m.genres| <= MaxGenres && NoDuplicates(m.genres) &&
      |m.cast| <= MaxCast && NoDuplicates(m.cast) &&
      0 <= m.year <= 9999 &&
      (FirstYearLink(page.value.yearLinks).Some? ==> MinYear <= m.year <= MaxYear) &&
      m.numVotes >= 0 && m.runtime >= 0 &&
      ToDict(m) == m
  {
    var p := page.value;
    GenresAndCastSpec(p);
    FirstParenYearSpec(p.text, 0);
    FirstVotesSpec(p.voteTexts);
  }
}
