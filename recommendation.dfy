/** The database side of recommendation.py: loading and validating the movie records, the
    inverted indexes over them, turning a record into a recommendation, the discovery filter and
    the de-duplication of recommendations. The JSON file is taken as an already parsed `Value`;
    the float scoring and the sorts built on it are outside the model (the order they produce is
    an input). */
module Recommendation {
  import opened Wrappers
  import opened Text

  /** A JSON value as `json.load` produces it. Objects are maps (their key order plays no part).
      `Float` holds a finite float; `json.load` also reads `NaN`, `Infinity` and `-Infinity` (and
      a literal too large for a double, such as `1e400`, as an infinity), which are `NonFinite`. */
  datatype Value =
    | Null
    | Bool(b: bool)
    | Int(i: int)
    | Float(r: real)
    | NonFinite(kind: Special)
    | Str(s: string)
    | List(items: seq<Value>)
    | Dict(fields: map<string, Value>)

  /** The float values that are not numbers of the reals. */
  datatype Special = NaN | Inf | NegInf

  /** A movie record: the fields of one database object that the engine reads, each `None` when
      the object lacks that key. */
  datatype Record = Record(
    title: Option<Value>, year: Option<Value>, director: Option<Value>, genres: Option<Value>,
    rating: Option<Value>, numVotes: Option<Value>, runtime: Option<Value>, overview: Option<Value>,
    imdbId: Option<Value>, cast: Option<Value>, posterUrl: Option<Value>)

  function Field(fields: map<string, Value>, key: string): Option<Value>
  {
    if key in fields then Some(fields[key]) else None
  }

  /** The record a JSON object stands for. */
  function RecordOf(fields: map<string, Value>): Record
  {
    Record(Field(fields, "title"), Field(fields, "year"), Field(fields, "director"), Field(fields, "genres"),
           Field(fields, "rating"), Field(fields, "num_votes"), Field(fields, "runtime"),
           Field(fields, "overview"), Field(fields, "imdb_id"), Field(fields, "cast"),
           Field(fields, "poster_url"))
  }

  /** `movie.get(key, default)`. */
  function Get(field: Option<Value>, default: Value): Value
  {
    if field.Some? then field.value else default
  }

  /** Python's truth value of a JSON value. */
  predicate Truthy(v: Value)
  {
    match v
    case Null => false
    case Bool(b) => b
    case Int(i) => i != 0
    case Float(r) => r != 0.0
    case NonFinite(_) => true
    case Str(s) => s != ""
    case List(items) => items != []
    case Dict(fields) => fields != map[]
  }

  /** `int(x)` of a float: truncation toward zero. */
  function Trunc(r: real): (n: int)
    ensures r >= 0.0 ==> n as real <= r < n as real + 1.0
    ensures r < 0.0 ==> n as real - 1.0 < r <= n as real
  {
    if r >= 0.0 then r.Floor else -((-r).Floor)
  }

  /** Python's `int(x)`; None stands for the ValueError or TypeError it raises (`int` of a NaN is
      a ValueError). `int` of an infinity raises OverflowError instead: see `IntOverflows`. */
  function ToInt(v: Value): Option<int>
  {
    match v
    case Bool(b) => Some(if b then 1 else 0)
    case Int(i) => Some(i)
    case Float(r) => Some(Trunc(r))
    case Str(s) => ParseInt(s)
    case _ => None
  }

  /** Python's `float(x)` when it is a finite number; None stands for the ValueError or TypeError
      it raises, and for the NaN or infinity it returns for a `NonFinite` (which no range test
      accepts). `float` of an int beyond the double range raises OverflowError instead: see
      `FloatOverflows`. */
  function ToFloat(v: Value): Option<real>
  {
    match v
    case Bool(b) => Some(if b then 1.0 else 0.0)
    case Int(i) => Some(i as real)
    case Float(r) => Some(r)
    case Str(s) => ParseDecimal(s)
    case _ => None
  }

  /** The least magnitude of an int that `float` rounds (to nearest, ties to even) past the
      largest double, 2^1024 - 2^971, and so refuses with OverflowError: 2^1024 - 2^970. */
  const FloatLimit: int :=
    0xFFFFFFFFFFFFFC00_0000000000000000_0000000000000000_0000000000000000_0000000000000000_0000000000000000_0000000000000000_0000000000000000_0000000000000000_0000000000000000_0000000000000000_0000000000000000_0000000000000000_0000000000000000_0000000000000000_0000000000000000

  /** `int(x)` raises OverflowError: `x` is an infinite float. */
  predicate IntOverflows(v: Value)
  {
    v.NonFinite? && v.kind != NaN
  }

  /** `float(x)` raises OverflowError: `x` is an int too large for a double. */
  predicate FloatOverflows(v: Value)
  {
    v.Int? && (v.i >= FloatLimit || v.i <= -FloatLimit)
  }

  /** `str(x)` where the program formats a value: a string is itself; any other value goes
      through `show`, which stands for Python's `str` of numbers and the like. */
  function ShowStr(v: Value, show: Value -> string): string
  {
    if v.Str? then v.s else show(v)
  }

  // ---------------------------------------------------------------------------------------
  // _validate_database

  const RequiredFields: seq<string> :=
    ["title", "year", "director", "genres", "rating", "num_votes", "runtime", "overview", "imdb_id"]

  /** No required field is missing. */
  predicate HasRequired(m: Record)
  {
    m.title.Some? && m.year.Some? && m.director.Some? && m.genres.Some? && m.rating.Some? &&
    m.numVotes.Some? && m.runtime.Some? && m.overview.Some? && m.imdbId.Some?
  }

  /** `missing_fields` is empty exactly when `HasRequired` holds of the object's record. */
  lemma HasRequiredSpec(fields: map<string, Value>)
    ensures HasRequired(RecordOf(fields)) <==> forall f :: f in RequiredFields ==> f in fields
  {
    if HasRequired(RecordOf(fields)) {
      forall f | f in RequiredFields ensures f in fields {
        var i :| 0 <= i < |RequiredFields| && RequiredFields[i] == f;
      }
    } else {
      assert RequiredFields[0] == "title" && RequiredFields[1] == "year" && RequiredFields[2] == "director";
      assert RequiredFields[3] == "genres" && RequiredFields[4] == "rating" && RequiredFields[5] == "num_votes";
      assert RequiredFields[6] == "runtime" && RequiredFields[7] == "overview" && RequiredFields[8] == "imdb_id";
    }
  }

  /** The domain checks of the required fields, one by one. */
  predicate YearOk(m: Record)
    requires HasRequired(m)
  {
    ToInt(m.year.value).Some? && 1900 <= ToInt(m.year.value).value <= 2030
  }

  predicate RatingOk(m: Record)
    requires HasRequired(m)
  {
    ToFloat(m.rating.value).Some? && 0.0 <= ToFloat(m.rating.value).value <= 10.0
  }

  predicate VotesOk(m: Record)
    requires HasRequired(m)
  {
    ToInt(m.numVotes.value).Some? && ToInt(m.numVotes.value).value >= 0
  }

  predicate RuntimeOk(m: Record)
    requires HasRequired(m)
  {
    ToInt(m.runtime.value).Some? && ToInt(m.runtime.value).value > 0
  }

  predicate GenresOk(m: Record)
    requires HasRequired(m)
  {
    m.genres.value.List? && (forall g :: g in m.genres.value.items ==> g.Str?)
  }

  /** The domain checks a record passes before its IMDb id is looked at. */
  predicate WellFormed(m: Record)
  {
    HasRequired(m) && YearOk(m) && RatingOk(m) && VotesOk(m) && RuntimeOk(m) && GenresOk(m)
  }

  /** A conversion raises OverflowError, which the `except (ValueError, TypeError)` of the loop
      does not catch: the checks run in the order year, rating, votes, runtime, and each is
      reached only when the ones before it pass. */
  predicate OverflowsAt(m: Record)
  {
    HasRequired(m) &&
    (IntOverflows(m.year.value) ||
     (YearOk(m) &&
      (FloatOverflows(m.rating.value) ||
       (RatingOk(m) &&
        (IntOverflows(m.numVotes.value) ||
         (VotesOk(m) && IntOverflows(m.runtime.value)))))))
  }

  /** What every record of a validated database satisfies. */
  predicate Accepted(m: Record)
  {
    WellFormed(m) &&
    m.imdbId.value.Str? && StartsWith(m.imdbId.value.s, "tt") &&
    m.cast.Some? && m.cast.value.List? && m.posterUrl.Some?
  }

  /** The in-place defaults: a missing or non-list `cast` becomes `[]`, a missing `poster_url`
      becomes "", and every other field is kept. */
  function Patch(m: Record): (p: Record)
    ensures p.(cast := m.cast, posterUrl := m.posterUrl) == m
    ensures p.cast == if m.cast.Some? && m.cast.value.List? then m.cast else Some(List([]))
    ensures p.posterUrl == if m.posterUrl.Some? then m.posterUrl else Some(Str(""))
  {
    var withCast := if m.cast.Some? && m.cast.value.List? then m else m.(cast := Some(List([])));
    if withCast.posterUrl.Some? then withCast else withCast.(posterUrl := Some(Str("")))
  }

  /** The outcome for one entry of the database list: kept (patched), skipped, or an escaping
      exception, named by its class: an OverflowError from a conversion, or the AttributeError
      of `.startswith` on an `imdb_id` that is not a string. */
  datatype Verdict = Keep(record: Record) | Skip | Raise(error: string)

  function Check(v: Value): (r: Verdict)
    ensures r.Keep? <==> v.Dict? && WellFormed(RecordOf(v.fields)) &&
                         RecordOf(v.fields).imdbId.value.Str? && StartsWith(RecordOf(v.fields).imdbId.value.s, "tt")
    ensures r.Raise? <==> v.Dict? && (OverflowsAt(RecordOf(v.fields)) ||
                                      (WellFormed(RecordOf(v.fields)) && !RecordOf(v.fields).imdbId.value.Str?))
    ensures r.Raise? ==> r.error == if OverflowsAt(RecordOf(v.fields)) then "OverflowError" else "AttributeError"
    ensures r.Keep? ==> r.record == Patch(RecordOf(v.fields)) && Accepted(r.record)
  {
    if !v.Dict? then Skip
    else
      var m := RecordOf(v.fields);
      if !HasRequired(m) then Skip
      else if IntOverflows(m.year.value) then Raise("OverflowError")
      else if !YearOk(m) then Skip
      else if FloatOverflows(m.rating.value) then Raise("OverflowError")
      else if !RatingOk(m) then Skip
      else if IntOverflows(m.numVotes.value) then Raise("OverflowError")
      else if !VotesOk(m) then Skip
      else if IntOverflows(m.runtime.value) then Raise("OverflowError")
      else if !RuntimeOk(m) then Skip
      else if !GenresOk(m) then Skip
      else
        var p := Patch(m);
        if !p.imdbId.value.Str? then Raise("AttributeError")
        else if !StartsWith(p.imdbId.value.s, "tt") then Skip
        else Keep(p)
  }

  /** The validation loop over the entries, left to right, with the decision `check` for one
      entry (the program's is `Check`); the first escaping exception ends it. */
  function ValidateItems(items: seq<Value>, check: Value -> Verdict): Result<seq<Record>>
  {
    if items == [] then Ok([])
    else
      match ValidateItems(items[..|items| - 1], check)
      case Err(e) => Err(e)
      case Ok(kept) =>
        match check(items[|items| - 1])
        case Keep(p) => Ok(kept + [p])
        case Skip => Ok(kept)
        case Raise(e) => Err(e)
  }

  /** `_validate_database`: a non-list database, or one with no valid record, gives the
      fallback list. */
  function ValidateDatabase(database: Value): Result<seq<Record>>
  {
    if !database.List? then Ok(Fallback())
    else
      match ValidateItems(database.items, Check)
      case Err(e) => Err(e)
      case Ok(kept) => Ok(if kept == [] then Fallback() else kept)
  }

  /** `_load_movie_database`: `None` is a missing or undecodable file, which gives the fallback. */
  function LoadDatabase(file: Option<Value>): Result<seq<Record>>
  {
    match file
    case None => Ok(Fallback())
    case Some(v) => ValidateDatabase(v)
  }

  /** A list of strings as JSON values. */
  function Strs(xs: seq<string>): (r: seq<Value>)
    ensures |r| == |xs| && forall i :: 0 <= i < |xs| ==> r[i] == Str(xs[i])
  {
    if xs == [] then [] else [Str(xs[0])] + Strs(xs[1..])
  }

  /** A record with every field the fallback list spells out. */
  function MovieRecord(title: string, year: int, director: string, genres: seq<string>, rating: real,
                       numVotes: int, runtime: int, overview: string, imdbId: string, cast: seq<string>): (m: Record)
    ensures (1900 <= year <= 2030 && 0.0 <= rating <= 10.0 && numVotes >= 0 && runtime > 0 &&
             StartsWith(imdbId, "tt")) ==> Accepted(m)
  {
    Record(Some(Str(title)), Some(Int(year)), Some(Str(director)), Some(List(Strs(genres))),
           Some(Float(rating)), Some(Int(numVotes)), Some(Int(runtime)), Some(Str(overview)),
           Some(Str(imdbId)), Some(List(Strs(cast))), Some(Str("")))
  }

  /** `_get_fallback_movies`: three records that pass the validation themselves. (The overviews
      are spelled as concatenations of short literals, which the verifier handles far more
      cheaply than one long literal.) */
  function Fallback(): (r: seq<Record>)
    ensures |r| == 3 && forall k :: 0 <= k < |r| ==> Accepted(r[k])
  {
    [Shawshank(), Godfather(), DarkKnight()]
  }

  function Shawshank(): (m: Record)
    ensures Accepted(m)
  {
    MovieRecord("The Shawshank Redemption", 1994, "Frank Darabont", ["Drama"], 9.3, 3100000, 142,
      "Two imprisoned " + "men bond over " + "a number of " + "years, finding " + "solace and " +
      "eventual " + "redemption " + "through acts " + "of common " + "decency.",
      "tt0111161", ["Tim Robbins", "Morgan Freeman"])
  }

  function Godfather(): (m: Record)
    ensures Accepted(m)
  {
    MovieRecord("The Godfather", 1972, "Francis Ford Coppola", ["Crime", "Drama"], 9.2, 2100000, 175,
      "The patriarch " + "of a crime " + "family " + "transfers " + "control to his " + "reluctant son.",
      "tt0068646", ["Marlon Brando", "Al Pacino"])
  }

  function DarkKnight(): (m: Record)
    ensures Accepted(m)
  {
    MovieRecord("The Dark Knight", 2008, "Christopher Nolan", ["Action", "Crime", "Drama"], 9.0, 3000000, 152,
      "Batman sets " + "out to " + "dismantle the " + "remaining " + "criminal " + "organizations " +
      "that plague " + "Gotham.",
      "tt0468569", ["Christian Bale", "Heath Ledger"])
  }

  /** `_validate_database`. */
  method Validate(database: Value) returns (r: Result<seq<Record>>)
    ensures r == ValidateDatabase(database)
  {
    if !database.List? {
      return Ok(Fallback());
    }
    r := ValidateLoop(database.items);
    if r.Ok? && r.value == [] {
      r := Ok(Fallback());
    }
  }

  /** The loop of `_validate_database`, appending each record that passes. */
  method ValidateLoop(items: seq<Value>) returns (r: Result<seq<Record>>)
    ensures r == ValidateItems(items, Check)
  {
    var validated: seq<Record> := [];
    var i := 0;
    while i < |items|
      invariant 0 <= i <= |items|
      invariant ValidateItems(items[..i], Check) == Ok(validated)
    {
      assert items[..i + 1][..i] == items[..i];
      var verdict := Check(items[i]);
      match verdict {
        case Keep(p) =>
          validated := validated + [p];
        case Skip =>
        case Raise(e) =>
          ErrStays(items, i + 1, Check);
          return Err(e);
      }
      i := i + 1;
    }
    assert items[..i] == items;
    return Ok(validated);
  }

  /** Once the loop has raised, the rest of the entries do not matter: the exception escapes. */
  lemma {:induction false} ErrStays(items: seq<Value>, n: nat, check: Value -> Verdict)
    requires n <= |items| && ValidateItems(items[..n], check).Err?
    ensures ValidateItems(items, check) == ValidateItems(items[..n], check)
    decreases |items| - n
  {
    if n < |items| {
      assert items[..n + 1][..n] == items[..n];
      ErrStays(items, n + 1, check);
    } else {
      assert items[..n] == items;
    }
  }

  /** The record an entry contributes: itself patched when it passes, nothing otherwise. */
  function KeptOne(v: Value, check: Value -> Verdict): seq<Record>
  {
    if check(v).Keep? then [check(v).record] else []
  }

  /** The records kept from `items`, read front to back: an independent statement of the loop. */
  function KeptRecords(items: seq<Value>, check: Value -> Verdict): seq<Record>
  {
    if items == [] then [] else KeptOne(items[0], check) + KeptRecords(items[1..], check)
  }

  lemma {:induction false} KeptRecordsSnoc(items: seq<Value>, x: Value, check: Value -> Verdict)
    ensures KeptRecords(items + [x], check) == KeptRecords(items, check) + KeptOne(x, check)
    decreases |items|
  {
    var t := items + [x];
    if items == [] {
      assert t[1..] == [];
      assert KeptRecords(t, check) == KeptOne(x, check) + KeptRecords([], check);
    } else {
      assert t[0] == items[0] && t[1..] == items[1..] + [x];
      KeptRecordsSnoc(items[1..], x, check);
      calc {
        KeptRecords(t, check);
        KeptOne(items[0], check) + KeptRecords(items[1..] + [x], check);
        KeptOne(items[0], check) + (KeptRecords(items[1..], check) + KeptOne(x, check));
        (KeptOne(items[0], check) + KeptRecords(items[1..], check)) + KeptOne(x, check);
      }
    }
  }

  /** Every record `Check` keeps is accepted. */
  lemma {:induction false} KeptAccepted(items: seq<Value>)
    ensures forall k :: 0 <= k < |KeptRecords(items, Check)| ==> Accepted(KeptRecords(items, Check)[k])
    decreases |items|
  {
    if items != [] {
      KeptAccepted(items[1..]);
      var head, tail := KeptOne(items[0], Check), KeptRecords(items[1..], Check);
      assert KeptRecords(items, Check) == head + tail;
      assert forall k :: 0 <= k < |head| ==> Accepted(head[k]);
    }
  }

  /** The validation raises exactly when some entry raises (an overflowing conversion, or
      `.startswith` on a non-string id). */
  lemma {:induction false} ValidateItemsRaises(items: seq<Value>, check: Value -> Verdict)
    ensures ValidateItems(items, check).Err? <==> exists i :: 0 <= i < |items| && check(items[i]).Raise?
    decreases |items|
  {
    if items != [] {
      var init := items[..|items| - 1];
      ValidateItemsRaises(init, check);
      if exists i :: 0 <= i < |init| && check(init[i]).Raise? {
        var i :| 0 <= i < |init| && check(init[i]).Raise?;
        assert items[i] == init[i];
      }
      if exists i :: 0 <= i < |items| && check(items[i]).Raise? {
        var i :| 0 <= i < |items| && check(items[i]).Raise?;
        if i < |init| {
          assert init[i] == items[i];
        }
      }
    }
  }

  /** The exception that escapes is the one of the first entry that raises. */
  lemma {:induction false} ValidateItemsError(items: seq<Value>, check: Value -> Verdict)
    ensures ValidateItems(items, check).Err? ==>
      exists i :: 0 <= i < |items| && check(items[i]).Raise? &&
        ValidateItems(items, check).error == check(items[i]).error &&
        forall j :: 0 <= j < i ==> !check(items[j]).Raise?
    decreases |items|
  {
    if items != [] {
      var init, n := items[..|items| - 1], |items| - 1;
      ValidateItemsError(init, check);
      ValidateItemsRaises(init, check);
      assert forall j :: 0 <= j < n ==> items[j] == init[j];
      if ValidateItems(init, check).Err? {
        var i :| 0 <= i < |init| && check(init[i]).Raise? &&
                 ValidateItems(init, check).error == check(init[i]).error &&
                 forall j :: 0 <= j < i ==> !check(init[j]).Raise?;
        assert items[i] == init[i];
      } else if ValidateItems(items, check).Err? {
        assert check(items[n]).Raise?;
      }
    }
  }

  /** Otherwise the validation keeps exactly the passing entries, patched, in their order. */
  lemma {:induction false} ValidateItemsKeeps(items: seq<Value>, check: Value -> Verdict)
    ensures ValidateItems(items, check).Ok? ==> ValidateItems(items, check).value == KeptRecords(items, check)
    decreases |items|
  {
    if items != [] {
      var init, last := items[..|items| - 1], items[|items| - 1];
      ValidateItemsKeeps(init, check);
      assert items == init + [last];
      KeptRecordsSnoc(init, last, check);
    }
  }

  /** The loaded database is never empty and holds only accepted records; it is the fallback
      list when the file is not a list or when no entry passes. */
  lemma ValidateDatabaseSpec(database: Value)
    ensures ValidateDatabase(database).Ok? ==>
      var r := ValidateDatabase(database).value;
      |r| > 0 && forall k :: 0 <= k < |r| ==> Accepted(r[k])
    ensures !database.List? ==> ValidateDatabase(database) == Ok(Fallback())
    ensures database.List? ==>
      (ValidateDatabase(database).Err? <==> exists i :: 0 <= i < |database.items| && Check(database.items[i]).Raise?)
    ensures database.List? && ValidateDatabase(database).Err? ==>
      exists i :: 0 <= i < |database.items| && Check(database.items[i]).Raise? &&
        ValidateDatabase(database).error == Check(database.items[i]).error &&
        forall j :: 0 <= j < i ==> !Check(database.items[j]).Raise?
    ensures database.List? && ValidateDatabase(database).Ok? ==>
      var kept := KeptRecords(database.items, Check);
      ValidateDatabase(database).value == if kept == [] then Fallback() else kept
  {
    if database.List? {
      ValidateItemsRaises(database.items, Check);
      ValidateItemsError(database.items, Check);
      ValidateItemsKeeps(database.items, Check);
      KeptAccepted(database.items);
    }
  }

  // ---------------------------------------------------------------------------------------
  // _create_indexes

  /** An index maps a key to the positions of the records filed under it. */
  type Index = map<string, seq<int>>

  function Lookup(index: Index, key: string): seq<int>
  {
    if key in index then index[key] else []
  }

  /** `index[key].append(i)` for each key in turn (a defaultdict of lists). */
  function AddAll(index: Index, keys: seq<string>, i: int): Index
  {
    if keys == [] then index
    else
      var prev := AddAll(index, keys[..|keys| - 1], i);
      var k := keys[|keys| - 1];
      prev[k := Lookup(prev, k) + [i]]
  }

  /** The index over `db` that files record `i` under each of `keysOf(db[i])`. */
  function BuildIndex<R>(db: seq<R>, keysOf: R -> seq<string>): Index
  {
    if db == [] then map[]
    else AddAll(BuildIndex(db[..|db| - 1], keysOf), keysOf(db[|db| - 1]), |db| - 1)
  }

  /** Every position under a key is in range and carries that key, the positions are in
      ascending order, and every record is filed under each of its keys. */
  predicate IndexOf<R>(index: Index, db: seq<R>, keysOf: R -> seq<string>)
  {
    (forall k, j :: k in index && 0 <= j < |index[k]| ==>
       0 <= index[k][j] < |db| && k in keysOf(db[index[k][j]])) &&
    (forall k, j1, j2 :: k in index && 0 <= j1 <= j2 < |index[k]| ==> index[k][j1] <= index[k][j2]) &&
    (forall i, k :: 0 <= i < |db| && k in keysOf(db[i]) ==> k in index && i in index[k])
  }

  /** Appending position `i` under `keys`: other keys are untouched, and each of `keys` gains
      copies of `i` at the end. */
  lemma {:induction false} AddAllSpec(index: Index, keys: seq<string>, i: int)
    ensures forall k :: k in AddAll(index, keys, i) <==> k in index || k in keys
    ensures forall k :: k in AddAll(index, keys, i) ==>
      Lookup(index, k) <= AddAll(index, keys, i)[k] &&
      (forall j :: |Lookup(index, k)| <= j < |AddAll(index, keys, i)[k]| ==> AddAll(index, keys, i)[k][j] == i) &&
      (k in keys ==> i in AddAll(index, keys, i)[k]) &&
      (k !in keys ==> AddAll(index, keys, i)[k] == Lookup(index, k))
    decreases |keys|
  {
    if keys != [] {
      var init, k := keys[..|keys| - 1], keys[|keys| - 1];
      AddAllSpec(index, init, i);
      assert keys == init + [k];
      var prev := AddAll(index, init, i);
      var r := AddAll(index, keys, i);
      assert r == prev[k := Lookup(prev, k) + [i]];
      forall k' | k' in r
        ensures Lookup(index, k') <= r[k']
        ensures forall j :: |Lookup(index, k')| <= j < |r[k']| ==> r[k'][j] == i
        ensures k' in keys ==> i in r[k']
        ensures k' !in keys ==> r[k'] == Lookup(index, k')
      {
        if k' == k {
          assert r[k'] == Lookup(prev, k) + [i];
          assert r[k'][|r[k']| - 1] == i;
        } else {
          assert r[k'] == prev[k'];
        }
      }
    }
  }

  lemma {:induction false} BuildIndexSpec<R>(db: seq<R>, keysOf: R -> seq<string>)
    ensures IndexOf(BuildIndex(db, keysOf), db, keysOf)
    decreases |db|
  {
    if db != [] {
      var n := |db| - 1;
      var init := db[..n];
      BuildIndexSpec(init, keysOf);
      var prev := BuildIndex(init, keysOf);
      var r := BuildIndex(db, keysOf);
      AddAllSpec(prev, keysOf(db[n]), n);
      forall k, j | k in r && 0 <= j < |r[k]| ensures 0 <= r[k][j] < |db| && k in keysOf(db[r[k][j]]) {
        if j < |Lookup(prev, k)| {
          assert r[k][j] == prev[k][j] && init[prev[k][j]] == db[prev[k][j]];
        } else {
          assert k in keysOf(db[n]) && r[k][j] == n;
        }
      }
      forall k, j1, j2 | k in r && 0 <= j1 <= j2 < |r[k]| ensures r[k][j1] <= r[k][j2] {
        if j2 < |Lookup(prev, k)| {
          assert r[k][j1] == prev[k][j1] && r[k][j2] == prev[k][j2];
        } else if j1 < |Lookup(prev, k)| {
          assert r[k][j1] == prev[k][j1];
        }
      }
      forall i, k | 0 <= i < |db| && k in keysOf(db[i]) ensures k in r && i in r[k] {
        if i < n {
          assert init[i] == db[i];
          var j :| 0 <= j < |prev[k]| && prev[k][j] == i;
          assert r[k][j] == i;
        }
      }
    }
  }

  /** The lower-cased genre names of a validated record. */
  function GenreKeys(m: Record): seq<string>
  {
    match Get(m.genres, List([]))
    case List(items) => LowerStrs(items)
    case _ => []
  }

  /** `g.lower()` of each genre (validated genres are all strings). */
  function LowerStrs(items: seq<Value>): (r: seq<string>)
    ensures |r| == |items| && forall i :: 0 <= i < |items| && items[i].Str? ==> r[i] == Lower(items[i].s)
  {
    if items == [] then []
    else [if items[0].Str? then Lower(items[0].s) else ""] + LowerStrs(items[1..])
  }

  /** `director.lower()` raises when the director is not a string. */
  predicate DirectorRaises(m: Record)
  {
    !Get(m.director, Str("")).Str?
  }

  /** The director key, unless it is empty or "unknown". */
  function DirectorKeys(m: Record): (r: seq<string>)
    ensures forall k :: k in r ==> k != "" && k != "unknown"
  {
    var d := Get(m.director, Str(""));
    if d.Str? && Lower(d.s) != "" && Lower(d.s) != "unknown" then [Lower(d.s)] else []
  }

  /** `year // 10` raises for a truthy year that is not a number. */
  predicate DecadeRaises(m: Record)
  {
    var y := Get(m.year, Int(0));
    Truthy(y) && !(y.Int? || y.Float? || y.NonFinite? || y.Bool?)
  }

  /** The decade key of a truthy year: `(year // 10) * 10` followed by "s". A float year gives a
      float decade, printed with a ".0" (for the four-digit years a validated record has); `//` of
      a NaN or an infinity is a NaN, printed "nan". */
  function DecadeKeys(m: Record): (r: seq<string>)
    ensures Get(m.year, Int(0)).Int? && Get(m.year, Int(0)).i != 0 ==>
      r == [IntToString(Get(m.year, Int(0)).i / 10 * 10) + "s"]
    ensures !Truthy(Get(m.year, Int(0))) ==> r == []
  {
    var y := Get(m.year, Int(0));
    if !Truthy(y) then []
    else
      match y
      case Int(i) => [IntToString(i / 10 * 10) + "s"]
      case Bool(_) => ["0s"]
      case Float(r) => [IntToString((r / 10.0).Floor * 10) + ".0s"]
      case NonFinite(_) => ["nans"]
      case _ => []
  }

  /** `actor.lower()` raises for a truthy cast entry that is not a string. */
  predicate CastRaises(m: Record)
  {
    var c := Get(m.cast, List([]));
    c.List? && exists a :: a in c.items && Truthy(a) && !a.Str?
  }

  /** The lower-cased names of the truthy (non-empty) cast entries, in order. */
  function CastKeys(m: Record): seq<string>
  {
    var c := Get(m.cast, List([]));
    if c.List? then CastNames(c.items) else []
  }

  function CastNames(items: seq<Value>): (r: seq<string>)
    ensures forall k :: k in r ==> exists a :: a in items && a.Str? && a.s != "" && k == Lower(a.s)
  {
    if items == [] then []
    else (if items[0].Str? && items[0].s != "" then [Lower(items[0].s)] else []) + CastNames(items[1..])
  }

  /** Some step of `_create_indexes` raises on this record. */
  predicate Raises(m: Record)
  {
    DirectorRaises(m) || DecadeRaises(m) || CastRaises(m)
  }

  /** The recommendation engine's database and its four lookup indexes. */
  class Engine {
    var movieDatabase: seq<Record>
    var genreIndex: Index
    var directorIndex: Index
    var yearIndex: Index
    var castIndex: Index

    /** `_load_movie_database` on the parsed file (`None`: missing or not valid JSON). An exception
        the validation raises escapes and leaves the database as it was. */
    method LoadMovieDatabase(file: Option<Value>) returns (ok: bool)
      modifies this`movieDatabase
      ensures ok <==> LoadDatabase(file).Ok?
      ensures ok ==> movieDatabase == LoadDatabase(file).value
      ensures !ok ==> movieDatabase == old(movieDatabase)
    {
      if file.None? {
        movieDatabase := Fallback();
        return true;
      }
      var r := Validate(file.value);
      if r.Err? {
        return false;
      }
      movieDatabase := r.value;
      return true;
    }

    /** `_create_indexes` over the validated database: record `i` is filed under its lower-cased
        genres, its director, its decade and its lower-cased cast names. A record whose director,
        year or cast makes the loop raise ends it (`ok` is false and the indexes are then
        unspecified). */
    method CreateIndexes() returns (ok: bool)
      requires forall k :: 0 <= k < |movieDatabase| ==> Accepted(movieDatabase[k])
      modifies this`genreIndex, this`directorIndex, this`yearIndex, this`castIndex
      ensures ok <==> forall k :: 0 <= k < |movieDatabase| ==> !Raises(movieDatabase[k])
      ensures ok ==> genreIndex == BuildIndex(movieDatabase, GenreKeys) &&
                     directorIndex == BuildIndex(movieDatabase, DirectorKeys) &&
                     yearIndex == BuildIndex(movieDatabase, DecadeKeys) &&
                     castIndex == BuildIndex(movieDatabase, CastKeys)
    {
      ok, genreIndex, directorIndex, yearIndex, castIndex := BuildIndexes(movieDatabase);
    }
  }

  /** The loop of `_create_indexes` over the records; on a raise the indexes are returned as
      far as they were filled. */
  method BuildIndexes(db: seq<Record>) returns (ok: bool, genres: Index, directors: Index, decades: Index, cast: Index)
    ensures ok <==> forall k :: 0 <= k < |db| ==> !Raises(db[k])
    ensures ok ==> genres == BuildIndex(db, GenreKeys) && directors == BuildIndex(db, DirectorKeys) &&
                   decades == BuildIndex(db, DecadeKeys) && cast == BuildIndex(db, CastKeys)
  {
    genres, directors, decades, cast := map[], map[], map[], map[];
    var i := 0;
    while i < |db|
      invariant 0 <= i <= |db|
      invariant forall k :: 0 <= k < i ==> !Raises(db[k])
      invariant genres == BuildIndex(db[..i], GenreKeys) && directors == BuildIndex(db[..i], DirectorKeys)
      invariant decades == BuildIndex(db[..i], DecadeKeys) && cast == BuildIndex(db[..i], CastKeys)
    {
      ok, genres, directors, decades, cast := IndexRecord(db[i], i, genres, directors, decades, cast);
      if !ok {
        return;
      }
      assert forall k :: 0 <= k < i + 1 ==> !Raises(db[k]) by {
        forall k | 0 <= k < i + 1 ensures !Raises(db[k]) {
          if k < i {}
        }
      }
      BuildIndexStep(db, i, GenreKeys);
      BuildIndexStep(db, i, DirectorKeys);
      BuildIndexStep(db, i, DecadeKeys);
      BuildIndexStep(db, i, CastKeys);
      i := i + 1;
    }
    assert db[..i] == db;
    return true, genres, directors, decades, cast;
  }

  /** One pass of the loop body of `_create_indexes`: file record `i` in each index in turn;
      the director, the year and the cast can each raise. */
  method IndexRecord(m: Record, i: int, genres0: Index, directors0: Index, decades0: Index, cast0: Index)
    returns (ok: bool, genres: Index, directors: Index, decades: Index, cast: Index)
    ensures ok <==> !Raises(m)
    ensures ok ==> genres == AddAll(genres0, GenreKeys(m), i) && directors == AddAll(directors0, DirectorKeys(m), i) &&
                   decades == AddAll(decades0, DecadeKeys(m), i) && cast == AddAll(cast0, CastKeys(m), i)
  {
    directors, decades, cast := directors0, decades0, cast0;
    genres := AppendAll(genres0, GenreKeys(m), i);
    if DirectorRaises(m) {
      return false, genres, directors, decades, cast;
    }
    directors := AppendAll(directors0, DirectorKeys(m), i);
    if DecadeRaises(m) {
      return false, genres, directors, decades, cast;
    }
    decades := AppendAll(decades0, DecadeKeys(m), i);
    if CastRaises(m) {
      return false, genres, directors, decades, cast;
    }
    cast := AppendAll(cast0, CastKeys(m), i);
    ok := true;
  }

  /** Filing one more record extends the index over the records before it. */
  lemma BuildIndexStep<R>(db: seq<R>, i: int, keysOf: R -> seq<string>)
    requires 0 <= i < |db|
    ensures BuildIndex(db[..i + 1], keysOf) == AddAll(BuildIndex(db[..i], keysOf), keysOf(db[i]), i)
  {
    assert db[..i + 1][..i] == db[..i];
  }

  /** The inner loops of `_create_indexes`: append `i` under each key in turn. */
  method AppendAll(index: Index, keys: seq<string>, i: int) returns (r: Index)
    ensures r == AddAll(index, keys, i)
  {
    r := index;
    for j := 0 to |keys|
      invariant r == AddAll(index, keys[..j], i)
    {
      AddAllStep(index, keys, j, i);
      r := r[keys[j] := Lookup(r, keys[j]) + [i]];
    }
    assert keys[..|keys|] == keys;
  }

  lemma AddAllStep(index: Index, keys: seq<string>, j: int, i: int)
    requires 0 <= j < |keys|
    ensures var prev := AddAll(index, keys[..j], i);
      AddAll(index, keys[..j + 1], i) == prev[keys[j] := Lookup(prev, keys[j]) + [i]]
  {
    assert keys[..j + 1][..j] == keys[..j];
  }

  /** The indexes `_create_indexes` builds: sound, ascending and complete over the database; no
      director key is "" or "unknown"; a record with an integer year is filed under its decade. */
  lemma IndexesSpec(db: seq<Record>)
    ensures IndexOf(BuildIndex(db, GenreKeys), db, GenreKeys)
    ensures IndexOf(BuildIndex(db, DirectorKeys), db, DirectorKeys)
    ensures IndexOf(BuildIndex(db, DecadeKeys), db, DecadeKeys)
    ensures IndexOf(BuildIndex(db, CastKeys), db, CastKeys)
    ensures forall k :: k in BuildIndex(db, DirectorKeys) ==> k != "" && k != "unknown"
    ensures forall i :: 0 <= i < |db| && Get(db[i].year, Int(0)).Int? && Get(db[i].year, Int(0)).i != 0 ==>
      var key := IntToString(Get(db[i].year, Int(0)).i / 10 * 10) + "s";
      key in BuildIndex(db, DecadeKeys) && i in BuildIndex(db, DecadeKeys)[key]
  {
    BuildIndexSpec(db, GenreKeys);
    BuildIndexSpec(db, DirectorKeys);
    BuildIndexSpec(db, DecadeKeys);
    BuildIndexSpec(db, CastKeys);
    var d := BuildIndex(db, DirectorKeys);
    forall k | k in d ensures k != "" && k != "unknown" {
      if |d[k]| > 0 {
        assert k in DirectorKeys(db[d[k][0]]);
      } else {
        IndexNonEmpty(db, DirectorKeys, k);
      }
    }
    forall i | 0 <= i < |db| && Get(db[i].year, Int(0)).Int? && Get(db[i].year, Int(0)).i != 0
      ensures var key := IntToString(Get(db[i].year, Int(0)).i / 10 * 10) + "s";
        key in BuildIndex(db, DecadeKeys) && i in BuildIndex(db, DecadeKeys)[key]
    {
      assert DecadeKeys(db[i])[0] in DecadeKeys(db[i]);
    }
  }

  /** No key is filed with an empty list of positions. */
  lemma {:induction false} IndexNonEmpty<R>(db: seq<R>, keysOf: R -> seq<string>, k: string)
    requires k in BuildIndex(db, keysOf)
    ensures |BuildIndex(db, keysOf)[k]| > 0
    decreases |db|
  {
    var n := |db| - 1;
    var prev := BuildIndex(db[..n], keysOf);
    AddAllSpec(prev, keysOf(db[n]), n);
    if k in prev {
      IndexNonEmpty(db[..n], keysOf, k);
    }
  }

  // ---------------------------------------------------------------------------------------
  // MovieRecommendation and _create_recommendation_from_movie

  /** A recommendation; the fields the dataclass does not convert keep the record's JSON values.
      (`tmdb_id` and `letterboxd_url` are always None here and are not represented.) */
  datatype MovieRecommendation = MovieRecommendation(
    title: Value, year: string, director: Value, genres: Value, overview: Value, posterUrl: Value,
    imdbId: Value, rating: Value, numVotes: Value, runtime: Value, cast: Value,
    reasons: seq<string>, score: real)

  /** `_create_recommendation_from_movie`: each field is read with its default; `cast` is `[]`
      when it is missing or null, and the score starts at 0. */
  function FromMovie(movie: Record, reasons: seq<string>, show: Value -> string): MovieRecommendation
  {
    var cast := Get(movie.cast, List([]));
    MovieRecommendation(
      Get(movie.title, Str("Unknown")), ShowStr(Get(movie.year, Str("")), show),
      Get(movie.director, Str("Unknown")), Get(movie.genres, List([])), Get(movie.overview, Str("")),
      Get(movie.posterUrl, Str("")), Get(movie.imdbId, Str("")), Get(movie.rating, Float(0.0)),
      Get(movie.numVotes, Int(0)), Get(movie.runtime, Int(0)), if cast.Null? then List([]) else cast,
      reasons, 0.0)
  }

  /** On a validated record no default is ever used: the recommendation carries the record's
      own values. */
  lemma FromAcceptedMovie(movie: Record, reasons: seq<string>, show: Value -> string)
    requires Accepted(movie)
    ensures var rec := FromMovie(movie, reasons, show);
      rec.title == movie.title.value && rec.year == ShowStr(movie.year.value, show) &&
      rec.director == movie.director.value && rec.genres == movie.genres.value &&
      rec.overview == movie.overview.value && rec.posterUrl == movie.posterUrl.value &&
      rec.imdbId == movie.imdbId.value && rec.rating == movie.rating.value &&
      rec.numVotes == movie.numVotes.value && rec.runtime == movie.runtime.value &&
      rec.cast == movie.cast.value && rec.reasons == reasons && rec.score == 0.0
  {
  }

  // ---------------------------------------------------------------------------------------
  // _get_discovery_recommendations

  /** A value Python can order against a number. */
  function Num(v: Value): Option<real>
  {
    match v
    case Bool(b) => Some(if b then 1.0 else 0.0)
    case Int(i) => Some(i as real)
    case Float(r) => Some(r)
    case _ => None
  }

  /** Python's `v >= bound`: a NaN compares false, an infinity as its sign says; None is the
      TypeError of comparing a non-number. */
  function AtLeast(v: Value, bound: real): Option<bool>
  {
    if v.NonFinite? then Some(v.kind == Inf)
    else match Num(v)
      case None => None
      case Some(x) => Some(x >= bound)
  }

  /** Python's `v <= bound`, in the same terms. */
  function AtMost(v: Value, bound: real): Option<bool>
  {
    if v.NonFinite? then Some(v.kind == NegInf)
    else match Num(v)
      case None => None
      case Some(x) => Some(x <= bound)
  }

  /** `rating >= 7.5 and 1000 <= votes <= 500000`; None is the TypeError of comparing a
      non-number. Each comparison runs only when the ones before it hold. */
  function Eligible(movie: Record): Option<bool>
  {
    var rating, votes := Get(movie.rating, Int(0)), Get(movie.numVotes, Int(0));
    match AtLeast(rating, 7.5)
    case None => None
    case Some(high) =>
      if !high then Some(false)
      else
        match AtLeast(votes, 1000.0)
        case None => None
        case Some(enough) => if !enough then Some(false) else AtMost(votes, 500000.0)
  }

  /** A rating the discovery filter lets through: a number of at least 7.5, or positive infinity. */
  predicate HighlyRated(v: Value)
  {
    v == NonFinite(Inf) || (Num(v).Some? && Num(v).value >= 7.5)
  }

  function DiscoveryReason(movie: Record, show: Value -> string): string
  {
    "Highly-rated discovery (Rating: " + ShowStr(Get(movie.rating, Int(0)), show) + "/10)"
  }

  /** Python's `s[:n]`. */
  function PyTake<T>(s: seq<T>, n: int): (r: seq<T>)
    ensures r <= s && |r| == if n >= 0 then Min(n, |s|) else Max(|s| + n, 0)
  {
    if n >= 0 then (if n <= |s| then s[..n] else s)
    else if |s| + n >= 0 then s[..|s| + n] else []
  }

  function Min(a: int, b: int): int { if a <= b then a else b }

  function Max(a: int, b: int): int { if a >= b then a else b }

  /** The loop over the candidates: stop once `count` picks are made; an eligible movie becomes
      a pick. */
  function Picks(cands: seq<Record>, count: int, show: Value -> string): Result<seq<MovieRecommendation>>
  {
    if cands == [] then Ok([])
    else
      match Picks(cands[..|cands| - 1], count, show)
      case Err(e) => Err(e)
      case Ok(picked) =>
        if |picked| >= count then Ok(picked)
        else
          var movie := cands[|cands| - 1];
          match Eligible(movie)
          case None => Err("TypeError")
          case Some(false) => Ok(picked)
          case Some(true) => Ok(picked + [FromMovie(movie, [DiscoveryReason(movie, show)], show)])
  }

  /** `_get_discovery_recommendations` over the database in ranking order: the first `3 * count`
      ranked movies are examined. */
  function Discovery(ranked: seq<Record>, count: int, show: Value -> string): Result<seq<MovieRecommendation>>
  {
    match Picks(PyTake(ranked, count * 3), count, show)
    case Err(e) => Err(e)
    case Ok(picked) => Ok(PyTake(picked, count))
  }

  method DiscoveryRecommendations(ranked: seq<Record>, count: int, show: Value -> string)
    returns (r: Result<seq<MovieRecommendation>>)
    ensures r == Discovery(ranked, count, show)
  {
    var cands := PyTake(ranked, count * 3);
    var recommendations: seq<MovieRecommendation> := [];
    var i := 0;
    while i < |cands|
      invariant 0 <= i <= |cands|
      invariant Picks(cands[..i], count, show) == Ok(recommendations)
    {
      if |recommendations| >= count {
        PicksStay(cands, i, count, show);
        return Ok(PyTake(recommendations, count));
      }
      assert cands[..i + 1][..i] == cands[..i];
      var movie := cands[i];
      var eligible := Eligible(movie);
      if eligible.None? {
        PicksStay(cands, i + 1, count, show);
        return Err("TypeError");
      }
      if eligible.value {
        recommendations := recommendations + [FromMovie(movie, [DiscoveryReason(movie, show)], show)];
      }
      i := i + 1;
    }
    assert cands[..i] == cands;
    return Ok(PyTake(recommendations, count));
  }

  /** After a raise or a full quota the remaining candidates change nothing. */
  lemma {:induction false} PicksStay(cands: seq<Record>, n: nat, count: int, show: Value -> string)
    requires n <= |cands|
    requires Picks(cands[..n], count, show).Err? || |Picks(cands[..n], count, show).value| >= count
    ensures Picks(cands, count, show) == Picks(cands[..n], count, show)
    decreases |cands| - n
  {
    if n < |cands| {
      assert cands[..n + 1][..n] == cands[..n];
      PicksStay(cands, n + 1, count, show);
    } else {
      assert cands[..n] == cands;
    }
  }

  /** Every eligible candidate, in order, with no quota: an independent statement of the picks. */
  function AllPicks(cands: seq<Record>, show: Value -> string): seq<MovieRecommendation>
  {
    if cands == [] then []
    else
      var movie := cands[|cands| - 1];
      AllPicks(cands[..|cands| - 1], show) +
        (if Eligible(movie) == Some(true) then [FromMovie(movie, [DiscoveryReason(movie, show)], show)] else [])
  }

  /** The picks never exceed the quota; each is a recommendation of an examined movie that is
      eligible; and below the quota nothing eligible was passed over. */
  lemma {:induction false} PicksSpec(cands: seq<Record>, count: int, show: Value -> string)
    ensures Picks(cands, count, show).Ok? ==>
      var p := Picks(cands, count, show).value;
      |p| <= Max(count, 0) &&
      (forall k :: 0 <= k < |p| ==>
         exists i :: 0 <= i < |cands| && Eligible(cands[i]) == Some(true) &&
           p[k] == FromMovie(cands[i], [DiscoveryReason(cands[i], show)], show)) &&
      (|p| < count ==> p == AllPicks(cands, show))
    decreases |cands|
  {
    if cands != [] {
      var n := |cands| - 1;
      var init := cands[..n];
      PicksSpec(init, count, show);
      if Picks(cands, count, show).Ok? {
        var p := Picks(cands, count, show).value;
        var q := Picks(init, count, show).value;
        var x := FromMovie(cands[n], [DiscoveryReason(cands[n], show)], show);
        assert p == q || (p == q + [x] && Eligible(cands[n]) == Some(true));
        assert AllPicks(cands, show) == AllPicks(init, show) + (if Eligible(cands[n]) == Some(true) then [x] else []);
        assert |q| < count ==> (p == q + [x] <==> Eligible(cands[n]) == Some(true));
        forall k | 0 <= k < |p|
          ensures exists i :: 0 <= i < |cands| && Eligible(cands[i]) == Some(true) &&
                    p[k] == FromMovie(cands[i], [DiscoveryReason(cands[i], show)], show)
        {
          if k < |q| {
            assert p[k] == q[k];
            var i :| 0 <= i < |init| && Eligible(init[i]) == Some(true) &&
                     q[k] == FromMovie(init[i], [DiscoveryReason(init[i], show)], show);
            assert cands[i] == init[i];
          } else {
            assert p[k] == x;
          }
        }
      }
    }
  }

  /** Each discovery pick has a rating of at least 7.5 (or an infinite one) and between 1000 and 500000 votes, and
      there are at most `count` of them. */
  lemma DiscoverySpec(ranked: seq<Record>, count: int, show: Value -> string)
    ensures Discovery(ranked, count, show).Ok? ==>
      var p := Discovery(ranked, count, show).value;
      |p| <= Max(count, 0) &&
      forall k :: 0 <= k < |p| ==>
        HighlyRated(p[k].rating) &&
        Num(p[k].numVotes).Some? && 1000.0 <= Num(p[k].numVotes).value <= 500000.0
  {
    var cands := PyTake(ranked, count * 3);
    PicksSpec(cands, count, show);
    if Discovery(ranked, count, show).Ok? {
      var p := Picks(cands, count, show).value;
      assert PyTake(p, count) == p;
      forall k | 0 <= k < |p|
        ensures HighlyRated(p[k].rating) &&
                Num(p[k].numVotes).Some? && 1000.0 <= Num(p[k].numVotes).value <= 500000.0
      {
        var i :| 0 <= i < |cands| && Eligible(cands[i]) == Some(true) &&
                 p[k] == FromMovie(cands[i], [DiscoveryReason(cands[i], show)], show);
        EligibleFields(cands[i], [DiscoveryReason(cands[i], show)], show);
      }
    }
  }

  /** An eligible movie has both a rating and a vote count, and its recommendation carries them. */
  lemma EligibleFields(movie: Record, reasons: seq<string>, show: Value -> string)
    requires Eligible(movie) == Some(true)
    ensures var rec := FromMovie(movie, reasons, show);
      HighlyRated(rec.rating) &&
      Num(rec.numVotes).Some? && 1000.0 <= Num(rec.numVotes).value <= 500000.0
  {
    assert movie.rating.Some? && movie.numVotes.Some?;
  }

  // ---------------------------------------------------------------------------------------
  // _deduplicate_and_filter

  /** The keys of the elements of `xs`. */
  function KeySet<R>(xs: seq<R>, key: R -> string): set<string>
  {
    set j | 0 <= j < |xs| :: key(xs[j])
  }

  /** The first element for each key, skipping the excluded keys, in order. */
  function KeepFirst<R>(xs: seq<R>, key: R -> string, excluded: set<string>): seq<R>
  {
    if xs == [] then []
    else
      var prev := KeepFirst(xs[..|xs| - 1], key, excluded);
      var x := xs[|xs| - 1];
      if key(x) !in excluded && key(x) !in KeySet(prev, key) then prev + [x] else prev
  }

  /** The normalised `title (year)` key of a recommendation with a string title. */
  function TitleKey(rec: MovieRecommendation): string
  {
    (if rec.title.Str? then Strip(Lower(rec.title.s)) else "") + " (" + rec.year + ")"
  }

  /** `_deduplicate_and_filter`: `.lower()` raises on a title that is not a string. */
  function Deduplicate(recs: seq<MovieRecommendation>, watched: set<string>): Result<seq<MovieRecommendation>>
  {
    if AllValid(recs, HasTitle) then Ok(KeepFirst(recs, TitleKey, watched)) else Err("AttributeError")
  }

  /** `rec.title.lower()` succeeds. */
  predicate HasTitle(rec: MovieRecommendation)
  {
    rec.title.Str?
  }

  predicate AllValid<R>(xs: seq<R>, valid: R -> bool)
  {
    forall i :: 0 <= i < |xs| ==> valid(xs[i])
  }

  method DeduplicateAndFilter(recs: seq<MovieRecommendation>, watched: set<string>)
    returns (r: Result<seq<MovieRecommendation>>)
    ensures r == Deduplicate(recs, watched)
  {
    r := KeepFirstLoop(recs, TitleKey, HasTitle, watched);
  }

  /** The loop of `_deduplicate_and_filter` for any key: `seen` holds the keys kept so far; the
      loop raises at the first element whose key cannot be computed (`valid` is false). */
  method KeepFirstLoop<R>(xs: seq<R>, key: R -> string, valid: R -> bool, excluded: set<string>)
    returns (r: Result<seq<R>>)
    ensures r == if AllValid(xs, valid) then Ok(KeepFirst(xs, key, excluded)) else Err("AttributeError")
  {
    var seen: set<string> := {};
    var filtered: seq<R> := [];
    for i := 0 to |xs|
      invariant AllValid(xs[..i], valid)
      invariant filtered == KeepFirst(xs[..i], key, excluded)
      invariant seen == KeySet(filtered, key)
    {
      var x := xs[i];
      if !valid(x) {
        assert !AllValid(xs, valid) by { assert !valid(xs[i]); }
        return Err("AttributeError");
      }
      KeepFirstStep(xs, i, key, excluded);
      var normalized := key(x);
      if normalized !in seen && normalized !in excluded {
        KeySetSnoc(filtered, x, key);
        seen := seen + {normalized};
        filtered := filtered + [x];
      }
      assert AllValid(xs[..i + 1], valid) by {
        assert forall j :: 0 <= j <= i ==> xs[..i + 1][j] == xs[j];
      }
    }
    assert xs[..|xs|] == xs;
    return Ok(filtered);
  }

  /** One more element: it is kept when its key is neither excluded nor already kept. */
  lemma KeepFirstStep<R>(xs: seq<R>, i: int, key: R -> string, excluded: set<string>)
    requires 0 <= i < |xs|
    ensures var prev := KeepFirst(xs[..i], key, excluded);
      KeepFirst(xs[..i + 1], key, excluded) ==
        if key(xs[i]) !in excluded && key(xs[i]) !in KeySet(prev, key) then prev + [xs[i]] else prev
  {
    assert xs[..i + 1][..i] == xs[..i];
  }

  lemma KeySetSnoc<R>(xs: seq<R>, x: R, key: R -> string)
    ensures KeySet(xs + [x], key) == KeySet(xs, key) + {key(x)}
  {
    var t := xs + [x];
    forall k | k in KeySet(t, key) ensures k in KeySet(xs, key) + {key(x)} {
      var j :| 0 <= j < |t| && key(t[j]) == k;
      if j < |xs| {
        assert t[j] == xs[j];
      }
    }
    forall k | k in KeySet(xs, key) ensures k in KeySet(t, key) {
      var j :| 0 <= j < |xs| && key(xs[j]) == k;
      assert t[j] == xs[j];
    }
    assert t[|xs|] == x;
  }

  /** The kept elements come from the input, have distinct keys, none of them excluded, and
      cover every key of the input that is not excluded; each first occurrence of such a key
      is kept. */
  lemma {:induction false} KeepFirstSpec<R>(xs: seq<R>, key: R -> string, excluded: set<string>)
    ensures var r := KeepFirst(xs, key, excluded);
      (forall a :: 0 <= a < |r| ==> r[a] in xs && key(r[a]) !in excluded) &&
      (forall a, b :: 0 <= a < b < |r| ==> key(r[a]) != key(r[b])) &&
      KeySet(r, key) == KeySet(xs, key) - excluded &&
      (forall j :: (0 <= j < |xs| && key(xs[j]) !in excluded &&
                    (forall j2 :: 0 <= j2 < j ==> key(xs[j2]) != key(xs[j]))) ==> xs[j] in r)
    decreases |xs|
  {
    if xs != [] {
      var init, x := xs[..|xs| - 1], xs[|xs| - 1];
      KeepFirstSpec(init, key, excluded);
      var prev := KeepFirst(init, key, excluded);
      var r := KeepFirst(xs, key, excluded);
      assert xs == init + [x];
      KeySetSnoc(init, x, key);
      if key(x) !in excluded && key(x) !in KeySet(prev, key) {
        KeySetSnoc(prev, x, key);
        assert r == prev + [x];
        forall a, b | 0 <= a < b < |r| ensures key(r[a]) != key(r[b]) {
          if b == |prev| {
            assert r[a] == prev[a];
            assert key(prev[a]) in KeySet(prev, key);
          }
        }
      } else {
        assert r == prev;
      }
      forall j | 0 <= j < |xs| && key(xs[j]) !in excluded &&
                 (forall j2 :: 0 <= j2 < j ==> key(xs[j2]) != key(xs[j]))
        ensures xs[j] in r
      {
        if j < |init| {
          assert init[j] == xs[j];
          assert forall j2 :: 0 <= j2 < j ==> init[j2] == xs[j2];
        }
      }
    }
  }

  /** Kept elements stay kept, in the same order, as more input arrives. */
  lemma {:induction false} KeepFirstPrefix<R>(xs: seq<R>, n: nat, key: R -> string, excluded: set<string>)
    requires n <= |xs|
    ensures KeepFirst(xs[..n], key, excluded) <= KeepFirst(xs, key, excluded)
    decreases |xs| - n
  {
    if n < |xs| {
      KeepFirstPrefix(xs[..|xs| - 1], n, key, excluded);
      assert xs[..|xs| - 1][..n] == xs[..n];
    } else {
      assert xs[..n] == xs;
    }
  }

  /** The de-duplicated recommendations: drawn from the input, with distinct and unwatched
      normalised keys, keeping the first recommendation for each such key. */
  lemma DeduplicateSpec(recs: seq<MovieRecommendation>, watched: set<string>)
    ensures Deduplicate(recs, watched).Err? <==> exists i :: 0 <= i < |recs| && !recs[i].title.Str?
    ensures Deduplicate(recs, watched).Ok? ==>
      var r := Deduplicate(recs, watched).value;
      (forall a :: 0 <= a < |r| ==> r[a] in recs && TitleKey(r[a]) !in watched) &&
      (forall a, b :: 0 <= a < b < |r| ==> TitleKey(r[a]) != TitleKey(r[b])) &&
      KeySet(r, TitleKey) == KeySet(recs, TitleKey) - watched &&
      (forall j :: (0 <= j < |recs| && TitleKey(recs[j]) !in watched &&
                    (forall j2 :: 0 <= j2 < j ==> TitleKey(recs[j2]) != TitleKey(recs[j]))) ==> recs[j] in r)
  {
    KeepFirstSpec(recs, TitleKey, watched);
  }
}
