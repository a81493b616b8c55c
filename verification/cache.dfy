/** The recommendation cache of app.py (`get_recommendations_with_cache`):
    a JSON object on disk mapping `str(movie_id)` to the recommendation list
    fetched for that movie. The file is a value threaded through calls and
    the network response is a parameter, so a call reports whether it
    would have fetched. */
module Cache {
  import opened Decimal
  import opened Tmdb

  /** The decoded contents of the cache file. */
  type Pantry = map<string, seq<Movie>>

  /** The cache file on disk: absent, or present with its decoded contents. */
  datatype CacheFile = Missing | Present(pantry: Pantry)

  /** The outcome of one call: the list returned, the file afterwards, and
      whether the recommendation endpoint was queried. */
  datatype Lookup = Lookup(recs: seq<Movie>, file: CacheFile, fetched: bool)

  /** The map the function starts from: the file's contents, or `{}`. */
  function Loaded(file: CacheFile): Pantry
  {
    if file.Present? then file.pantry else map[]
  }

  /** The key a movie is cached under, `str(movie_id)`. */
  function Key(movieId: int): string
  {
    IntToString(movieId)
  }

  /** `get_recommendations_with_cache(movie_id)`, where `fetched` is the
      `results` list the endpoint would return. */
  function GetRecommendationsWithCache(file: CacheFile, movieId: int, fetched: seq<Movie>): (r: Lookup)
    // hit: the stored list, no request, file untouched
    ensures Key(movieId) in Loaded(file) ==>
              r.recs == Loaded(file)[Key(movieId)] && !r.fetched && r.file == file
    // miss: the fetched list is returned and stored under the key
    ensures Key(movieId) !in Loaded(file) ==>
              r.fetched && r.recs == fetched && r.file.Present? && Key(movieId) in r.file.pantry
              && r.file.pantry[Key(movieId)] == r.recs
    // miss: one key is added and every other entry is kept as it was
    ensures Key(movieId) !in Loaded(file) ==>
              r.file.Present? && r.file.pantry.Keys == Loaded(file).Keys + {Key(movieId)}
    ensures Key(movieId) !in Loaded(file) ==>
              r.file.Present? && forall k :: k in Loaded(file) ==> r.file.pantry[k] == Loaded(file)[k]
  {
    var pantry := Loaded(file);
    var key := Key(movieId);
    if key in pantry then Lookup(pantry[key], file, false)
    else Lookup(fetched, Present(pantry[key := fetched]), true)
  }

  /** After any first call, a second call with the same id is a hit that
      returns the same list, whatever the endpoint would now return. */
  lemma WarmIdempotence(file: CacheFile, movieId: int, first: seq<Movie>, second: seq<Movie>)
    ensures var r1 := GetRecommendationsWithCache(file, movieId, first);
            var r2 := GetRecommendationsWithCache(r1.file, movieId, second);
            !r2.fetched && r2.recs == r1.recs && r2.file == r1.file
  {
  }

  /** Caching one movie does not change what a lookup of another movie
      returns, or whether that lookup fetches, because `str` is injective. */
  lemma OtherMoviesUnaffected(file: CacheFile, a: int, b: int, fetchedA: seq<Movie>, fetchedB: seq<Movie>)
    requires a != b
    ensures var after := GetRecommendationsWithCache(file, a, fetchedA).file;
            var before := GetRecommendationsWithCache(file, b, fetchedB);
            var now := GetRecommendationsWithCache(after, b, fetchedB);
            now.recs == before.recs && now.fetched == before.fetched
  {
    IntToStringInjective(a, b);
  }

  /** Example: with no cache file, the first lookup of movie
      438631 fetches and writes `{"438631": [...]}`; the second returns the
      stored list without fetching. */
  lemma ColdThenWarm(recs: seq<Movie>, later: seq<Movie>)
    ensures var r1 := GetRecommendationsWithCache(Missing, 438631, recs);
            r1.fetched && r1.recs == recs && r1.file == Present(map["438631" := recs])
    ensures var r1 := GetRecommendationsWithCache(Missing, 438631, recs);
            var r2 := GetRecommendationsWithCache(r1.file, 438631, later);
            !r2.fetched && r2.recs == recs
  {
    assert NatToString(438631) == "438631" by {
      assert NatToString(4) == "4";
      assert NatToString(43) == "43";
      assert NatToString(438) == "438";
      assert NatToString(4386) == "4386";
      assert NatToString(43863) == "43863";
    }
  }
}
