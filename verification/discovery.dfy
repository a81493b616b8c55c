/** The movie discovery flow of app.py's `main`: sequel removal, the tiered
    fallback (year and genre, then genre only, then everything), the list or
    random-pick reduction, menu choice validation and the "reason" line. */
module Discovery {
  import opened Wrappers
  import opened Text
  import opened Decimal
  import opened Subsequences
  import opened Tmdb
  import opened Cache

  /** app.py's genre table (11 names). */
  const Genres: map<string, int> := map[
    "action" := 28, "thriller" := 53, "comedy" := 35, "horror" := 27,
    "sci-fi" := 878, "drama" := 18, "mystery" := 9648, "animation" := 16,
    "fantasy" := 14, "romance" := 10749, "documentary" := 99]

  lemma GenresKeys()
    ensures Genres.Keys == {"action", "thriller", "comedy", "horror", "sci-fi", "drama",
                            "mystery", "animation", "fantasy", "romance", "documentary"}
  {
  }

  /** The table read backwards, id to name. */
  const NameById: map<int, string> := map[
    28 := "action", 53 := "thriller", 35 := "comedy", 27 := "horror",
    878 := "sci-fi", 18 := "drama", 9648 := "mystery", 16 := "animation",
    14 := "fantasy", 10749 := "romance", 99 := "documentary"]

  /** "action" to "drama" read back through `NameById`. */
  lemma NamesBackActionToDrama()
    ensures NamesBack(Genres, NameById, "action")
    ensures NamesBack(Genres, NameById, "thriller")
    ensures NamesBack(Genres, NameById, "comedy")
    ensures NamesBack(Genres, NameById, "horror")
    ensures NamesBack(Genres, NameById, "sci-fi")
    ensures NamesBack(Genres, NameById, "drama")
  {
    assert NamesBack(Genres, NameById, "action");
    assert NamesBack(Genres, NameById, "thriller");
    assert NamesBack(Genres, NameById, "comedy");
    assert NamesBack(Genres, NameById, "horror");
    assert NamesBack(Genres, NameById, "sci-fi");
    assert NamesBack(Genres, NameById, "drama");
  }

  /** "mystery" to "documentary" read back through `NameById`. */
  lemma NamesBackMysteryToDocumentary()
    ensures NamesBack(Genres, NameById, "mystery")
    ensures NamesBack(Genres, NameById, "animation")
    ensures NamesBack(Genres, NameById, "fantasy")
    ensures NamesBack(Genres, NameById, "romance")
    ensures NamesBack(Genres, NameById, "documentary")
  {
    assert NamesBack(Genres, NameById, "mystery");
    assert NamesBack(Genres, NameById, "animation");
    assert NamesBack(Genres, NameById, "fantasy");
    assert NamesBack(Genres, NameById, "romance");
    assert NamesBack(Genres, NameById, "documentary");
  }

  /** The table gives distinct names distinct ids: each id determines its name. */
  lemma GenresInjective()
    ensures Injective(Genres)
  {
    NamesBackActionToDrama();
    NamesBackMysteryToDocumentary();
    GenresKeys();
    InjectiveByInverse(Genres, NameById);
  }

  /** `GENRE_NAMES`: id to capitalized name. */
  function GenreNames(): (names: map<int, string>)
    ensures names.Keys == Genres.Values
  {
    GenresInjective();
    GenreNamesOf(Genres)
  }

  /** The user's optional filters: `year_filter` (empty when not given) and
      `target_genre_id`, the table id of the lower-cased theme if any. */
  datatype Filters = Filters(year: string, genre: Option<int>)

  /** The filters `main` builds from the year and theme prompts. */
  function ReadFilters(yearInput: string, themeInput: string): (f: Filters)
    ensures f.year == yearInput
    ensures f.genre.Some? <==> Lower(themeInput) in Genres
    ensures f.genre.Some? ==> f.genre.value == Genres[Lower(themeInput)]
  {
    Filters(yearInput, GenreId(Genres, themeInput))
  }

  /** `not year_filter or (m.get('release_date') and year_filter in m['release_date'])`:
      a substring test on the full date, not a comparison of years. */
  predicate YearMatches(m: Movie, year: string)
  {
    year == "" || (Truthy(m.releaseDate) && Contains(m.releaseDate.value, year))
  }

  /** `not target_genre_id or target_genre_id in m.get('genre_ids', [])`. */
  predicate GenreMatches(m: Movie, genre: Option<int>)
  {
    genre.None? || genre.value in m.genreIds
  }

  /** Tier 1: the candidates matching both the year and the genre filter. */
  function Tier1(unique: seq<Movie>, f: Filters): (r: seq<Movie>)
    ensures IsSubseq(r, unique)
    ensures forall i :: 0 <= i < |r| ==> YearMatches(r[i], f.year) && GenreMatches(r[i], f.genre)
    ensures forall i :: 0 <= i < |unique| && YearMatches(unique[i], f.year) && GenreMatches(unique[i], f.genre)
              ==> unique[i] in r
  {
    Filter(unique, m => YearMatches(m, f.year) && GenreMatches(m, f.genre))
  }

  /** Tier 2: the candidates matching the genre filter, whatever their year. */
  function Tier2(unique: seq<Movie>, f: Filters): (r: seq<Movie>)
    ensures IsSubseq(r, unique)
    ensures forall i :: 0 <= i < |r| ==> GenreMatches(r[i], f.genre)
    ensures forall i :: 0 <= i < |unique| && GenreMatches(unique[i], f.genre) ==> unique[i] in r
  {
    Filter(unique, m => GenreMatches(m, f.genre))
  }

  /** Tier 1 is a subsequence of tier 2, which is a subsequence of the
      de-duplicated candidates. */
  lemma TiersNested(unique: seq<Movie>, f: Filters)
    ensures IsSubseq(Tier1(unique, f), Tier2(unique, f))
    ensures IsSubseq(Tier2(unique, f), unique)
  {
    FilterMonotone(unique, m => YearMatches(m, f.year) && GenreMatches(m, f.genre),
                   m => GenreMatches(m, f.genre));
  }

  /** Without a year filter the two tiers coincide. */
  lemma NoYearTiersEqual(unique: seq<Movie>, f: Filters)
    requires f.year == ""
    ensures Tier1(unique, f) == Tier2(unique, f)
  {
    FilterExtensional(unique, m => YearMatches(m, f.year) && GenreMatches(m, f.genre),
                      m => GenreMatches(m, f.genre));
  }

  /** Without any filter tier 1 is every de-duplicated candidate. */
  lemma NoFiltersTier1All(unique: seq<Movie>, f: Filters)
    requires f.year == "" && f.genre.None?
    ensures Tier1(unique, f) == unique
  {
    FilterAll(unique, m => YearMatches(m, f.year) && GenreMatches(m, f.genre));
  }

  /** Which branch of the fallback produced the list shown. */
  datatype Tier = Exact | GenreOnly | Unfiltered

  datatype Selection = Selection(tier: Tier, movies: seq<Movie>)

  /** The tiered fallback: a non-empty tier 1 wins; otherwise tier 2 when it
      is non-empty and some filter was given; otherwise all candidates. */
  function Select(unique: seq<Movie>, f: Filters): (r: Selection)
    ensures r.tier == Exact <==> Tier1(unique, f) != []
    ensures r.tier == GenreOnly <==>
              Tier1(unique, f) == [] && Tier2(unique, f) != [] && (f.year != "" || f.genre.Some?)
    ensures r.tier == Exact ==> r.movies == Tier1(unique, f)
    ensures r.tier == GenreOnly ==> r.movies == Tier2(unique, f)
    ensures r.tier == Unfiltered ==> r.movies == unique
  {
    var t1 := Tier1(unique, f);
    var t2 := Tier2(unique, f);
    if t1 != [] then Selection(Exact, t1)
    else if t2 != [] && (f.year != "" || f.genre.Some?) then Selection(GenreOnly, t2)
    else Selection(Unfiltered, unique)
  }

  /** The selected list keeps the upstream order and only holds candidates
      that survived de-duplication; it is empty only when there were none. */
  lemma SelectIsSubseq(unique: seq<Movie>, f: Filters)
    ensures IsSubseq(Select(unique, f).movies, unique)
    ensures Select(unique, f).movies == [] <==> unique == []
  {
    SubseqReflexive(unique);
    if unique != [] && Tier1(unique, f) == [] && Tier2(unique, f) == [] {
      FilterEmpty(unique, m => GenreMatches(m, f.genre));
    }
  }

  /** With neither filter, any surviving candidate makes the tier exact and
      the list is every surviving candidate. */
  lemma NoFiltersIsExact(unique: seq<Movie>, f: Filters)
    requires f.year == "" && f.genre.None? && unique != []
    ensures Select(unique, f) == Selection(Exact, unique)
  {
    NoFiltersTier1All(unique, f);
  }

  /** The genre-only tier is reachable only when a year filter was given. */
  lemma GenreOnlyNeedsYear(unique: seq<Movie>, f: Filters)
    requires Select(unique, f).tier == GenreOnly
    ensures f.year != ""
  {
    if f.year == "" {
      NoYearTiersEqual(unique, f);
    }
  }

  /** An unfiltered non-empty result means a filter was given and no
      candidate matches its genre. */
  lemma UnfilteredMeansNoGenreMatch(unique: seq<Movie>, f: Filters)
    requires Select(unique, f).tier == Unfiltered && unique != []
    ensures f.year != "" || f.genre.Some?
    ensures forall i :: 0 <= i < |unique| ==> !GenreMatches(unique[i], f.genre)
  {
    if f.year == "" && f.genre.None? {
      NoFiltersTier1All(unique, f);
    }
    FilterEmpty(unique, m => GenreMatches(m, f.genre));
  }

  /** What the search step leaves for display, the base movie's genres kept
      to explain matches, the cache file afterwards, and the tier when a base
      movie was used. */
  datatype Candidates = Candidates(movies: seq<Movie>, baseGenreIds: seq<int>, file: CacheFile, tier: Option<Tier>)

  /** The core search of `main`. `searchResults`, `fetched` and `discovered`
      are what the search, recommendation and discover endpoints return. */
  function FindCandidates(file: CacheFile, favMovie: string, searchResults: seq<Movie>,
                          fetched: seq<Movie>, discovered: seq<Movie>, f: Filters): (r: Candidates)
    ensures favMovie == "" ==> r == Candidates(discovered, [], file, None)
    ensures favMovie != "" && searchResults == [] ==> r == Candidates([], [], file, None)
    ensures favMovie != "" && searchResults != [] ==>
              var lookup := GetRecommendationsWithCache(file, searchResults[0].id, fetched);
              && r.file == lookup.file
              && r.baseGenreIds == searchResults[0].genreIds
              && IsSubseq(r.movies, lookup.recs)
              && (forall i :: 0 <= i < |r.movies| ==> NotSequelOf(r.movies[i], searchResults[0].title))
    ensures favMovie != "" && searchResults != [] ==>
              var lookup := GetRecommendationsWithCache(file, searchResults[0].id, fetched);
              var sel := Select(WithoutSequels(lookup.recs, searchResults[0].title), f);
              r.movies == sel.movies && r.tier == Some(sel.tier)
  {
    if favMovie == "" then Candidates(discovered, [], file, None)
    else if searchResults == [] then Candidates([], [], file, None)
    else
      var base := searchResults[0];
      var lookup := GetRecommendationsWithCache(file, base.id, fetched);
      var unique := WithoutSequels(lookup.recs, base.title);
      var sel := Select(unique, f);
      SelectIsSubseq(unique, f);
      SubseqTransitive(sel.movies, unique, lookup.recs);
      SubseqElements(sel.movies, unique);
      Candidates(sel.movies, base.genreIds, lookup.file, Some(sel.tier))
  }

  /** The two display modes of `main`. */
  predicate IsRandomMode(mode: string) { mode == "2" }

  /** The error `random.choice` raises on an empty list. */
  datatype ChoiceError = EmptySequence

  /** The reduction as written: `[random.choice(movies)]` in random mode,
      which raises on an empty list before the "No matches found" check;
      `movies[:5]` otherwise. `pick` is the index the random generator draws. */
  function ReduceAsWritten(movies: seq<Movie>, mode: string, pick: nat): (r: Result<seq<Movie>, ChoiceError>)
    requires |movies| > 0 ==> pick < |movies|
    ensures r.Failure? <==> IsRandomMode(mode) && movies == []
    ensures r.Success? && IsRandomMode(mode) ==> r.value == [movies[pick]]
    ensures r.Success? && !IsRandomMode(mode) ==> r.value == Take(movies, 5)
  {
    if IsRandomMode(mode) then
      if movies == [] then Failure(EmptySequence) else Success([movies[pick]])
    else Success(movies[..if |movies| < 5 then |movies| else 5])
  }

  /** The reduction as intended: an empty list stays empty in random mode so
      that "No matches found" is reported. */
  function Reduce(movies: seq<Movie>, mode: string, pick: nat): (r: seq<Movie>)
    requires |movies| > 0 ==> pick < |movies|
    ensures IsSubseq(r, movies)
    ensures r == [] <==> movies == []
    ensures IsRandomMode(mode) && movies != [] ==> |r| == 1 && r[0] in movies
    ensures !IsRandomMode(mode) ==> |r| <= 5 && r <= movies
  {
    if IsRandomMode(mode) then
      if movies == [] then [] else SingletonIsSubseq(movies, pick); [movies[pick]]
    else
      var n := if |movies| < 5 then |movies| else 5;
      PrefixIsSubseq(movies, n);
      movies[..n]
  }

  /** Whenever the written reduction does not raise, it agrees with the
      intended one. */
  lemma ReduceAgrees(movies: seq<Movie>, mode: string, pick: nat)
    requires |movies| > 0 ==> pick < |movies|
    ensures ReduceAsWritten(movies, mode, pick).Success? ==>
              ReduceAsWritten(movies, mode, pick).value == Reduce(movies, mode, pick)
  {
  }

  /** The raising case is reachable through the search: a base movie whose
      only recommendation is its sequel leaves nothing to pick from. */
  lemma RandomPickOfSequelsOnlyRaises(base: Movie, sequel: Movie)
    requires base.title == "Dune" && sequel.title == "Dune: Part Two"
    ensures var c := FindCandidates(Missing, "Dune", [base], [sequel], [], Filters("", None));
            c.movies == [] && ReduceAsWritten(c.movies, "2", 0).Failure?
  {
    assert Lower("Dune") == "dune";
    assert Lower(sequel.title)[..4] == "dune";
    assert !NotSequelOf(sequel, base.title);
    WithoutSequelsCons(sequel, [], base.title);
  }

  /** `session_movies`: the reduced list again cut to five, or its first
      element in random mode. */
  function SessionMovies(shown: seq<Movie>, mode: string): (r: seq<Movie>)
    requires shown != []
    ensures |r| >= 1 && r <= shown
  {
    if IsRandomMode(mode) then [shown[0]] else shown[..if |shown| < 5 then |shown| else 5]
  }

  /** The session list is exactly the list the reduction produced. */
  lemma SessionIsReduced(movies: seq<Movie>, mode: string, pick: nat)
    requires |movies| > 0 ==> pick < |movies|
    requires movies != []
    ensures SessionMovies(Reduce(movies, mode, pick), mode) == Reduce(movies, mode, pick)
  {
  }

  /** The outcome of one answer at the details prompt. */
  datatype MenuAction = Quit | Open(index: nat) | Invalid

  /** An empty answer quits; an answer of digits naming a listed movie
      (1-based) opens it; anything else is rejected. */
  function MenuChoice(choice: string, count: nat): (r: MenuAction)
    ensures r.Quit? <==> choice == ""
    ensures r.Open? <==> IsDigits(choice) && 1 <= ParseDigits(choice) <= count
    ensures r.Open? ==> r.index < count && r.index + 1 == ParseDigits(choice)
  {
    if choice == "" then Quit
    else if IsDigits(choice) && 1 <= ParseDigits(choice) <= count then Open(ParseDigits(choice) - 1)
    else Invalid
  }

  /** Typing the number printed beside a movie opens that movie. */
  lemma ListedNumbersOpen(i: nat, count: nat)
    requires i < count
    ensures MenuChoice(NatToString(i + 1), count) == Open(i)
  {
    ParseNatToString(i + 1);
  }

  /** `[GENRE_NAMES[g] for g in selected.get('genre_ids', []) if g in base_genre_ids]`
      as written: a shared id missing from the table raises `KeyError`. */
  function MatchedGenresAsWritten(selected: Movie, baseGenreIds: seq<int>): (r: Result<seq<string>, int>)
    ensures r.Success? <==> forall g :: g in selected.genreIds && g in baseGenreIds ==> g in GenreNames()
    ensures r.Failure? ==> r.error in selected.genreIds && r.error in baseGenreIds && r.error !in GenreNames()
  {
    var shared := SharedGenreIds(selected.genreIds, baseGenreIds);
    SubseqElements(shared, selected.genreIds);
    MatchedGenres(GenreNames(), selected.genreIds, baseGenreIds)
  }

  /** Adventure (12) is a movie genre the table lacks: two adventure movies
      make the details view raise. */
  lemma SharedAdventureRaises(selected: Movie, baseGenreIds: seq<int>)
    requires selected.genreIds == [12, 878] && baseGenreIds == [878, 12]
    ensures MatchedGenresAsWritten(selected, baseGenreIds) == Failure(12)
  {
    AdventureUnnamed();
    var shared := SharedGenreIds(selected.genreIds, baseGenreIds);
    assert shared[0] == 12 by {
      assert 12 in shared;
    }
    assert NamesOf(GenreNames(), shared) == Failure(12);
  }

  /** No name of the table has the id 12. */
  lemma AdventureUnnamed()
    ensures 12 !in GenreNames()
  {
    NamesBackActionToDrama();
    NamesBackMysteryToDocumentary();
    GenresKeys();
    assert 12 !in NameById;
    forall k | k in Genres ensures Genres[k] != 12 {
      assert NamesBack(Genres, NameById, k);
    }
  }

  /** Whether the table names genre `g`. */
  predicate IsNamed(g: int)
  {
    g in GenreNames()
  }

  /** The ids of the selected movie's genres that the base shares and the
      table names, in the selected movie's order. */
  function KnownSharedIds(selected: Movie, baseGenreIds: seq<int>): (ids: seq<int>)
    ensures IsSubseq(ids, selected.genreIds)
    ensures forall i :: 0 <= i < |ids| ==> ids[i] in baseGenreIds && ids[i] in GenreNames()
    ensures forall g :: g in selected.genreIds && g in baseGenreIds && g in GenreNames() ==> g in ids
  {
    var shared := SharedGenreIds(selected.genreIds, baseGenreIds);
    var ids := Filter(shared, IsNamed);
    SubseqTransitive(ids, shared, selected.genreIds);
    SubseqElements(ids, shared);
    ids
  }

  /** The corrected comprehension: the names of the shared genres the table
      knows, one per id and in order; ids the table lacks are skipped instead
      of raising. */
  function MatchedGenreNames(selected: Movie, baseGenreIds: seq<int>): (r: seq<string>)
    ensures var ids := KnownSharedIds(selected, baseGenreIds);
            |r| == |ids| && forall i :: 0 <= i < |ids| ==> r[i] == GenreNames()[ids[i]]
  {
    var ids := KnownSharedIds(selected, baseGenreIds);
    NamesOf(GenreNames(), ids).value
  }

  /** Whenever the written comprehension does not raise, the corrected one
      returns the same names. */
  lemma MatchedGenreNamesAgrees(selected: Movie, baseGenreIds: seq<int>)
    requires MatchedGenresAsWritten(selected, baseGenreIds).Success?
    ensures MatchedGenreNames(selected, baseGenreIds) == MatchedGenresAsWritten(selected, baseGenreIds).value
  {
    var shared := SharedGenreIds(selected.genreIds, baseGenreIds);
    SubseqElements(shared, selected.genreIds);
    FilterAll(shared, IsNamed);
  }

  /** The corrected names are empty exactly when no shared genre is in the table. */
  lemma MatchedGenreNamesEmpty(selected: Movie, baseGenreIds: seq<int>)
    ensures MatchedGenreNames(selected, baseGenreIds) == []
        <==> forall g :: g in selected.genreIds && g in baseGenreIds ==> g !in GenreNames()
  {
    var ids := KnownSharedIds(selected, baseGenreIds);
    SubseqElements(ids, selected.genreIds);
  }

  /** The reason printed in the details view: the shared genres when a base
      movie was given, the theme otherwise. */
  function ReasonLine(favMovie: string, matched: seq<string>, theme: string): (r: Option<string>)
    ensures favMovie != "" ==> (r.Some? <==> matched != [])
    ensures favMovie != "" && r.Some? ==> forall i :: 0 <= i < |matched| ==> Contains(r.value, matched[i])
    ensures favMovie == "" ==> r.Some? && Contains(r.value, theme)
  {
    if favMovie != "" && matched != [] then
      var prefix := "\U{1F4A1} REASON: Both movies are ";
      var line := prefix + Join(matched, ", ");
      JoinContainsParts(matched, ", ");
      assert forall i :: 0 <= i < |matched| ==> Contains(line, matched[i]) by {
        forall i | 0 <= i < |matched| ensures Contains(line, matched[i]) {
          assert line == prefix + Join(matched, ", ") + "";
          ContainsInside(prefix, Join(matched, ", "), "", matched[i]);
        }
      }
      Some(line)
    else if favMovie == "" then
      var prefix := "\U{1F4A1} REASON: Matches your ";
      var line := prefix + theme + " filters";
      assert OccursAt(line, theme, |prefix|);
      PositionIsContained(line, theme, |prefix|);
      Some(line)
    else None
  }

  /** A title whose lower-cased form lacks the letter 'd' is not a sequel of "Dune". */
  lemma NoLetterDNotDune(m: Movie)
    requires 'd' !in Lower(m.title)
    ensures NotSequelOf(m, "Dune")
  {
    assert Lower("Dune") == "dune";
    if Contains(Lower(m.title), "dune") {
      ContainsFirstChar(Lower(m.title), "dune");
    }
  }

  lemma DunePartTwoIsSequel(m: Movie)
    requires m.title == "Dune Part Two"
    ensures !NotSequelOf(m, "Dune")
  {
    assert Lower("Dune") == "dune";
    assert Lower("Dune Part Two")[..4] == "dune";
  }

  /** Neither "Arrival" nor "Interstellar" has a 'd', so neither is a sequel of "Dune". */
  lemma ArrivalInterstellarNotSequels(arrival: Movie, interstellar: Movie)
    requires arrival.title == "Arrival" && interstellar.title == "Interstellar"
    ensures NotSequelOf(arrival, "Dune") && NotSequelOf(interstellar, "Dune")
  {
    assert Lower(arrival.title) == "arrival";
    NoLetterDNotDune(arrival);
    assert Lower(interstellar.title) == "interstellar";
    NoLetterDNotDune(interstellar);
  }

  /** Example: base "Dune" drops "Dune Part Two" and keeps
      "Arrival" and "Interstellar" in their order, whatever the records'
      other fields. */
  lemma DuneScenarioDedup(sequel: Movie, arrival: Movie, interstellar: Movie)
    requires sequel.title == "Dune Part Two"
    requires arrival.title == "Arrival" && interstellar.title == "Interstellar"
    ensures WithoutSequels([sequel, arrival, interstellar], "Dune") == [arrival, interstellar]
  {
    DunePartTwoIsSequel(sequel);
    ArrivalInterstellarNotSequels(arrival, interstellar);
    WithoutSequelsCons(interstellar, [], "Dune");
    WithoutSequelsCons(arrival, [interstellar], "Dune");
    WithoutSequelsCons(sequel, [arrival, interstellar], "Dune");
  }

  /** Example, continued: with genre filter 878 and no year both
      remaining candidates are exact matches; adding the year "1999", which
      neither has, falls back to the genre-only tier with the same list. */
  lemma DuneScenarioTiers()
    ensures var arrival := Movie(329865, "Arrival", None, [878, 18]);
            var interstellar := Movie(157336, "Interstellar", None, [878, 12]);
            && Select([arrival, interstellar], Filters("", Some(878))) == Selection(Exact, [arrival, interstellar])
            && Select([arrival, interstellar], Filters("1999", Some(878))) == Selection(GenreOnly, [arrival, interstellar])
  {
  }
}
