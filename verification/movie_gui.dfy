/** The desktop movie browser of Apps/gui_app.py: the search handler that
    fills the result list, the list lines, the title autocomplete and the
    details view's "reason". Widgets are left out; the handler state is the
    pair of fields `current_results` and `base_genre_ids`. */
module MovieGui {
  import opened Wrappers
  import opened Text
  import opened Subsequences
  import opened Tmdb

  /** gui_app.py's genre table: all 19 movie genres. */
  const Genres: map<string, int> := map[
    "action" := 28, "adventure" := 12, "animation" := 16, "comedy" := 35,
    "crime" := 80, "documentary" := 99, "drama" := 18, "family" := 10751,
    "fantasy" := 14, "history" := 36, "horror" := 27, "music" := 10402,
    "mystery" := 9648, "romance" := 10749, "sci-fi" := 878, "tv movie" := 10770,
    "thriller" := 53, "war" := 10752, "western" := 37]

  lemma GenresKeys()
    ensures Genres.Keys == {"action", "adventure", "animation", "comedy", "crime", "documentary",
                            "drama", "family", "fantasy", "history", "horror", "music", "mystery",
                            "romance", "sci-fi", "tv movie", "thriller", "war", "western"}
  {
  }

  /** The table read backwards, id to name. */
  const NameById: map<int, string> := map[
    28 := "action", 12 := "adventure", 16 := "animation", 35 := "comedy",
    80 := "crime", 99 := "documentary", 18 := "drama", 10751 := "family",
    14 := "fantasy", 36 := "history", 27 := "horror", 10402 := "music",
    9648 := "mystery", 10749 := "romance", 878 := "sci-fi", 10770 := "tv movie",
    53 := "thriller", 10752 := "war", 37 := "western"]

  /** "action" to "crime" read back through `NameById`. */
  lemma NamesBackActionToCrime()
    ensures NamesBack(Genres, NameById, "action")
    ensures NamesBack(Genres, NameById, "adventure")
    ensures NamesBack(Genres, NameById, "animation")
    ensures NamesBack(Genres, NameById, "comedy")
    ensures NamesBack(Genres, NameById, "crime")
  {
    assert NamesBack(Genres, NameById, "action");
    assert NamesBack(Genres, NameById, "adventure");
    assert NamesBack(Genres, NameById, "animation");
    assert NamesBack(Genres, NameById, "comedy");
    assert NamesBack(Genres, NameById, "crime");
  }

  /** "documentary" to "history" read back through `NameById`. */
  lemma NamesBackDocumentaryToHistory()
    ensures NamesBack(Genres, NameById, "documentary")
    ensures NamesBack(Genres, NameById, "drama")
    ensures NamesBack(Genres, NameById, "family")
    ensures NamesBack(Genres, NameById, "fantasy")
    ensures NamesBack(Genres, NameById, "history")
  {
    assert NamesBack(Genres, NameById, "documentary");
    assert NamesBack(Genres, NameById, "drama");
    assert NamesBack(Genres, NameById, "family");
    assert NamesBack(Genres, NameById, "fantasy");
    assert NamesBack(Genres, NameById, "history");
  }

  /** "horror" to "sci-fi" read back through `NameById`. */
  lemma NamesBackHorrorToSciFi()
    ensures NamesBack(Genres, NameById, "horror")
    ensures NamesBack(Genres, NameById, "music")
    ensures NamesBack(Genres, NameById, "mystery")
    ensures NamesBack(Genres, NameById, "romance")
    ensures NamesBack(Genres, NameById, "sci-fi")
  {
    assert NamesBack(Genres, NameById, "horror");
    assert NamesBack(Genres, NameById, "music");
    assert NamesBack(Genres, NameById, "mystery");
    assert NamesBack(Genres, NameById, "romance");
    assert NamesBack(Genres, NameById, "sci-fi");
  }

  /** "tv movie" to "western" read back through `NameById`. */
  lemma NamesBackTvMovieToWestern()
    ensures NamesBack(Genres, NameById, "tv movie")
    ensures NamesBack(Genres, NameById, "thriller")
    ensures NamesBack(Genres, NameById, "war")
    ensures NamesBack(Genres, NameById, "western")
  {
    assert NamesBack(Genres, NameById, "tv movie");
    assert NamesBack(Genres, NameById, "thriller");
    assert NamesBack(Genres, NameById, "war");
    assert NamesBack(Genres, NameById, "western");
  }

  /** The 19 ids are distinct: each id determines its name. */
  lemma GenresInjective()
    ensures Injective(Genres)
  {
    NamesBackActionToCrime();
    NamesBackDocumentaryToHistory();
    NamesBackHorrorToSciFi();
    NamesBackTvMovieToWestern();
    GenresKeys();
    InjectiveByInverse(Genres, NameById);
  }

  /** `GENRE_NAMES`: id to capitalized name. */
  function GenreNames(): (names: map<int, string>)
    ensures names.Keys == Genres.Values
  {
    GenresInjective();
    GenreNamesOf(Genres)
  }

  /** Looking up a table name's id and then that id's name gives back the
      capitalized table name. */
  lemma GenreNamesInvert(name: string)
    requires name in Genres
    ensures Genres[name] in GenreNames() && GenreNames()[Genres[name]] == Capitalize(name)
  {
  }

  /** The search handler's state: the listed records and the base movie's genres. */
  datatype View = View(currentResults: seq<Movie>, baseGenreIds: seq<int>)

  /** The list kept after a base-movie search: the candidates that are not
      sequels of the base, or every candidate when all of them are. */
  function WithoutSequelsOrAll(recs: seq<Movie>, baseTitle: string): (r: seq<Movie>)
    ensures IsSubseq(r, recs)
    ensures r == [] <==> recs == []
    ensures (exists i :: 0 <= i < |recs| && NotSequelOf(recs[i], baseTitle)) ==>
              (forall i :: 0 <= i < |r| ==> NotSequelOf(r[i], baseTitle))
              && (forall i :: 0 <= i < |recs| && NotSequelOf(recs[i], baseTitle) ==> recs[i] in r)
    ensures (forall i :: 0 <= i < |recs| ==> !NotSequelOf(recs[i], baseTitle)) ==> r == recs
  {
    var unique := WithoutSequels(recs, baseTitle);
    WithoutSequelsEmpty(recs, baseTitle);
    if unique == [] then
      SubseqReflexive(recs);
      recs
    else unique
  }

  /** `perform_search` as written. A base-movie search that finds nothing
      leaves the view as it was; a discovery search (empty base title)
      replaces the list but keeps the previous base movie's genres. */
  function PerformSearchAsWritten(view: View, favMovie: string, searchResults: seq<Movie>,
                                  recs: seq<Movie>, discovered: seq<Movie>): (r: View)
    ensures favMovie != "" && searchResults == [] ==> r == view
    ensures favMovie != "" && searchResults != [] ==>
              r.baseGenreIds == searchResults[0].genreIds && IsSubseq(r.currentResults, recs)
              && r.currentResults == WithoutSequelsOrAll(recs, searchResults[0].title)
    ensures favMovie == "" ==> r.currentResults == discovered && r.baseGenreIds == view.baseGenreIds
  {
    if favMovie != "" then
      if searchResults == [] then view
      else View(WithoutSequelsOrAll(recs, searchResults[0].title), searchResults[0].genreIds)
    else View(discovered, view.baseGenreIds)
  }

  /** `perform_search` with the discovery branch clearing the base genres,
      as Apps/anime_app.py does, so that no stale reason is shown. */
  function PerformSearch(view: View, favMovie: string, searchResults: seq<Movie>,
                         recs: seq<Movie>, discovered: seq<Movie>): (r: View)
    ensures favMovie != "" && searchResults == [] ==> r == view
    ensures favMovie != "" && searchResults != [] ==>
              r.baseGenreIds == searchResults[0].genreIds && IsSubseq(r.currentResults, recs)
              && r.currentResults == WithoutSequelsOrAll(recs, searchResults[0].title)
              && (r.currentResults == [] <==> recs == [])
    ensures favMovie == "" ==> r == View(discovered, [])
  {
    if favMovie != "" then
      if searchResults == [] then view
      else View(WithoutSequelsOrAll(recs, searchResults[0].title), searchResults[0].genreIds)
    else View(discovered, [])
  }

  /** The two handlers differ only in the base genres after a discovery search. */
  lemma PerformSearchAgrees(view: View, favMovie: string, searchResults: seq<Movie>,
                            recs: seq<Movie>, discovered: seq<Movie>)
    ensures PerformSearch(view, favMovie, searchResults, recs, discovered).currentResults
         == PerformSearchAsWritten(view, favMovie, searchResults, recs, discovered).currentResults
    ensures favMovie != "" ==>
              PerformSearch(view, favMovie, searchResults, recs, discovered)
              == PerformSearchAsWritten(view, favMovie, searchResults, recs, discovered)
  {
  }

  /** One list line: `f" {m['title']} ({m.get('release_date', '????')[:4]})"`. */
  function DisplayLine(m: Movie): (r: string)
    ensures |r| == |m.title| + 4 + |YearLabel(m)|
    ensures r[0] == ' '
    ensures r[1..1 + |m.title|] == m.title
    ensures r[1 + |m.title|..1 + |m.title| + 2] == " ("
    ensures r[1 + |m.title| + 2..|r| - 1] == YearLabel(m)
    ensures r[|r| - 1] == ')'
  {
    " " + m.title + " (" + YearLabel(m) + ")"
  }

  /** The list shows the first 15 results, one line each, in order. */
  function ResultLines(results: seq<Movie>): (r: seq<string>)
    ensures |r| == if |results| < 15 then |results| else 15
    ensures forall i :: 0 <= i < |r| ==> r[i] == DisplayLine(results[i])
  {
    var shown := Take(results, 15);
    seq(|shown|, i requires 0 <= i < |shown| => DisplayLine(shown[i]))
  }

  /** The autocomplete: no query below three characters (`None`), otherwise
      the titles of at most the first five search results. */
  function Suggestions(text: string, searchResults: seq<Movie>): (r: Option<seq<string>>)
    ensures r.None? <==> |text| < 3
    ensures r.Some? ==> |r.value| == if |searchResults| < 5 then |searchResults| else 5
    ensures r.Some? ==> forall i :: 0 <= i < |r.value| ==> r.value[i] == searchResults[i].title
  {
    if |text| < 3 then None
    else
      var top := Take(searchResults, 5);
      Some(seq(|top|, i requires 0 <= i < |top| => top[i].title))
  }

  /** The details view's reason text: the names of the selected movie's
      genres shared with the base movie, or `""` when none is shared; a
      shared id outside the table raises `KeyError`. */
  function ReasonText(movie: Movie, baseGenreIds: seq<int>): (r: Result<string, int>)
    ensures r.Success? <==> MatchedGenres(GenreNames(), movie.genreIds, baseGenreIds).Success?
    ensures r.Success? ==>
              (r.value == "" <==> forall i :: 0 <= i < |movie.genreIds| ==> movie.genreIds[i] !in baseGenreIds)
    ensures r.Success? ==> var matched := MatchedGenres(GenreNames(), movie.genreIds, baseGenreIds).value;
              forall i :: 0 <= i < |matched| ==> Contains(r.value, matched[i])
    ensures r.Failure? ==>
              r.error in movie.genreIds && r.error in baseGenreIds && r.error !in GenreNames()
  {
    match MatchedGenres(GenreNames(), movie.genreIds, baseGenreIds)
    case Failure(g) => Failure(g)
    case Success(matched) =>
      MatchedGenresEmpty(GenreNames(), movie.genreIds, baseGenreIds);
      if matched == [] then Success("")
      else
        var prefix := "\U{1F4A1} REASON: Shared Genres (";
        var line := prefix + Join(matched, ", ") + ")\n\n";
        JoinContainsParts(matched, ", ");
        assert forall i :: 0 <= i < |matched| ==> Contains(line, matched[i]) by {
          forall i | 0 <= i < |matched| ensures Contains(line, matched[i]) {
            ContainsInside(prefix, Join(matched, ", "), ")\n\n", matched[i]);
          }
        }
        Success(line)
  }

  /** With the base genres cleared, no selected movie shows a reason. */
  lemma NoBaseNoReason(movie: Movie)
    ensures ReasonText(movie, []) == Success("")
  {
    assert SharedGenreIds(movie.genreIds, []) == [] by {
      FilterEmpty(movie.genreIds, g => g in []);
    }
  }

  /** The stale-genre behaviour of the written handler: after a search for
      a base movie in genre 878, a discovery search lists a movie of genre
      878 and selecting it claims a shared genre with a base no longer shown. */
  lemma StaleReasonAfterDiscovery(view: View, base: Movie, found: Movie)
    requires base.genreIds == [878] && found.genreIds == [878]
    ensures var v1 := PerformSearchAsWritten(view, "Dune", [base], [], []);
            var v2 := PerformSearchAsWritten(v1, "", [], [], [found]);
            ReasonText(found, v2.baseGenreIds).Success? && ReasonText(found, v2.baseGenreIds).value != ""
  {
    var shared := SharedGenreIds([878], [878]);
    assert shared == [878] by {
      assert 878 in shared;
      SubseqElements(shared, [878]);
    }
    assert Genres["sci-fi"] == 878;
    assert 878 in GenreNames();
  }

  /** The corrected handler: after a discovery search no reason is shown. */
  lemma NoReasonAfterDiscovery(view: View, discovered: seq<Movie>, i: nat)
    requires i < |discovered|
    ensures var v := PerformSearch(view, "", [], [], discovered);
            ReasonText(v.currentResults[i], v.baseGenreIds) == Success("")
    ensures i < 15 ==>
              OnSelectMovie(PerformSearch(view, "", [], [], discovered), i)
              == Success(Details(Upper(discovered[i].title), ""))
  {
    NoBaseNoReason(discovered[i]);
  }

  /** What selecting list entry `index` shows: the upper-cased title and the
      reason text. */
  datatype Details = Details(heading: string, reason: string)

  /** `on_select_movie`: the listbox only offers the lines shown, so the
      index is within the first 15 results. */
  function OnSelectMovie(view: View, index: nat): (r: Result<Details, int>)
    requires index < |ResultLines(view.currentResults)|
    ensures r.Success? <==> ReasonText(view.currentResults[index], view.baseGenreIds).Success?
    ensures r.Success? ==>
              r.value == Details(Upper(view.currentResults[index].title),
                                 ReasonText(view.currentResults[index], view.baseGenreIds).value)
    ensures r.Failure? ==> r == Failure(ReasonText(view.currentResults[index], view.baseGenreIds).error)
  {
    var movie := view.currentResults[index];
    match ReasonText(movie, view.baseGenreIds)
    case Failure(g) => Failure(g)
    case Success(reason) => Success(Details(Upper(movie.title), reason))
  }
}
