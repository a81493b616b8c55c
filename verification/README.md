# Discovery engine suite: recommendation selection model

This project is a Dafny model of the recommendation selection pipeline in the
movie and anime discovery applications. It covers three programs:

- the command-line movie engine `app.py`;
- the desktop movie browser `Apps/gui_app.py`;
- the desktop anime browser `Apps/anime_app.py`.

All three take records from a metadata service and reshape them into what the
user sees. The model keeps the list and string logic and turns every service
response into a parameter:

- **Cache** (`cache.dfy`). This is `get_recommendations_with_cache`. The JSON
  file is a value, `Missing` or `Present(map)`, keyed by `str(movie_id)`. The
  response of the recommendation endpoint is a parameter. Each call reports
  whether it fetched.
- **Discovery** (`discovery.dfy`). This is the core of app.py's `main`:
  - sequel removal;
  - the three-tier fallback (year and genre, then genre only, then all);
  - the list or random-pick reduction and the session list;
  - menu choice validation;
  - the genre table and the "reason" line.
- **MovieGui** (`movie_gui.dfy`). This covers `perform_search` of the movie
  GUI, which falls back to the raw list when every candidate is a sequel. It
  also covers the 15-line result list, the autocomplete, the 19-genre table and
  the reason text.
- **AnimeGui** (`anime_gui.dfy`). This covers the GraphQL variables and
  `perform_search` of the anime GUI. That search keys on the English-or-romaji
  title and has no fallback. It also covers the display-name rule, the full
  title, the description cleanup and the reason text.
- Shared pieces:
  - `Tmdb` (`tmdb.dfy`): the movie record, the year label, the sequel filter
    and the genre-name lookups.
  - `Subsequences` (`subsequences.dfy`): order-preserving subsequences and the
    list-comprehension `Filter`. `Filter` is proved to be the greatest
    subsequence that satisfies its predicate.
  - `Text` (`text.dfy`): ASCII case mapping, substring search (proved equal to
    positional occurrence), `str.replace` and `join`.
  - `Decimal` (`decimal.dfy`): `str(int)` and `int(digits)`, with a round trip
    that makes cache keys injective.
  - `Wrappers` (`wrappers.dfy`): `Option` and `Result`.

Python's `None` and missing keys become `Option`. Exceptions the programs let
escape become `Result.Failure`. Python truthiness of an optional string is
`Text.Truthy` (present and non-empty).

Points where the code behaves in a way a reader might not expect, all modelled
as written:

- The keyword id found for a non-genre theme is never used by the tier filters
  in `app.py`. Only `target_genre_id` filters candidates.
- The year filter is a substring test against the full `release_date` string.
  For example, `"05"` matches `"2014-11-05"`. It is not a test against the
  release year.
- `app.py` proceeds with an empty list when every candidate is a sequel.
  `Apps/gui_app.py` instead falls back to the raw list.
- A malformed cache file makes `json.load` raise. Nothing treats it as an
  empty cache, so that path is not modelled.
- In random mode, `random.choice` runs before the emptiness check and raises
  on an empty list. The model records the crash as a finding below.

## Model

| member | source | states |
|---|---|---|
| Cache.GetRecommendationsWithCache | app.py:27-42 | On a hit, the stored list is returned with no fetch and the file is untouched. On a miss, the fetched list is returned and stored under `str(movie_id)`, exactly one key is added, and every other entry is kept. |
| Cache.WarmIdempotence | app.py:28-42 | After any first call, a second call with the same id is a hit. It returns the same list and does not fetch, whatever the endpoint would return. |
| Cache.OtherMoviesUnaffected | app.py:32-39 | Caching one movie leaves the lookup of any other movie id unchanged, in both the list returned and whether it fetches. |
| Cache.ColdThenWarm | app.py:28-42 | With no cache file, looking up 438631 fetches and writes `{"438631": recs}`. The second lookup returns `recs` without fetching. |
| Decimal.IntToStringRoundTrip | app.py:32 | `str(n)` parses back to `n`. |
| Decimal.IntToStringInjective | app.py:32 | Distinct ids give distinct cache keys. |
| Decimal.NatToString | app.py:32 | `str(n)` of a natural is a non-empty string of digits with no leading zero. |
| Text.ContainsIffOccurs | app.py:90 | Python's `needle in s` holds iff `needle` occurs at some position of `s`. |
| Text.ReplaceAbsent | Apps/anime_app.py:201 | `str.replace` of a pattern that does not occur leaves the text unchanged. |
| Text.ReplaceAll | Apps/anime_app.py:201 | `str.replace` with a replacement as long as the pattern keeps the length. If the pattern occurs in the text, the replacement occurs in the result. |
| Text.ReplaceLeftmost | Apps/anime_app.py:201 | The leftmost occurrence is replaced first. If the pattern does not start inside `a` (or the part of the occurrence that follows it), then replacing in `a + pattern + b` gives `a`, the replacement, then `b` with its own occurrences replaced. |
| Text.ReplaceMatchAfterPlain | Apps/anime_app.py:201 | After text that holds no copy of the pattern's first character, the next occurrence of the pattern is replaced and scanning continues after it. |
| Text.JoinContainsParts | app.py:169 | Every part occurs in `separator.join(parts)`. |
| Subsequences.Filter | app.py:90 | A list comprehension returns an in-order subsequence. Every element kept satisfies the condition, and every element that satisfies it is kept. |
| Subsequences.FilterIsGreatest | app.py:90 | Any subsequence whose elements all satisfy the condition is a subsequence of the comprehension's result. |
| Subsequences.SubseqTransitive | app.py:94-99 | A subsequence of a subsequence is a subsequence. |
| Tmdb.YearLabel | Apps/gui_app.py:171 | The year label is a prefix of the release date. Its length is 4, or the date's length when the date is shorter. It is `"????"` when the key is absent. |
| Tmdb.WithoutSequels | app.py:84-90 | `unique_recs` is an in-order subsequence of the recommendations. No kept title, lower-cased, contains the lower-cased base title, and every candidate that passes this test is kept. |
| Tmdb.WithoutSequelsIsGreatest | app.py:90 | Every subsequence free of sequels is a subsequence of `unique_recs`. |
| Tmdb.WithoutSequelsEmpty | Apps/gui_app.py:162-163 | The sequel filter leaves nothing exactly when every candidate is a sequel. |
| Tmdb.GenreNamesOf | app.py:24 | `GENRE_NAMES` is keyed by exactly the table's ids and maps each id to its capitalized name. |
| Tmdb.GenreId | Apps/gui_app.py:151-152 | The theme is lower-cased and looked up exactly. There is an id iff the lower-cased theme is a table key. |
| Tmdb.GenreIdIgnoresCase | Apps/gui_app.py:151-152 | Lower-casing the theme first does not change the lookup. |
| Tmdb.SharedGenreIds | Apps/gui_app.py:198 | The shared ids are the movie's genre ids that the base also has, in the movie's order. |
| Tmdb.NamesOf | app.py:162 | Mapping ids through the name table succeeds iff every id is in the table. It then keeps length and order. Otherwise it fails with the first missing id, as `KeyError` does. |
| Tmdb.MatchedGenres | Apps/gui_app.py:198 | The comprehension succeeds iff every genre id shared with the base is in the name table. A failure carries a shared id missing from the table, as `KeyError` does. On success, entry `i` is the table's name for the `i`-th shared id, in the movie's order. |
| Tmdb.MatchedGenresEmpty | Apps/gui_app.py:198-199 | The matched names are empty exactly when the movie shares no genre with the base. |
| Discovery.GenresInjective | app.py:17-21 | The 11 ids of the CLI genre table are distinct. |
| Discovery.GenreNames | app.py:24 | The CLI's `GENRE_NAMES` has exactly the ids of `GENRES` as keys. |
| Discovery.ReadFilters | app.py:54-62 | The year filter is the year input. The genre id is present iff the lower-cased theme is a key of the 11-name table, and it is then the id that key maps to. |
| Discovery.Tier1 | app.py:94-96 | Tier 1 is the in-order subsequence of candidates that match both the year filter (a non-empty release date containing it) and the genre filter. It keeps every such candidate. |
| Discovery.Tier2 | app.py:99 | Tier 2 is the in-order subsequence of candidates that match the genre filter. It keeps every such candidate. |
| Discovery.TiersNested | app.py:94-99 | Tier 1 is a subsequence of tier 2, and tier 2 is a subsequence of `unique_recs`. |
| Discovery.NoYearTiersEqual | app.py:94-99 | Without a year filter, the two tiers are equal. |
| Discovery.NoFiltersTier1All | app.py:94-96 | Without any filter, tier 1 is all of `unique_recs`. |
| Discovery.Select | app.py:101-109 | The tier is exact iff tier 1 is non-empty. It is genre-only iff tier 1 is empty, tier 2 is not, and a filter was given. The list is the chosen tier's list. |
| Discovery.SelectIsSubseq | app.py:90-109 | The shown list is an in-order subsequence of `unique_recs`. It is empty iff `unique_recs` is empty. |
| Discovery.NoFiltersIsExact | app.py:94-102 | With no filters and some candidate left, the tier is exact and the list is all of `unique_recs`. |
| Discovery.GenreOnlyNeedsYear | app.py:101-105 | The genre-only branch is taken only when a year filter was given. |
| Discovery.UnfilteredMeansNoGenreMatch | app.py:101-109 | A non-empty unfiltered result means a filter was given and no candidate matches the genre. |
| Discovery.FindCandidates | app.py:76-115 | Discovery mode shows the discover results. A base title with no search hit shows nothing. Otherwise the base genres are kept, and the list and its tier are exactly the tier selection over the cached-or-fetched recommendations minus sequels of the first hit. So the list is a subsequence of those recommendations and holds no sequel. |
| Discovery.ReduceAsWritten | app.py:118-123 | As written, random mode raises iff the list is empty and otherwise yields the picked element. List mode yields the first five. |
| Discovery.RandomPickOfSequelsOnlyRaises | app.py:87-129 | For base "Dune" whose only recommendation is its sequel, the list is empty and random mode raises before "No matches found". |
| Discovery.Reduce | app.py:118-129 | Corrected: the result is an in-order subsequence and is empty iff the input is. Random mode gives one member of the list. List mode gives a prefix of at most 5. |
| Discovery.ReduceAgrees | app.py:118-123 | Whenever the written reduction does not raise, it equals the corrected one. |
| Discovery.SessionMovies | app.py:134 | `session_movies` is a non-empty prefix of the shown list. |
| Discovery.SessionIsReduced | app.py:118-134 | The session list is exactly the reduced list. |
| Discovery.MenuChoice | app.py:144-150 | An empty answer quits. An answer is accepted iff it is all digits and `1 <= n <= len(session_movies)`, and it then selects index `n - 1`. |
| Discovery.ListedNumbersOpen | app.py:136-149 | Typing the number printed beside an entry selects that entry. |
| Discovery.MatchedGenresAsWritten | app.py:162 | As written, this raises iff a genre shared with the base is missing from the 11-name table. The id it raises on is shared and missing. |
| Discovery.KnownSharedIds | app.py:162 | The ids the corrected comprehension names: an in-order subsequence of the movie's genres, each shared with the base and known to the table, and every such genre is included. |
| Discovery.SharedAdventureRaises | app.py:162 | Two movies that share genre 12 (Adventure) make the details view raise `KeyError(12)`. |
| Discovery.MatchedGenreNames | app.py:162 | Corrected: entry `i` is the table's name for the `i`-th shared genre the table knows, in the movie's order. It never raises. |
| Discovery.MatchedGenreNamesAgrees | app.py:162 | Whenever the written comprehension does not raise, the corrected one returns the same names. |
| Discovery.MatchedGenreNamesEmpty | app.py:162-169 | The corrected names are empty iff no shared genre is in the table. |
| Discovery.ReasonLine | app.py:167-171 | With a base movie, there is a reason iff some genre matched, and the reason names every matched genre. Without a base movie, the reason always names the theme. |
| Discovery.DuneScenarioDedup | app.py:90 | Base "Dune" with candidates "Dune Part Two", "Arrival" and "Interstellar" keeps `[Arrival, Interstellar]`. |
| Discovery.DuneScenarioTiers | app.py:94-109 | With genre 878, both candidates are exact matches. With year "1999" added, the genre-only tier gives the same list. |
| MovieGui.GenresInjective | Apps/gui_app.py:18-24 | The 19 ids of the GUI genre table are distinct. |
| MovieGui.GenreNames | Apps/gui_app.py:25 | The GUI's `GENRE_NAMES` has exactly the ids of `GENRES` as keys. |
| MovieGui.GenreNamesInvert | Apps/gui_app.py:18-25 | `GENRE_NAMES[GENRES[k]] == k.capitalize()` for every key `k`. |
| MovieGui.WithoutSequelsOrAll | Apps/gui_app.py:162-163 | The result is an in-order subsequence of `recs` and is empty iff `recs` is empty. If any non-sequel exists, the result is exactly the non-sequels. If all are sequels, it is `recs` itself. |
| MovieGui.PerformSearchAsWritten | Apps/gui_app.py:148-167 | A base search with no hit leaves the view unchanged. A base search stores the base genres and lists exactly the recommendations that are not sequels of the first hit, or all of them when every one is a sequel. A discovery search lists the discover results but keeps the old base genres. |
| MovieGui.StaleReasonAfterDiscovery | Apps/gui_app.py:164-167 | A base search for a genre-878 movie followed by a discovery search makes a listed genre-878 movie show a non-empty "Shared Genres" reason. |
| MovieGui.PerformSearch | Apps/gui_app.py:148-167 | Corrected: the same as the written handler, except that a discovery search clears the base genres. After a base search, the list is empty iff `recs` is. |
| MovieGui.PerformSearchAgrees | Apps/gui_app.py:155-167 | The written and corrected handlers give the same list always, and the same view after any base search. |
| MovieGui.NoReasonAfterDiscovery | Apps/gui_app.py:164-167 | Corrected: after a discovery search, selecting any entry shows no reason, only the upper-cased title. |
| MovieGui.DisplayLine | Apps/gui_app.py:171 | A list line is a space, the title, ` (`, the year label and `)`, in that order. |
| MovieGui.ResultLines | Apps/gui_app.py:169-171 | At most 15 lines are shown, one per result in order, each the result's display line. |
| MovieGui.Suggestions | Apps/gui_app.py:120-134 | Below 3 characters there is no query. Otherwise there are `min(5, n)` suggestions for `n` results, the titles of the first results in order. |
| MovieGui.ReasonText | Apps/gui_app.py:197-199 | The reason raises iff a shared genre is missing from the table, and the error is that shared id. Otherwise it is empty iff no genre is shared, and it names every matched genre. |
| MovieGui.NoBaseNoReason | Apps/gui_app.py:198-199 | With no base genres, the reason is empty. |
| MovieGui.OnSelectMovie | Apps/gui_app.py:176-203 | Selecting an entry succeeds iff its reason does. It then shows exactly the upper-cased title and that reason. Otherwise it fails with the reason's `KeyError`. |
| AnimeGui.DisplayName | Apps/anime_app.py:176 | The name is the English title if truthy, else the romaji title. It is absent iff English is falsy and romaji is null. |
| AnimeGui.ListAndSavedNamesAgree | Apps/anime_app.py:218-220 | The result list (line 176) and the watch-list file name a record the same way. |
| AnimeGui.SearchVariables | Apps/anime_app.py:154-158 | `search` and `genre` are absent iff their box is empty. `search` is the typed name and `genre` the capitalized genre box. `year` is present iff the box is all digits, and it is then that number. |
| AnimeGui.YearRoundTrip | Apps/anime_app.py:158 | A year typed as `str(n)` reaches the query as `n`. |
| AnimeGui.PresentRecommendations | Apps/anime_app.py:168 | `raw_recs` keeps the non-null recommendations in their order, and every non-null one is kept. |
| AnimeGui.BaseKey | Apps/anime_app.py:169 | `base_t` is the lower-cased display name. It is absent, so Python raises, iff there is no display name. |
| AnimeGui.WithoutSameSeries | Apps/anime_app.py:170 | The kept records are an in-order subsequence. None has a lower-cased English title (or `""`) containing `base_t`, and every record that passes is kept. |
| AnimeGui.NoEnglishTitleKept | Apps/anime_app.py:170 | A record with no English title is kept whenever `base_t` is non-empty. |
| AnimeGui.EmptyBaseKeyRemovesAll | Apps/anime_app.py:169-170 | An empty `base_t` removes every recommendation. |
| AnimeGui.PerformSearch | Apps/anime_app.py:153-179 | No data leaves the view unchanged with a warning. Without a base name or recommendation nodes, the list is the data and the base genres are cleared. Otherwise the base genres are stored and the list is exactly the present recommendations minus the same series as the base. A record with no title fails after storing the genres. |
| AnimeGui.SameSeriesOnlyListsNothing | Apps/anime_app.py:165-170 | There is no fallback: a base whose only recommendation shares its English title lists nothing. |
| AnimeGui.ResultLines | Apps/anime_app.py:174-177 | One line per result, in order, with no cap. |
| AnimeGui.Suggestions | Apps/anime_app.py:130-143 | Below 3 characters there is no query. Otherwise each suggestion is the display name of the corresponding result. |
| AnimeGui.MatchedGenres | Apps/anime_app.py:196 | The matched genres are the record's genres that are also base genres, in the record's order, and all such genres are kept. |
| AnimeGui.ReasonText | Apps/anime_app.py:196-197 | The reason is empty iff no genre is shared. It names every matched genre. |
| AnimeGui.FullTitle | Apps/anime_app.py:199-200 | If both titles are present and differ ignoring case, the result is `eng + "\n(" + rom + ")"`. Otherwise it is the display name. |
| AnimeGui.SameTitleIgnoringCaseShownOnce | Apps/anime_app.py:200 | Titles that differ only in case are shown once, as the English title. |
| AnimeGui.CleanDescription | Apps/anime_app.py:201 | The cleaned description is never longer than the original. |
| AnimeGui.CleanDescriptionLineBreak | Apps/anime_app.py:201 | After tag-free text, `<br>` becomes a newline and the rest is cleaned in turn. |
| AnimeGui.CleanDescriptionItalicOpen | Apps/anime_app.py:201 | After tag-free text, `<i>` is dropped and the rest is cleaned in turn. |
| AnimeGui.CleanDescriptionItalicClose | Apps/anime_app.py:201 | After tag-free text, `</i>` is dropped and the rest is cleaned in turn. |
| AnimeGui.CleanDescriptionWithoutTags | Apps/anime_app.py:201 | A description with no `<br>`, `<i>` or `</i>` is unchanged. |
| AnimeGui.OnSelectAnime | Apps/anime_app.py:181-206 | Selecting fails on a null description first, then on a record with no title. Otherwise it shows the upper-cased full title, the reason text and the cleaned description. |

## Findings

| source | as written | input that shows it | evidently intended | confidence | as-written member | corrected member |
|---|---|---|---|---|---|---|
| app.py:118-129 | `random.choice(movies_to_show)` runs before the `if not movies_to_show` check, so random mode raises `IndexError` on an empty list | mode `2`, base "Dune" whose only recommendation is "Dune: Part Two" | print "No matches found" as list mode does | high; not executed | Discovery.ReduceAsWritten, Discovery.RandomPickOfSequelsOnlyRaises | Discovery.Reduce, Discovery.ReduceAgrees |
| app.py:162 | `GENRE_NAMES[g_id]` indexes an 11-genre table, so a shared genre outside it raises `KeyError` | selected movie with genres `[12, 878]`, base genres `[878, 12]` | name the shared genres the table knows | high; not executed | Discovery.MatchedGenresAsWritten, Discovery.SharedAdventureRaises | Discovery.MatchedGenreNames, Discovery.MatchedGenreNamesAgrees |
| Apps/gui_app.py:164-167 | the discovery branch keeps `base_genre_ids` from the previous base search | search a genre-878 base movie, then search with an empty base title and select a genre-878 result | clear the base genres, as Apps/anime_app.py:173 does | medium; not executed | MovieGui.PerformSearchAsWritten, MovieGui.StaleReasonAfterDiscovery | MovieGui.PerformSearch, MovieGui.NoReasonAfterDiscovery |

## Left out

- HTTP and GraphQL calls: search, recommendations, discover, keyword, person, credits and videos. Their results are parameters: `searchResults`, `fetched`, `discovered` and `data`.
- Reading and writing `tmdb_pantry.json` as JSON: the file is a `CacheFile` value. A malformed file, where `json.load` raises, is not modelled.
- Tk widgets, menus, scrollbars, poster and cover image fetching and decoding, `webbrowser`, the `hupper` reloader and `dotenv` configuration.
- The `input()` and `print` loops of `app.py`, the ANSI table layout (`title[:38]` padding), and all of `explorer.py` and `Apps/anilist_explorer.py`, which only format API responses.
- Watch-list appends are file I/O. Only the anime name rule of the saved line is modelled.
- Ratings (`vote_average`, `averageScore`) are floats and are not modelled. The overview text and `textwrap` are not modelled either.
- Actor and keyword id scouting (app.py:61-73) is network lookups. Their ids only reach the discover endpoint.
- `random.choice`'s distribution: the pick is a caller-supplied index into a non-empty list.
- Unicode case mapping and digits: `lower`, `upper`, `capitalize` and `isdigit` are ASCII only.
- Records without a `title` key are not modelled: every record here carries one. The `except` of the movie GUI's `perform_search` (Apps/gui_app.py:154-173) would report the `KeyError`. Nothing catches it in app.py's `main` or in `on_select_movie`.
- Tmdb.YearLabel: a `release_date` that is JSON `null` is labelled `"????"` like an absent key. In Python, `None[:4]` raises `TypeError` at Apps/gui_app.py:171 and app.py:138 and 165, and the model has no such error.
- The anime description default `''` for an absent key is not modelled, because the query always requests the field. Only a `null` description is modelled.
- AnimeGui.PresentRecommendations: states the order and membership of the non-null records, not how many times each repeats.
- AnimeGui.Suggestions: does not bound the list at five, because the cap is the query's `perPage: 5`, which is made on the server.
