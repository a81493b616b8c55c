/** The desktop anime browser of Apps/anime_app.py: the GraphQL variables
    built from the filter boxes, the search handler that fills the result
    list from the first result's recommendations, the display-name rule, and
    the details view (full title, description cleanup, reason). Widgets and
    the GraphQL transport are left out; the handler state is the pair of
    fields `current_results` and `base_genres`. */
module AnimeGui {
  import opened Wrappers
  import opened Text
  import opened Decimal
  import opened Subsequences

  /** `title { romaji english }`; either may be `null`. */
  datatype Title = Title(english: Option<string>, romaji: Option<string>)

  /** One media record. `recommendations` holds the `mediaRecommendation`
      of each recommendation node, `None` for a `null` one; the records nested
      there carry no recommendations of their own. `description` is `None`
      for a `null` description. Score and cover image are left out. */
  datatype Media = Media(id: int, title: Title, genres: seq<string>, description: Option<string>,
                         recommendations: seq<Option<Media>>)

  /** `title['english'] if title['english'] else title['romaji']`, which is
      also what `title['english'] or title['romaji']` evaluates to. */
  function DisplayName(t: Title): (r: Option<string>)
    ensures r == t.english || r == t.romaji
    ensures Truthy(t.english) ==> r == t.english
    ensures !Truthy(t.english) && t.romaji.Some? ==> r.Some? && r.value == t.romaji.value
    ensures r.None? <==> !Truthy(t.english) && t.romaji.None?
  {
    if Truthy(t.english) then t.english else t.romaji
  }

  /** How an f-string renders an optional string: `None` prints as "None". */
  function Render(s: Option<string>): string
  {
    match s
    case Some(v) => v
    case None => "None"
  }

  /** The result list line, `f" {display_name}"`. */
  function ListLine(m: Media): string
  {
    " " + Render(DisplayName(m.title))
  }

  /** The watch-list line, `f"{name}\n"`. */
  function SavedLine(m: Media): string
  {
    Render(DisplayName(m.title)) + "\n"
  }

  /** The list and the watch list name a record the same way. */
  lemma ListAndSavedNamesAgree(m: Media)
    ensures ListLine(m)[1..] + "\n" == SavedLine(m)
  {
  }

  /** The GraphQL variables of the search query. */
  datatype Variables = Variables(search: Option<string>, genre: Option<string>, year: Option<int>)

  /** `search` and `genre` are absent for an empty box, the genre is
      capitalized, and `year` is `int(year_val)` only for a box of digits. */
  function SearchVariables(animeName: string, yearVal: string, genreVal: string): (v: Variables)
    ensures v.search.Some? <==> animeName != ""
    ensures v.search.Some? ==> v.search.value == animeName
    ensures v.genre.Some? <==> genreVal != ""
    ensures v.genre.Some? ==> v.genre.value == Capitalize(genreVal)
    ensures v.genre.Some? ==> |v.genre.value| == |genreVal| && v.genre.value == Capitalize(v.genre.value)
    ensures v.year.Some? <==> IsDigits(yearVal)
    ensures v.year.Some? ==> 0 <= v.year.value && v.year.value == ParseDigits(yearVal)
  {
    var genre := Capitalize(genreVal);
    CapitalizeIdempotent(genreVal);
    Variables(if animeName != "" then Some(animeName) else None,
              if genre != "" then Some(genre) else None,
              if yearVal != "" && IsDigits(yearVal) then Some(ParseDigits(yearVal) as int) else None)
  }

  /** A year typed as `str(n)` reaches the query as `n`. */
  lemma YearRoundTrip(n: nat, animeName: string, genreVal: string)
    ensures SearchVariables(animeName, NatToString(n), genreVal).year == Some(n)
  {
    ParseNatToString(n);
  }

  /** `[Some(x) for x in xs]`. */
  function Wrapped<T>(xs: seq<T>): (r: seq<Option<T>>)
    ensures |r| == |xs|
    ensures forall i :: 0 <= i < |xs| ==> r[i] == Some(xs[i])
  {
    seq(|xs|, i requires 0 <= i < |xs| => Some(xs[i]))
  }

  /** `[node['mediaRecommendation'] for node in nodes if node['mediaRecommendation']]`. */
  function PresentRecommendations(nodes: seq<Option<Media>>): (r: seq<Media>)
    ensures IsSubseq(Wrapped(r), nodes)
    ensures forall i :: 0 <= i < |nodes| && nodes[i].Some? ==> nodes[i].value in r
    decreases |nodes|
  {
    if |nodes| == 0 then []
    else
      var rest := PresentRecommendations(nodes[1..]);
      if nodes[0].Some? then
        assert Wrapped([nodes[0].value] + rest)[1..] == Wrapped(rest);
        [nodes[0].value] + rest
      else rest
  }

  /** The base key `(english or romaji).lower()`; `None` when both are
      missing, where Python's `.lower()` raises. */
  function BaseKey(t: Title): (r: Option<string>)
    ensures r.Some? <==> DisplayName(t).Some?
    ensures r.Some? ==> r.value == Lower(DisplayName(t).value)
  {
    match DisplayName(t)
    case Some(name) => Some(Lower(name))
    case None => None
  }

  /** `(r['title']['english'] or "")`. */
  function EnglishOrEmpty(t: Title): string
  {
    if Truthy(t.english) then t.english.value else ""
  }

  /** The same-series test: the base key does not occur in the lower-cased
      English title (romaji titles are not consulted). */
  predicate NotSameSeries(m: Media, baseKey: string)
  {
    !Contains(Lower(EnglishOrEmpty(m.title)), baseKey)
  }

  /** `[r for r in raw_recs if base_t not in (r['title']['english'] or "").lower()]`,
      with no fallback: the result may be empty. */
  function WithoutSameSeries(recs: seq<Media>, baseKey: string): (r: seq<Media>)
    ensures IsSubseq(r, recs)
    ensures forall i :: 0 <= i < |r| ==> !Contains(Lower(EnglishOrEmpty(r[i].title)), baseKey)
    ensures forall i :: 0 <= i < |recs| && NotSameSeries(recs[i], baseKey) ==> recs[i] in r
  {
    Filter(recs, m => NotSameSeries(m, baseKey))
  }

  /** A recommendation without an English title is kept whenever the base
      key is non-empty. */
  lemma NoEnglishTitleKept(m: Media, baseKey: string)
    requires !Truthy(m.title.english) && baseKey != ""
    ensures NotSameSeries(m, baseKey)
  {
    ContainsLonger("", baseKey);
  }

  /** An empty base key (both titles empty strings) removes every recommendation. */
  lemma EmptyBaseKeyRemovesAll(recs: seq<Media>)
    ensures WithoutSameSeries(recs, "") == []
  {
    var r := WithoutSameSeries(recs, "");
    if r != [] {
      ContainsEmpty(Lower(EnglishOrEmpty(r[0].title)));
    }
  }

  /** The handler's state: the listed records and the base record's genres. */
  datatype View = View(currentResults: seq<Media>, baseGenres: seq<string>)

  /** How a search ended: listed, the "No Results" warning, or the error
      dialog that the handler's `except` shows. */
  datatype Status = Listed | NoResults | Failed

  datatype SearchOutcome = SearchOutcome(view: View, status: Status)

  /** `perform_search`, where `data` is the `media` page the query returns.
      With a base name and recommendation nodes, the list is the first
      result's recommendations minus the same series; otherwise it is the
      search results themselves and the base genres are cleared. The base
      genres are assigned before the base key is computed, so a record with
      no title at all leaves them updated and the list unchanged. */
  function PerformSearch(view: View, animeName: string, data: seq<Media>): (r: SearchOutcome)
    ensures data == [] ==> r == SearchOutcome(view, NoResults)
    ensures data != [] && (animeName == "" || data[0].recommendations == []) ==>
              r == SearchOutcome(View(data, []), Listed)
    ensures data != [] && animeName != "" && data[0].recommendations != [] ==>
              r.view.baseGenres == data[0].genres
              && (r.status == Failed <==> BaseKey(data[0].title).None?)
              && (r.status == Failed ==> r.view.currentResults == view.currentResults)
              && (r.status == Listed ==>
                    forall i :: 0 <= i < |r.view.currentResults| ==>
                      Some(r.view.currentResults[i]) in data[0].recommendations
                      && NotSameSeries(r.view.currentResults[i], BaseKey(data[0].title).value))
    ensures data != [] && animeName != "" && data[0].recommendations != [] && r.status == Listed ==>
              r.view.currentResults
              == WithoutSameSeries(PresentRecommendations(data[0].recommendations), BaseKey(data[0].title).value)
  {
    if data == [] then SearchOutcome(view, NoResults)
    else if animeName != "" && data[0].recommendations != [] then
      var base := data[0];
      var raw := PresentRecommendations(base.recommendations);
      match BaseKey(base.title)
      case None => SearchOutcome(View(view.currentResults, base.genres), Failed)
      case Some(key) =>
        var kept := WithoutSameSeries(raw, key);
        SubseqElements(kept, raw);
        SubseqElements(Wrapped(raw), base.recommendations);
        assert forall i :: 0 <= i < |raw| ==> Some(raw[i]) in base.recommendations by {
          forall i | 0 <= i < |raw| ensures Some(raw[i]) in base.recommendations {
            assert Wrapped(raw)[i] == Some(raw[i]);
          }
        }
        SearchOutcome(View(kept, base.genres), Listed)
    else SearchOutcome(View(data, []), Listed)
  }

  /** Without a fallback the list can end up empty: a base whose only
      recommendation shares its English title lists nothing. */
  lemma SameSeriesOnlyListsNothing(view: View, base: Media, rec: Media)
    requires base.title == Title(Some("Naruto"), Some("NARUTO")) && rec.title.english == Some("Naruto Shippuden")
    requires base.recommendations == [Some(rec)]
    ensures var r := PerformSearch(view, "Naruto", [base]);
            r.status == Listed && r.view.currentResults == []
  {
    assert Lower("Naruto") == "naruto";
    assert Lower("Naruto Shippuden")[..6] == "naruto";
    assert !NotSameSeries(rec, "naruto");
    var raw := PresentRecommendations(base.recommendations);
    assert raw == [rec] by {
      assert base.recommendations[1..] == [];
    }
    var kept := WithoutSameSeries(raw, "naruto");
    if kept != [] {
      SubseqElements(kept, raw);
    }
  }

  /** The result list: one line per record, in order, with no cap. */
  function ResultLines(view: View): (r: seq<string>)
    ensures |r| == |view.currentResults|
    ensures forall i :: 0 <= i < |r| ==> r[i] == ListLine(view.currentResults[i])
  {
    seq(|view.currentResults|, i requires 0 <= i < |view.currentResults| => ListLine(view.currentResults[i]))
  }

  /** The autocomplete: no query below three characters (`None`), otherwise
      the display names of the records returned (the query asks for five). */
  function Suggestions(text: string, results: seq<Title>): (r: Option<seq<Option<string>>>)
    ensures r.None? <==> |text| < 3
    ensures r.Some? ==> |r.value| == |results|
    ensures r.Some? ==> forall i :: 0 <= i < |results| ==> r.value[i] == DisplayName(results[i])
  {
    if |text| < 3 then None
    else Some(seq(|results|, i requires 0 <= i < |results| => DisplayName(results[i])))
  }

  /** `[g for g in anime['genres'] if g in base_genres]`. */
  function MatchedGenres(m: Media, baseGenres: seq<string>): (r: seq<string>)
    ensures IsSubseq(r, m.genres)
    ensures forall i :: 0 <= i < |r| ==> r[i] in baseGenres
    ensures forall i :: 0 <= i < |m.genres| && m.genres[i] in baseGenres ==> m.genres[i] in r
  {
    Filter(m.genres, g => g in baseGenres)
  }

  /** The reason text: the shared genres, or `""` when none is shared. */
  function ReasonText(m: Media, baseGenres: seq<string>): (r: string)
    ensures r == "" <==> forall i :: 0 <= i < |m.genres| ==> m.genres[i] !in baseGenres
    ensures forall i :: 0 <= i < |MatchedGenres(m, baseGenres)| ==> Contains(r, MatchedGenres(m, baseGenres)[i])
  {
    var matched := MatchedGenres(m, baseGenres);
    FilterEmpty(m.genres, g => g in baseGenres);
    if matched == [] then ""
    else
      var prefix := "\U{1F4A1} REASON: Both are ";
      var line := prefix + Join(matched, ", ") + "\n\n";
      JoinContainsParts(matched, ", ");
      assert forall i :: 0 <= i < |matched| ==> Contains(line, matched[i]) by {
        forall i | 0 <= i < |matched| ensures Contains(line, matched[i]) {
          ContainsInside(prefix, Join(matched, ", "), "\n\n", matched[i]);
        }
      }
      line
  }

  /** The details heading before upper-casing: English and romaji on two
      lines when both are present and differ ignoring case, otherwise the
      display name. */
  function FullTitle(t: Title): (r: Option<string>)
    ensures Truthy(t.english) && Truthy(t.romaji) && Lower(t.english.value) != Lower(t.romaji.value) ==>
              r.Some? && |r.value| == |t.english.value| + |t.romaji.value| + 3
              && r.value[..|t.english.value|] == t.english.value
              && r.value[|t.english.value|..] == "\n(" + t.romaji.value + ")"
    ensures !(Truthy(t.english) && Truthy(t.romaji) && Lower(t.english.value) != Lower(t.romaji.value)) ==>
              r == DisplayName(t)
  {
    var eng := t.english;
    var rom := t.romaji;
    if Truthy(eng) && Truthy(rom) && Lower(eng.value) != Lower(rom.value) then
      Some(eng.value + "\n(" + rom.value + ")")
    else if Truthy(eng) then eng
    else rom
  }

  /** Titles that differ only in case show once. */
  lemma SameTitleIgnoringCaseShownOnce(english: string, romaji: string)
    requires english != "" && Lower(english) == Lower(romaji)
    ensures FullTitle(Title(Some(english), Some(romaji))) == Some(english)
  {
  }

  /** `.replace('<br>', '\n').replace('<i>', '').replace('</i>', '')`. */
  function CleanDescription(s: string): (r: string)
    ensures |r| <= |s|
  {
    var s1 := ReplaceAll(s, "<br>", "\n");
    var s2 := ReplaceAll(s1, "<i>", "");
    ReplaceNotLonger(s, "<br>", "\n");
    ReplaceNotLonger(s1, "<i>", "");
    ReplaceNotLonger(s2, "</i>", "");
    ReplaceAll(s2, "</i>", "")
  }

  /** A line break tag after tag-free text becomes a newline. */
  lemma CleanDescriptionLineBreak(a: string, b: string)
    requires '<' !in a
    ensures CleanDescription(a + "<br>" + b) == a + "\n" + CleanDescription(b)
  {
    var b1 := ReplaceAll(b, "<br>", "\n");
    var b2 := ReplaceAll(b1, "<i>", "");
    ReplaceMatchAfterPlain(a, b, "<br>", "\n");
    ReplaceSkipsPrefix(a + "\n", b1, "<i>", "");
    ReplaceSkipsPrefix(a + "\n", b2, "</i>", "");
  }

  /** An opening italic tag after tag-free text is dropped. */
  lemma CleanDescriptionItalicOpen(a: string, b: string)
    requires '<' !in a
    ensures CleanDescription(a + "<i>" + b) == a + CleanDescription(b)
  {
    var b1 := ReplaceAll(b, "<br>", "\n");
    var b2 := ReplaceAll(b1, "<i>", "");
    ReplaceMismatchAfterPlain(a, "<i>", b, "<br>", "\n");
    ReplaceMatchAfterPlain(a, b1, "<i>", "");
    assert a + "" + b2 == a + b2;
    ReplaceSkipsPrefix(a, b2, "</i>", "");
  }

  /** A closing italic tag after tag-free text is dropped. */
  lemma CleanDescriptionItalicClose(a: string, b: string)
    requires '<' !in a
    ensures CleanDescription(a + "</i>" + b) == a + CleanDescription(b)
  {
    var b1 := ReplaceAll(b, "<br>", "\n");
    var b2 := ReplaceAll(b1, "<i>", "");
    var b3 := ReplaceAll(b2, "</i>", "");
    assert ReplaceAll(a + "</i>" + b, "<br>", "\n") == a + "</i>" + b1 by {
      ReplaceMismatchAfterPlain(a, "</i>", b, "<br>", "\n");
    }
    assert ReplaceAll(a + "</i>" + b1, "<i>", "") == a + "</i>" + b2 by {
      ReplaceMismatchAfterPlain(a, "</i>", b1, "<i>", "");
    }
    assert ReplaceAll(a + "</i>" + b2, "</i>", "") == a + b3 by {
      ReplaceMatchAfterPlain(a, b2, "</i>", "");
      assert a + "" + b3 == a + b3;
    }
  }

  /** A description without any of the three tags is shown unchanged. */
  lemma CleanDescriptionWithoutTags(s: string)
    requires !Contains(s, "<br>") && !Contains(s, "<i>") && !Contains(s, "</i>")
    ensures CleanDescription(s) == s
  {
    ReplaceAbsent(s, "<br>", "\n");
    ReplaceAbsent(s, "<i>", "");
    ReplaceAbsent(s, "</i>", "");
  }

  /** What selecting a record shows: the upper-cased full title, the reason
      text and the cleaned description. */
  datatype Details = Details(heading: string, reason: string, description: string)

  /** The two `AttributeError`s of `on_select_anime`: a `null` description,
      and then a record with no title to upper-case. */
  datatype SelectError = NullDescription | NullTitle

  /** `on_select_anime`: the listbox only offers the lines shown, so the
      index is within the list. */
  function OnSelectAnime(view: View, index: nat): (r: Result<Details, SelectError>)
    requires index < |ResultLines(view)|
    ensures r == Failure(NullDescription) <==> view.currentResults[index].description.None?
    ensures r == Failure(NullTitle) <==>
              view.currentResults[index].description.Some? && FullTitle(view.currentResults[index].title).None?
    ensures r.Success? ==>
              var anime := view.currentResults[index];
              r.value == Details(Upper(FullTitle(anime.title).value), ReasonText(anime, view.baseGenres),
                                 CleanDescription(anime.description.value))
              && |r.value.description| <= |anime.description.value|
  {
    var anime := view.currentResults[index];
    var reason := ReasonText(anime, view.baseGenres);
    var fullTitle := FullTitle(anime.title);
    match anime.description
    case None => Failure(NullDescription)
    case Some(d) =>
      match fullTitle
      case None => Failure(NullTitle)
      case Some(title) => Success(Details(Upper(title), reason, CleanDescription(d)))
  }
}
