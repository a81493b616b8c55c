/** The movie record returned by the movie database and the pieces of
    selection and display logic that app.py and Apps/gui_app.py share. */
module Tmdb {
  import opened Wrappers
  import opened Text
  import opened Subsequences

  /** One movie record. `releaseDate` is `None` when the key is absent (a
      JSON `null` date is not modelled); an absent `genre_ids` key reads as
      the empty list, as `m.get('genre_ids', [])` does. Rating, overview and poster path are display-only and left out. */
  datatype Movie = Movie(id: int, title: string, releaseDate: Option<string>, genreIds: seq<int>)

  /** `m.get('release_date', '????')[:4]`: the year as shown in every list. */
  function YearLabel(m: Movie): (r: string)
    ensures |r| <= 4
    ensures m.releaseDate.None? ==> r == "????"
    ensures m.releaseDate.Some? ==> StartsWith(m.releaseDate.value, r)
    ensures m.releaseDate.Some? ==>
              |r| == if |m.releaseDate.value| < 4 then |m.releaseDate.value| else 4
  {
    Take(m.releaseDate.GetOr("????"), 4)
  }

  /** The sequel test: the lower-cased base title does not occur in the
      lower-cased title of `m`. */
  predicate NotSequelOf(m: Movie, baseTitle: string)
  {
    !Contains(Lower(m.title), Lower(baseTitle))
  }

  /** `[m for m in recs if base_title.lower() not in m['title'].lower()]`. */
  function WithoutSequels(recs: seq<Movie>, baseTitle: string): (r: seq<Movie>)
    ensures IsSubseq(r, recs)
    ensures forall i :: 0 <= i < |r| ==> !Contains(Lower(r[i].title), Lower(baseTitle))
    ensures forall i :: 0 <= i < |recs| && !Contains(Lower(recs[i].title), Lower(baseTitle)) ==> recs[i] in r
  {
    Filter(recs, m => NotSequelOf(m, baseTitle))
  }

  /** The sequel filter works element by element from the front. */
  lemma WithoutSequelsCons(m: Movie, rest: seq<Movie>, baseTitle: string)
    ensures WithoutSequels([m] + rest, baseTitle)
            == (if NotSequelOf(m, baseTitle) then [m] else []) + WithoutSequels(rest, baseTitle)
  {
    assert ([m] + rest)[1..] == rest;
  }

  /** Nothing survives the sequel filter exactly when every candidate is a sequel. */
  lemma WithoutSequelsEmpty(recs: seq<Movie>, baseTitle: string)
    ensures WithoutSequels(recs, baseTitle) == [] <==> forall i :: 0 <= i < |recs| ==> !NotSequelOf(recs[i], baseTitle)
  {
    var r := WithoutSequels(recs, baseTitle);
    if r != [] {
      SubseqElements(r, recs);
      var j :| 0 <= j < |recs| && recs[j] == r[0];
    }
  }

  /** The candidates removed as sequels are exactly those whose title
      contains the base title; `WithoutSequels` is the greatest such list. */
  lemma WithoutSequelsIsGreatest(t: seq<Movie>, recs: seq<Movie>, baseTitle: string)
    requires IsSubseq(t, recs)
    requires forall i :: 0 <= i < |t| ==> !Contains(Lower(t[i].title), Lower(baseTitle))
    ensures IsSubseq(t, WithoutSequels(recs, baseTitle))
  {
    FilterIsGreatest(t, recs, m => NotSequelOf(m, baseTitle));
  }

  /** A name-to-id table is injective: distinct names have distinct ids. */
  predicate Injective(table: map<string, int>)
  {
    forall a, b :: a in table && b in table && a != b ==> table[a] != table[b]
  }

  /** `inverse` reads `name`'s id back to `name`. */
  ghost predicate NamesBack(table: map<string, int>, inverse: map<int, string>, name: string)
    requires name in table
  {
    table[name] in inverse && inverse[table[name]] == name
  }

  /** A table whose every id reads back to its name through some inverse
      table is injective. */
  lemma InjectiveByInverse(table: map<string, int>, inverse: map<int, string>)
    requires forall name :: name in table ==> NamesBack(table, inverse, name)
    ensures Injective(table)
  {
    forall a, b | a in table && b in table && a != b
      ensures table[a] != table[b]
    {
      assert NamesBack(table, inverse, a) && NamesBack(table, inverse, b);
    }
  }

  /** `{v: k.capitalize() for k, v in table.items()}`. */
  function GenreNamesOf(table: map<string, int>): (names: map<int, string>)
    requires Injective(table)
    ensures names.Keys == table.Values
    ensures forall k :: k in table ==> names[table[k]] == Capitalize(k)
  {
    map k | k in table :: table[k] := Capitalize(k)
  }

  /** `table.get(theme.lower())`: an exact, case-folded key lookup. */
  function GenreId(table: map<string, int>, theme: string): (r: Option<int>)
    ensures r.Some? <==> Lower(theme) in table
    ensures r.Some? ==> r.value in table.Values && table[Lower(theme)] == r.value
  {
    if Lower(theme) in table then Some(table[Lower(theme)]) else None
  }

  /** The lookup ignores ASCII case. */
  lemma GenreIdIgnoresCase(table: map<string, int>, theme: string)
    ensures GenreId(table, Lower(theme)) == GenreId(table, theme)
  {
    LowerIdempotent(theme);
  }

  /** The ids of `genreIds` that also occur in `baseIds`, in the order of `genreIds`. */
  function SharedGenreIds(genreIds: seq<int>, baseIds: seq<int>): (r: seq<int>)
    ensures IsSubseq(r, genreIds)
    ensures forall i :: 0 <= i < |r| ==> r[i] in baseIds
    ensures forall i :: 0 <= i < |genreIds| && genreIds[i] in baseIds ==> genreIds[i] in r
  {
    Filter(genreIds, g => g in baseIds)
  }

  /** `ids[k]` is the first id that `names` lacks. */
  predicate FirstMissing(names: map<int, string>, ids: seq<int>, k: int)
  {
    0 <= k < |ids| && ids[k] !in names && forall j :: 0 <= j < k ==> ids[j] in names
  }

  /** `[names[g] for g in ids]`, failing with the first id missing from
      `names` as Python's `KeyError` does. */
  function NamesOf(names: map<int, string>, ids: seq<int>): (r: Result<seq<string>, int>)
    ensures r.Success? <==> forall i :: 0 <= i < |ids| ==> ids[i] in names
    ensures r.Success? ==> |r.value| == |ids|
    ensures r.Success? ==> forall i :: 0 <= i < |ids| ==> r.value[i] == names[ids[i]]
    ensures r.Failure? ==> exists k :: FirstMissing(names, ids, k) && ids[k] == r.error
    decreases |ids|
  {
    if |ids| == 0 then Success([])
    else if ids[0] !in names then Failure(ids[0])
    else match NamesOf(names, ids[1..])
      case Success(rest) => Success([names[ids[0]]] + rest)
      case Failure(g) => Failure(g)
  }

  /** `[names[g] for g in genre_ids if g in base_ids]`: the names of the shared
      genres, or the first shared id the table lacks. */
  function MatchedGenres(names: map<int, string>, genreIds: seq<int>, baseIds: seq<int>): (r: Result<seq<string>, int>)
    ensures r.Success? <==> forall g :: g in genreIds && g in baseIds ==> g in names
    ensures r.Failure? ==> r.error in genreIds && r.error in baseIds && r.error !in names
    ensures r.Success? ==> var shared := SharedGenreIds(genreIds, baseIds);
              |r.value| == |shared|
              && forall i :: 0 <= i < |shared| ==> shared[i] in names && r.value[i] == names[shared[i]]
  {
    var shared := SharedGenreIds(genreIds, baseIds);
    SubseqElements(shared, genreIds);
    NamesOf(names, shared)
  }

  /** The matched names are empty exactly when no genre is shared. */
  lemma MatchedGenresEmpty(names: map<int, string>, genreIds: seq<int>, baseIds: seq<int>)
    requires MatchedGenres(names, genreIds, baseIds).Success?
    ensures MatchedGenres(names, genreIds, baseIds).value == []
        <==> forall i :: 0 <= i < |genreIds| ==> genreIds[i] !in baseIds
  {
    FilterEmpty(genreIds, g => g in baseIds);
  }
}
