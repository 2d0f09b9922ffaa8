/** The catalogue listing of `getMovies`: active movies, optionally
    narrowed by an exact language and a case-insensitive genre substring,
    newest release first. Only the query text and its parameter list are
    modelled; running it is left to the database. */
module Movies {
  import opened Wrappers
  import opened Text
  import opened Sql

  const MoviesSelect: string := "SELECT * FROM movies WHERE is_active = true"
  const LanguageFilter: string := " AND language = "
  const GenreFilter: string := " AND genre ILIKE "
  const MoviesOrder: string := " ORDER BY release_date DESC"

  /** The ILIKE pattern matching `genre` anywhere in the column. */
  function GenrePattern(genre: string): (p: string)
    ensures |p| == |genre| + 2 && p[0] == '%' && p[|p| - 1] == '%' && p[1..|p| - 1] == genre
  {
    "%" + genre + "%"
  }

  /** The filters appended, in order: language, then genre. */
  function MovieFilters(language: Option<string>, genre: Option<string>): seq<Filter>
  {
    (if Given(language) then [Filter(LanguageFilter, language.value)] else [])
    + (if Given(genre) then [Filter(GenreFilter, GenrePattern(genre.value))] else [])
  }

  /** The query builder: the counter starts at 1 because nothing is bound
      before the optional filters. */
  method BuildMoviesQuery(language: Option<string>, genre: Option<string>)
    returns (query: string, params: seq<string>, paramCount: nat)
    ensures paramCount == |params| + 1
    ensures params == Values(MovieFilters(language, genre))
    ensures query == MoviesSelect + Clauses(MovieFilters(language, genre), 1) + MoviesOrder
  {
    query := MoviesSelect;
    params := [];
    paramCount := 1;
    ghost var fs: seq<Filter> := [];
    if Given(language) {
      var f := Filter(LanguageFilter, language.value);
      AppendFilter(MoviesSelect, fs, f, 1);
      query := query + f.sql + Placeholder(paramCount);
      params := params + [f.value];
      fs := fs + [f];
      paramCount := paramCount + 1;
    }
    assert query == MoviesSelect + Clauses(fs, 1) && params == Values(fs) && paramCount == |fs| + 1;
    if Given(genre) {
      var f := Filter(GenreFilter, GenrePattern(genre.value));
      AppendFilter(MoviesSelect, fs, f, 1);
      query := query + f.sql + Placeholder(paramCount);
      params := params + [f.value];
      fs := fs + [f];
      paramCount := paramCount + 1;
    }
    assert fs == MovieFilters(language, genre);
    query := query + MoviesOrder;
  }

  /** Without filters nothing is bound and the query is the bare listing. */
  lemma NoFiltersNoParams(language: Option<string>, genre: Option<string>)
    requires !Given(language) && !Given(genre)
    ensures Values(MovieFilters(language, genre)) == []
    ensures MoviesSelect + Clauses(MovieFilters(language, genre), 1) + MoviesOrder == MoviesSelect + MoviesOrder
  {
  }

  /** The language filter, when given, is the first clause and binds `$1`
      to the language exactly as given. */
  lemma LanguageBindsFirst(language: Option<string>, genre: Option<string>)
    ensures var fs := MovieFilters(language, genre);
      Given(language) <==> |fs| > 0 && fs[0].sql == LanguageFilter
    ensures var fs := MovieFilters(language, genre);
      Given(language) ==> Clauses(fs, 1) == LanguageFilter + Placeholder(1) + Clauses(fs[1..], 2) && Values(fs)[0] == language.value
  {
    assert LanguageFilter[5] != GenreFilter[5];
  }

  /** The genre filter, when given, is the last clause; its placeholder is
      the last one and is bound to the genre wrapped in `%`. */
  lemma GenreBindsLast(language: Option<string>, genre: Option<string>)
    ensures var fs := MovieFilters(language, genre);
      Given(genre) <==> |fs| > 0 && fs[|fs| - 1].sql == GenreFilter
    ensures var fs := MovieFilters(language, genre);
      var params := Values(fs);
      Given(genre) ==>
        Clauses(fs, 1) == Clauses(fs[..|fs| - 1], 1) + (GenreFilter + Placeholder(|params|)) &&
        params[|params| - 1] == GenrePattern(genre.value)
  {
    assert LanguageFilter[5] != GenreFilter[5];
    var fs := MovieFilters(language, genre);
    if Given(genre) {
      PlaceholderBindsItsValue([], fs, |fs| - 1);
      assert fs[|fs|..] == [];
    }
  }

  /** Every placeholder `$k` of the movie query names `params[k-1]`. */
  lemma MoviePlaceholdersMatch(language: Option<string>, genre: Option<string>, i: nat)
    requires i < |MovieFilters(language, genre)|
    ensures var fs := MovieFilters(language, genre);
      Clauses(fs, 1) == Clauses(fs[..i], 1) + (fs[i].sql + Placeholder(i + 1) + Clauses(fs[i + 1..], i + 2)) &&
      Values(fs)[i] == fs[i].value
  {
    PlaceholderBindsItsValue([], MovieFilters(language, genre), i);
  }
}
