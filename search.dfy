/**
 The query engine: the six-field, case-insensitive substring predicate of
 the search effect and the stable filter it runs over the movie list.
 */
module Search {
  import opened JsArray
  import opened Text
  import opened Catalog

  /** Whether `movie` matches `query`: the lower-cased query (not trimmed)
      is included in the lower-cased title, description, a genre, a cast
      member or the director, or in the decimal text of the year. */
  predicate Matches(movie: Movie, query: string) {
    var q := Lower(query);
    || Includes(Lower(movie.title), q)
    || Includes(Lower(movie.description), q)
    || SomeIncludes(movie.genre, q)
    || SomeIncludes(movie.cast, q)
    || Includes(Lower(movie.director), q)
    || Includes(IntToDecimal(movie.year), q)
  }

  /** `entries.some(e => e.toLowerCase().includes(q))`. */
  predicate SomeIncludes(entries: seq<string>, q: string) {
    exists i :: 0 <= i < |entries| && Includes(Lower(entries[i]), q)
  }

  /** `movies.filter(movie => ...)`, the scan a fired search timer runs.
      It is `Filter` with `Matches` written in rather than passed as a
      closure (`SearchFilterIsFilter` proves the two equal): the class
      invariant of the app mentions the scan, and a closure there makes
      every proof about the app state much more expensive to check. */
  function SearchFilter(movies: seq<Movie>, query: string): (r: seq<Movie>)
    ensures |r| <= |movies|
  {
    if movies == [] then []
    else (if Matches(movies[0], query) then [movies[0]] else []) + SearchFilter(movies[1..], query)
  }

  /** The scan is `filter` with the matching predicate. */
  lemma {:induction false} SearchFilterIsFilter(movies: seq<Movie>, query: string)
    ensures SearchFilter(movies, query) == Filter(movies, (m: Movie) => Matches(m, query))
  {
    if movies != [] {
      SearchFilterIsFilter(movies[1..], query);
    }
  }

  /** The positions of the matching movies, in catalog order. */
  function MatchPositions(movies: seq<Movie>, query: string): seq<nat> {
    IndicesWhere(movies, (m: Movie) => Matches(m, query))
  }

  /** The search result is exactly the order-preserving subsequence of the
      movies that match: the k-th result is the movie at the k-th matching
      position, and a position is matching exactly when its movie matches. */
  lemma SearchIsStableFilter(movies: seq<Movie>, query: string)
    ensures var r, pos := SearchFilter(movies, query), MatchPositions(movies, query);
      && |r| == |pos|
      && StrictlyIncreasing(pos)
      && (forall k :: 0 <= k < |r| ==> pos[k] < |movies| && r[k] == movies[pos[k]])
      && (forall i :: 0 <= i < |movies| ==> (i in pos <==> Matches(movies[i], query)))
  {
    var p := (m: Movie) => Matches(m, query);
    SearchFilterIsFilter(movies, query);
    FilterIsSubsequence(movies, p);
  }

  /** Matching ignores ASCII case in the query: queries that lower-case
      alike find the same movies. */
  lemma {:induction false} SearchIgnoresCase(movies: seq<Movie>, q1: string, q2: string)
    requires Lower(q1) == Lower(q2)
    ensures SearchFilter(movies, q1) == SearchFilter(movies, q2)
  {
    SearchFilterIsFilter(movies, q1);
    SearchFilterIsFilter(movies, q2);
    FilterCongruent(movies, (m: Movie) => Matches(m, q1), (m: Movie) => Matches(m, q2));
  }

  /** A field that includes the lower-cased longer query includes the
      lower-cased shorter one. */
  lemma FieldNarrows(field: string, q: string, longer: string)
    requires Includes(longer, q)
    requires Includes(field, Lower(longer))
    ensures Includes(field, Lower(q))
  {
    LowerIncludes(longer, q);
    IncludesTransitive(field, Lower(longer), Lower(q));
  }

  /** A list field (genres, cast) with an entry that includes the
      lower-cased longer query has one that includes the shorter one. */
  lemma ListFieldNarrows(entries: seq<string>, q: string, longer: string)
    requires Includes(longer, q)
    requires SomeIncludes(entries, Lower(longer))
    ensures SomeIncludes(entries, Lower(q))
  {
    var i :| 0 <= i < |entries| && Includes(Lower(entries[i]), Lower(longer));
    FieldNarrows(Lower(entries[i]), q, longer);
  }

  /** A movie that matches a query matches every piece of it. */
  lemma MatchesNarrows(movie: Movie, q: string, longer: string)
    requires Includes(longer, q)
    requires Matches(movie, longer)
    ensures Matches(movie, q)
  {
    var ql := Lower(longer);
    if Includes(Lower(movie.title), ql) {
      FieldNarrows(Lower(movie.title), q, longer);
    } else if Includes(Lower(movie.description), ql) {
      FieldNarrows(Lower(movie.description), q, longer);
    } else if SomeIncludes(movie.genre, ql) {
      ListFieldNarrows(movie.genre, q, longer);
    } else if SomeIncludes(movie.cast, ql) {
      ListFieldNarrows(movie.cast, q, longer);
    } else if Includes(Lower(movie.director), ql) {
      FieldNarrows(Lower(movie.director), q, longer);
    } else {
      LowerDecimal(movie.year);
      FieldNarrows(IntToDecimal(movie.year), q, longer);
    }
  }

  /** Typing further (any query that contains `q`) can only remove movies
      from the result of `q`. */
  lemma LongerQueryNarrows(movies: seq<Movie>, q: string, longer: string)
    requires Includes(longer, q)
    ensures forall k :: 0 <= k < |SearchFilter(movies, longer)| ==> SearchFilter(movies, longer)[k] in SearchFilter(movies, q)
  {
    var r := SearchFilter(movies, longer);
    SearchFilterIsFilter(movies, longer);
    SearchFilterIsFilter(movies, q);
    forall k | 0 <= k < |r| ensures r[k] in SearchFilter(movies, q) {
      var i :| 0 <= i < |movies| && movies[i] == r[k];
      MatchesNarrows(movies[i], q, longer);
      FilterComplete(movies, (m: Movie) => Matches(m, q), i);
    }
  }

  /** What the search shows once no scan is pending: nothing for a blank
      query, the matching movies otherwise. */
  function SettledResults(movies: seq<Movie>, query: string): seq<Movie>
  {
    if IsBlank(query) then [] else SearchFilter(movies, query)
  }
}
