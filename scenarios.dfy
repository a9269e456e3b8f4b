/**
 Concrete consequences of the catalog and search definitions on small
 catalogs: case-insensitive and mid-word matches, matches on the text of
 the release year, the untrimmed query, and a two-movie catalog with a
 `trending` row.
 */
module Scenarios {
  import opened JsArray
  import opened Text
  import opened Catalog
  import opened Search

  function TitledMovie(id: MovieId, title: string, year: int): Movie {
    Movie(id, title, "", [], [], "", year)
  }

  /** "batman", "BATMAN" and "atma" all find a movie titled "The Batman". */
  lemma TitleMatchIgnoresCaseAndWordBoundaries()
    ensures Matches(TitledMovie(1, "The Batman", 2022), "batman")
    ensures Matches(TitledMovie(1, "The Batman", 2022), "BATMAN")
    ensures Matches(TitledMovie(1, "The Batman", 2022), "atma")
  {
    var t := Lower("The Batman");
    assert t == "the batman";
    assert Lower("batman") == "batman" && Lower("BATMAN") == "batman" && Lower("atma") == "atma";
    assert OccursAt(t, "batman", 4);
    OccursAtIncludes(t, "batman", 4);
    assert OccursAt(t, "atma", 5);
    OccursAtIncludes(t, "atma", 5);
  }

  /** "19" finds movies from 2019 and from 1997: the year is matched as text. */
  lemma YearMatchesAsText()
    ensures Matches(TitledMovie(1, "X", 2019), "19")
    ensures Matches(TitledMovie(2, "X", 1997), "19")
  {
    assert Lower("19") == "19";
    assert IntToDecimal(2019) == "2019";
    assert IntToDecimal(1997) == "1997";
    assert OccursAt("2019", "19", 2);
    OccursAtIncludes("2019", "19", 2);
    assert OccursAt("1997", "19", 0);
    OccursAtIncludes("1997", "19", 0);
  }

  /** The query is not trimmed: " bat" finds "The Batman", the space
      being part of the title. */
  lemma LeadingSpaceKept()
    ensures Matches(TitledMovie(1, "The Batman", 2022), " bat")
  {
    assert Lower(" bat") == " bat";
    assert Lower("The Batman") == "the batman";
    assert OccursAt("the batman", " bat", 3);
    OccursAtIncludes("the batman", " bat", 3);
  }

  /** No character of `s` is a space. */
  predicate SpaceFree(s: string) {
    forall i :: 0 <= i < |s| ==> s[i] != ' '
  }

  /** A string without a space does not include a query that has one. */
  lemma NoSpaceNoMatch(s: string, q: string)
    requires SpaceFree(s)
    requires exists j :: 0 <= j < |q| && q[j] == ' '
    ensures !Includes(s, q)
  {
    if Includes(s, q) {
      var i := IncludesOccurs(s, q);
    }
  }

  /** ... and spaces in the query are kept: a query holding a space finds
      no movie whose text fields hold none (so " bat" does not find a movie
      titled "Batman", which "bat" finds). */
  lemma SpaceInQueryIsKept(movie: Movie, query: string)
    requires exists j :: 0 <= j < |query| && query[j] == ' '
    requires SpaceFree(movie.title) && SpaceFree(movie.description) && SpaceFree(movie.director)
    requires forall i :: 0 <= i < |movie.genre| ==> SpaceFree(movie.genre[i])
    requires forall i :: 0 <= i < |movie.cast| ==> SpaceFree(movie.cast[i])
    ensures !Matches(movie, query)
  {
    var q := Lower(query);
    var j :| 0 <= j < |query| && query[j] == ' ';
    assert q[j] == ' ';
    NoSpaceNoMatch(Lower(movie.title), q);
    NoSpaceNoMatch(Lower(movie.description), q);
    NoSpaceNoMatch(Lower(movie.director), q);
    forall i | 0 <= i < |movie.genre| ensures !Includes(Lower(movie.genre[i]), q) {
      NoSpaceNoMatch(Lower(movie.genre[i]), q);
    }
    forall i | 0 <= i < |movie.cast| ensures !Includes(Lower(movie.cast[i]), q) {
      NoSpaceNoMatch(Lower(movie.cast[i]), q);
    }
    var year := IntToDecimal(movie.year);
    assert forall i :: 0 <= i < |year| ==> year[i] != ' ';
    NoSpaceNoMatch(year, q);
  }

  const OldGuard := Movie(1, "Old Guard", "", ["Action"], [], "", 2020)
  const NewGuard := Movie(2, "New Guard", "", ["Drama"], [], "", 2024)
  const GuardCategories: Categories := map["trending" := [2, 1]]

  /** The first page of size 1 of `trending` follows the row's order, not the list's. */
  lemma TrendingFirstPage()
    ensures GetMoviesForCategory([OldGuard, NewGuard], GuardCategories, "trending", 1, 1) == [NewGuard]
  {
    PageIsResolvedWindow([OldGuard, NewGuard], GuardCategories, "trending", 1, 1);
    assert Window([2, 1], 1, 1) == [2];
    var movies := [OldGuard, NewGuard];
    assert movies[1].id == 2;
    assert Listed(movies, 2);
  }

  /** "guard" finds both movies, in the order of the movie list. */
  lemma GuardSearch()
    ensures SearchFilter([OldGuard, NewGuard], "guard") == [OldGuard, NewGuard]
  {
    assert Lower("guard") == "guard";
    assert Lower("Old Guard") == "old guard";
    assert OccursAt("old guard", "guard", 4);
    OccursAtIncludes("old guard", "guard", 4);
    assert Lower("New Guard") == "new guard";
    assert OccursAt("new guard", "guard", 4);
    OccursAtIncludes("new guard", "guard", 4);
    assert Matches(OldGuard, "guard") && Matches(NewGuard, "guard");
    var movies := [OldGuard, NewGuard];
    assert movies[1..] == [NewGuard] && movies[1..][1..] == [];
    var p := (m: Movie) => Matches(m, "guard");
    assert Filter(movies[1..], p) == [NewGuard];
  }
}
