/**
 The state the App component keeps with `useState`, and the events that
 change it: the delayed data load, a search keystroke (with the search
 effect it triggers), the debounce timer firing, and "load more" on a row.
 The debounce timer is a slot holding the one scheduled scan; scheduling
 happens only after the effect's cleanup has cleared the slot, and the
 timer firing is an event of its own, so no clock is involved.
 */
module AppState {
  import opened JsArray
  import opened Text
  import opened Catalog
  import opened Search

  /** A scheduled search timeout: the query and movie list its callback
      closed over. */
  datatype Scan = Scan(query: string, movies: seq<Movie>)

  class App {
    var movies: seq<Movie>
    var categories: Categories
    var currentPage: Cursors
    var searchQuery: string
    var searchResults: seq<Movie>
    var isSearching: bool
    var isLoading: bool
    /** The pending search timeout, if any. */
    var pending: Option<Scan>
    /** The queries whose scans have run, oldest first. */
    ghost var scanned: seq<string>

    /** Every cursor is a page number; a scan is pending exactly while the
        search is in progress, and it is the scan of the current query over
        the current movies; once none is pending the results are those of
        the current query. */
    ghost predicate Valid()
      reads this
    {
      && PositiveCursors(currentPage)
      && (isSearching <==> pending.Some?)
      && (pending.Some? ==> pending.value == Scan(searchQuery, movies) && !IsBlank(searchQuery))
      && (pending.None? && IsBlank(searchQuery) ==> searchResults == [])
      && (pending.None? && !IsBlank(searchQuery) ==> searchResults == SearchFilter(movies, searchQuery))
    }

    /** The first render: no data yet, loading, and the search effect run
        once on the empty query. */
    constructor ()
      ensures Valid()
      ensures movies == [] && categories == map[] && currentPage == map[] && isLoading
      ensures searchQuery == "" && searchResults == [] && !isSearching && pending == None
      ensures scanned == []
    {
      movies := [];
      categories := map[];
      currentPage := map[];
      searchQuery := "";
      searchResults := [];
      isSearching := false;
      isLoading := true;
      pending := None;
      scanned := [];
    }

    /** The search effect, run after a render in which `searchQuery` or
        `movies` changed: the cleanup of its previous run clears the pending
        timeout; then a blank query clears the results at once, and any
        other query marks the search in progress and schedules a scan. */
    method SearchEffect()
      requires PositiveCursors(currentPage)
      modifies this`searchResults, this`isSearching, this`pending
      ensures Valid()
      ensures IsBlank(searchQuery) ==> searchResults == [] && !isSearching && pending == None
      ensures !IsBlank(searchQuery) ==>
        searchResults == old(searchResults) && isSearching && pending == Some(Scan(searchQuery, movies))
    {
      pending := None;
      TrimEmptyIffBlank(searchQuery);
      if Trim(searchQuery) == [] {
        searchResults := [];
        isSearching := false;
        return;
      }
      isSearching := true;
      pending := Some(Scan(searchQuery, movies));
    }

    /** The timeout of the loading effect: store the movies and categories,
        start every category at page 1, and stop loading. `movies` changed,
        so the search effect runs again. */
    method LoadData(loadedMovies: seq<Movie>, loadedCategories: Categories)
      modifies this
      ensures Valid()
      ensures movies == loadedMovies && categories == loadedCategories && !isLoading
      ensures currentPage == InitialPages(loadedCategories)
      ensures searchQuery == old(searchQuery) && scanned == old(scanned)
      ensures IsBlank(searchQuery) ==> searchResults == [] && !isSearching && pending == None
      ensures !IsBlank(searchQuery) ==>
        searchResults == old(searchResults) && isSearching && pending == Some(Scan(searchQuery, movies))
    {
      movies := loadedMovies;
      categories := loadedCategories;
      currentPage := StartAtPageOne(loadedCategories);
      isLoading := false;
      SearchEffect();
    }

    /** `handleSearch(query)`: a new query re-renders and runs the search
        effect; setting the query it already has changes nothing. */
    method HandleSearch(query: string)
      requires Valid()
      modifies this
      ensures Valid()
      ensures searchQuery == query
      ensures movies == old(movies) && categories == old(categories) && currentPage == old(currentPage)
      ensures isLoading == old(isLoading) && scanned == old(scanned)
      ensures query == old(searchQuery) ==>
        searchResults == old(searchResults) && isSearching == old(isSearching) && pending == old(pending)
      ensures query != old(searchQuery) && IsBlank(query) ==>
        searchResults == [] && !isSearching && pending == None
      ensures query != old(searchQuery) && !IsBlank(query) ==>
        searchResults == old(searchResults) && isSearching && pending == Some(Scan(query, movies))
    {
      if query != searchQuery {
        searchQuery := query;
        SearchEffect();
      }
    }

    /** The debounce delay elapses: the pending scan, if any, filters the
        movies it closed over by the query it closed over, stores the
        results and ends the search. Without a pending scan nothing runs. */
    method FireSearchTimer()
      requires Valid()
      modifies this`searchResults, this`isSearching, this`pending, this`scanned
      ensures Valid()
      ensures !isSearching && pending == None
      ensures old(pending).None? ==> searchResults == old(searchResults) && scanned == old(scanned)
      ensures old(pending).Some? ==>
        searchResults == SearchFilter(movies, searchQuery) && scanned == old(scanned) + [searchQuery]
    {
      if pending.Some? {
        var scan := pending.value;
        assert scan.query == searchQuery && scan.movies == movies;
        searchResults := SearchFilter(scan.movies, scan.query);
        isSearching := false;
        pending := None;
        scanned := scanned + [scan.query];
      }
    }

    /** `loadMoreMovies(name)`: the row's cursor moves one page on, every
        other cursor stays. */
    method LoadMoreMovies(name: string)
      requires Valid()
      modifies this`currentPage
      ensures Valid()
      ensures currentPage == BumpCursor(old(currentPage), name)
      ensures PageOr1(currentPage, name) == PageOr1(old(currentPage), name) + 1
    {
      currentPage := BumpCursor(currentPage, name);
    }
  }

  /** The cursors the loading timeout builds, one `forEach` step per
      category key: every category starts at page 1. */
  method StartAtPageOne(loadedCategories: Categories) returns (initialPages: Cursors)
    ensures initialPages == InitialPages(loadedCategories)
  {
    initialPages := map[];
    var remaining := loadedCategories.Keys;
    while remaining != {}
      invariant remaining <= loadedCategories.Keys
      invariant initialPages.Keys == loadedCategories.Keys - remaining
      invariant forall c :: c in initialPages ==> initialPages[c] == 1
      decreases remaining
    {
      var c :| c in remaining;
      initialPages := initialPages[c := 1];
      remaining := remaining - {c};
    }
  }

  /** The query a burst of keystrokes leaves in the search box. */
  function FinalQuery(queries: seq<string>): string {
    if queries == [] then "" else queries[|queries| - 1]
  }

  /** Load the data, type the queries faster than the debounce delay, then
      let the delay elapse: only the final query is scanned, and the results
      are the settled results of that query. */
  method TypeThenSettle(loadedMovies: seq<Movie>, loadedCategories: Categories, queries: seq<string>)
    returns (results: seq<Movie>, searching: bool, ghost scans: seq<string>)
    ensures results == SettledResults(loadedMovies, FinalQuery(queries)) && !searching
    ensures scans == (if IsBlank(FinalQuery(queries)) then [] else [FinalQuery(queries)])
  {
    var app := new App();
    app.LoadData(loadedMovies, loadedCategories);
    var i := 0;
    while i < |queries|
      invariant 0 <= i <= |queries|
      invariant app.Valid()
      invariant app.movies == loadedMovies && app.scanned == []
      invariant app.searchQuery == FinalQuery(queries[..i])
      invariant app.pending.None? <==> IsBlank(app.searchQuery)
    {
      app.HandleSearch(queries[i]);
      assert queries[..i + 1][i] == queries[i];
      i := i + 1;
    }
    assert queries[..|queries|] == queries;
    app.FireSearchTimer();
    results, searching, scans := app.searchResults, app.isSearching, app.scanned;
  }
}
