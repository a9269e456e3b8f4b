# Netflix-clone catalog query layer, in Dafny

This project models the in-memory catalog query layer of the `App`
component in `frontend/src/App.js`. This layer is all of the component's
logic that is not rendering:

- **Category pagination.** `getMoviesForCategory` takes a category's ids
  (none for an unknown category). It slices the window
  `[(page-1)*itemsPerPage, (page-1)*itemsPerPage + itemsPerPage)` and
  resolves each id with `find` to the first movie that has it. Ids that
  no movie has are dropped.
- **Page cursors.** Every category starts at page 1 when the data is
  loaded. `loadMoreMovies` moves one category to `(cursor || 1) + 1`. A
  row with no cursor is rendered as page 1.
- **The featured movie.** It is the first movie whose id is the first id
  of the `featured` category, or the first movie of the list when that
  category is empty or absent.
- **Debounced search.** A blank query clears the results at once. Any
  other query marks the search in progress and schedules a scan. The
  cleanup of the previous effect run cancels the scan scheduled before.
  The scan is a stable filter over the movie list. It keeps a movie when
  the lower-cased, untrimmed query occurs in its lower-cased title,
  description, a genre, a cast member or the director, or in the decimal
  text of its year.

Layout:

- `jsarray.dfy` (module `JsArray`) holds `slice`, `find` and `filter`
  as functions on sequences, with the subsequence reading of `filter`.
- `text.dfy` (module `Text`) holds ASCII `toLowerCase`, `includes`,
  `trim` with the ECMAScript whitespace set, and the decimal text of an
  integer.
- `catalog.dfy` (module `Catalog`) holds the movie record, pagination,
  the cursor updates and the featured movie. These are pure functions,
  as in the source.
- `search.dfy` (module `Search`) holds the six-field predicate and the
  scan.
- `app.dfy` (module `AppState`) holds the class `App`. Its fields are the
  `useState` slots the catalog and search logic read, and the one
  pending search timeout. Its
  methods are the events that change them: the data load, a keystroke
  with the search effect it triggers, the debounce timer firing, and
  "load more". The `forEach` that builds the initial cursors is a loop
  (`StartAtPageOne`).
- `scenarios.dfy` (module `Scenarios`) holds concrete catalogs that show
  case-insensitive, mid-word, year-as-text and untrimmed-query matches,
  and a two-movie catalog with a `trending` row.

The debounce uses no clock. Scheduling fills a slot. Cancelling empties
it. The 300 ms delay elapsing is the event `FireSearchTimer`, which runs
the scan in the slot, if there is one. A ghost log `scanned` records the
queries whose scans ran. With it, `TypeThenSettle` states that after a
burst of keystrokes only the final query is scanned.

## Notes on the code

- The load callback gives every category key page 1
  (frontend/src/App.js:35-39). No cursor is created on first render.
- The load callback and `loadMoreMovies` both write the cursors.
- Nothing in `App.js` calls `loadMoreMovies`, so it is modelled as the
  operation it defines.

## Model

| member | source | states |
|---|---|---|
| `JsArray.Slice` | frontend/src/App.js:88 | `slice` with a non-negative start: the result is the run of the list from `start`; it is at most `end - start` long; it is empty when `start` is at or past the end of the list |
| `JsArray.Find` | frontend/src/App.js:89 | `find` returns nothing exactly when no element satisfies the predicate; otherwise it returns the element at the first position that does |
| `JsArray.FilterIsSubsequence` | frontend/src/App.js:90 | the k-th element `filter` keeps is the element at the k-th of a strictly increasing list of positions, and a position is on that list exactly when its element satisfies the predicate |
| `Catalog.FindMovie` | frontend/src/App.js:89 | resolving an id finds a movie exactly when some movie has that id; the movie found is the first one with that id |
| `Catalog.GetMoviesForCategory` | frontend/src/App.js:82-91 | a page has at most `itemsPerPage` movies; an unknown category, or a page whose start `(page-1)*itemsPerPage` is at or past the end of the ids, gives an empty page; every entry is a movie of the list |
| `Catalog.KeepFoundIsResolve` | frontend/src/App.js:89-90 | mapping ids through `find` and then dropping the misses equals resolving the ids one by one and skipping the unknown ones |
| `Catalog.PageIsResolvedWindow` | frontend/src/App.js:83-90 | for `page >= 1`, a page is the window of the category's ids from `(page-1)*itemsPerPage`, clipped to the list, resolved in order |
| `Catalog.PageFollowsCategoryOrder` | frontend/src/App.js:87-90 | the k-th movie of a page is the first movie with the id at the k-th kept position of the sliced ids; the kept positions increase; an id position is kept exactly when some movie has that id |
| `Catalog.PagesConcatenate` | frontend/src/App.js:82-91 | pages 1 to k, one after the other, are the first `k*itemsPerPage` ids of the category resolved to movies, with dangling ids left out |
| `Catalog.BumpCursor` | frontend/src/App.js:95-98 | "load more" sets the row's cursor to `(cursor or 1) + 1`; every other category keeps its cursor, and no category gains or loses one |
| `Catalog.BumpKeepsPositive` | frontend/src/App.js:94-99 | "load more" keeps every cursor a positive page number |
| `Catalog.RepeatedLoadMore` | frontend/src/App.js:94-99 | after k "load more" actions on one row, that row shows page k further on and every other row shows the page it showed |
| `Catalog.InitialPages` | frontend/src/App.js:35-39 | the initial cursors have exactly the category keys, each at page 1, and any row reads as page 1 |
| `Catalog.RowMovies` | frontend/src/App.js:188 | a rendered row, at its cursor's page or at page 1 without a cursor, has at most 20 movies |
| `Catalog.FirstRowsAfterLoad` | frontend/src/App.js:35-39 | right after loading, every row shows the first 20 ids of its category resolved to movies |
| `Catalog.FeaturedMovie` | frontend/src/App.js:46-51 | with a non-empty `featured` category, the featured movie is the first movie whose id is its first id, or none if no movie has that id; otherwise it is the first movie of the list, or none for an empty list |
| `Text.IncludesIffOccurs` | frontend/src/App.js:66 | `includes` holds exactly when the query occurs as a contiguous piece of the field at some position |
| `Text.LowerIncludes` | frontend/src/App.js:64-66 | with ASCII lower-casing, lower-casing keeps a contained piece contained |
| `Text.TrimEmptyIffBlank` | frontend/src/App.js:55 | the trimmed query is empty exactly when every character of the query is ECMAScript whitespace |
| `Text.NatToDecimalRoundTrip` | frontend/src/App.js:71 | the digits written for a year's number read back as that number, so they are its decimal text |
| `Text.LowerDecimal` | frontend/src/App.js:71 | the decimal text of a year has no letters, so lower-casing leaves it as it is |
| `Search.SearchFilter` | frontend/src/App.js:63-73 | the scan never returns more movies than the list has |
| `Search.SearchFilterIsFilter` | frontend/src/App.js:63-73 | the scan is `filter` over the movie list with the six-field predicate |
| `Search.SearchIsStableFilter` | frontend/src/App.js:63-73 | the search result is exactly the order-preserving subsequence of the movies that match: the k-th result is the movie at the k-th matching position, and a position is matching exactly when its movie matches |
| `Search.SearchIgnoresCase` | frontend/src/App.js:64 | two queries that lower-case alike find the same movies |
| `Search.MatchesNarrows` | frontend/src/App.js:65-72 | with ASCII lower-casing, a movie that matches a query matches every contiguous piece of that query |
| `Search.LongerQueryNarrows` | frontend/src/App.js:63-73 | with ASCII lower-casing, every movie found for a query is found for every piece of that query, so typing more can only remove results |
| `AppState.App.constructor` | frontend/src/App.js:16-25 | the first render has no movies, no categories, no cursors, the empty query, no results, no scan pending, and is loading |
| `AppState.App.SearchEffect` | frontend/src/App.js:54-79 | the cleanup cancels the pending scan; then a blank query empties the results and clears the in-progress flag without scheduling; any other query sets the flag and schedules a scan of itself over the current movies, leaving the results as they were |
| `AppState.App.LoadData` | frontend/src/App.js:28-43 | the load stores the movies and categories, starts every category at page 1, stops loading, and reruns the search effect because the movie list changed: a blank query leaves no results, no flag and nothing pending; any other query keeps the old results, sets the flag and schedules a scan of itself over the new movies |
| `AppState.App.HandleSearch` | frontend/src/App.js:122-124 | a new query reruns the search effect: a blank query clears results and flag with nothing pending; a non-blank query sets the flag and replaces the pending scan with one for itself; setting the current query again changes nothing |
| `AppState.App.FireSearchTimer` | frontend/src/App.js:62-76 | when the delay elapses, the pending scan stores the matches of the current query and clears the flag; it logs that query as scanned; with nothing pending nothing changes |
| `AppState.App.LoadMoreMovies` | frontend/src/App.js:94-99 | the row's cursor becomes the "load more" update of the old cursors, one page further on, and the state invariant is kept |
| `AppState.StartAtPageOne` | frontend/src/App.js:35-39 | the `forEach` over the category keys builds the initial cursors: every key at page 1 and no other key |
| `AppState.TypeThenSettle` | frontend/src/App.js:54-79 | after loading, a burst of keystrokes, then the delay elapsing: the results are those of the final query (none for a blank one), the flag is cleared, and the only scan that ran is the one for the final query (no scan at all for a blank one) |
| `Scenarios.TitleMatchIgnoresCaseAndWordBoundaries` | frontend/src/App.js:64-66 | "batman", "BATMAN" and "atma" all find a movie titled "The Batman" |
| `Scenarios.YearMatchesAsText` | frontend/src/App.js:71 | "19" finds a movie from 2019 and one from 1997 |
| `Scenarios.LeadingSpaceKept` | frontend/src/App.js:64 | the query is not trimmed before matching: " bat" finds "The Batman" through the space in the title |
| `Scenarios.SpaceInQueryIsKept` | frontend/src/App.js:64-72 | a query holding a space finds no movie none of whose text fields holds a space |
| `Scenarios.TrendingFirstPage` | frontend/src/App.js:82-91 | page 1 of size 1 of `trending: [2, 1]` is the movie with id 2, following the row's order and not the list's |
| `Scenarios.GuardSearch` | frontend/src/App.js:63-73 | "guard" finds "Old Guard" and "New Guard" in the order of the movie list |

## Left out

- `frontend/src/components.js` is not part of this model. It is rendering, DOM wiring and video playback, and its few computations work on floating-point time and ratings.
- `backend_test.py` is not part of this model. It is an HTTP client for a backend that is not shown, and it reads a `.env` file.
- The rendering of `App` (frontend/src/App.js:126-277) is not modelled. This includes the loading skeleton, the choice between the search view and the rows, and the fixed list of category rows. Only the row cursor fallback at line 188 is modelled, as `Catalog.RowMovies`.
- The UI toggles `handlePlay`, `handleMoreInfo`, `handleClosePlayer` and `handleCloseModal` (frontend/src/App.js:102-120) are not modelled. They only set presentational state.
- The 1000 ms loading delay and the 300 ms debounce delay are not modelled as time. Loading is the event `LoadData`, and the delay elapsing is the event `FireSearchTimer`.
- `movies.json` is not shown. The movies and categories are parameters of `LoadData`.
- Text.Lower: `toLowerCase` is modelled on ASCII letters only. Other characters, and Unicode case mappings that change length, are kept as they are.
- Catalog.Movie: only the fields the core reads are modelled. Rating, duration, qualities, images and video source are left out. The record has a fixed shape, so a movie with a missing field (which JavaScript tolerates) cannot be expressed.
- Catalog.GetMoviesForCategory: ids, page numbers and page sizes are integers. JavaScript's non-integer, `NaN` and string arguments to `slice` are not modelled. Ids of mixed types cannot be expressed either: a string id `"1"` against a number id `1`, which `===` treats as unequal.
- Text.LowerIncludes, Search.MatchesNarrows, Search.LongerQueryNarrows: these hold for ASCII lower-casing only and do not carry over to JavaScript's `toLowerCase`, which applies the context-sensitive final-sigma rule. `"ΑΣ".toLowerCase()` is `"ας"` while `"Σ".toLowerCase()` is `"σ"`, so a piece of a string need not stay a piece after lower-casing; for a movie titled "ασα", the query "ΑΣ" does not find it and the longer "ΑΣΑ" does.
- Catalog.RepeatedLoadMore: JavaScript numbers are doubles, while the model's integers are unbounded. Past 2^53, `(prev[name] || 1) + 1` stops increasing and `(page - 1) * itemsPerPage` loses precision, so the lemma holds only below that bound, which no reachable cursor comes near.
- Strings are modelled as sequences of Unicode scalar values, not of UTF-16 code units, so a string holding a lone surrogate cannot be expressed.
- Text.IntToDecimal: the year is an integer. `Number.prototype.toString` of a non-integer or exponent-form number is not modelled.
- AppState.TypeThenSettle: it covers one burst of keystrokes followed by one firing of the timer. Other interleavings are covered one step at a time by the contracts of `HandleSearch`, `FireSearchTimer` and the class invariant `Valid`.
