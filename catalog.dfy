/**
 The catalog store: the movie list and the category index loaded once,
 the paginated lookup of a category row, the per-category page cursors
 and the choice of the featured movie.
 */
module Catalog {
  import opened JsArray

  type MovieId = int

  /** A catalog entry, with the fields the catalog code reads. */
  datatype Movie = Movie(
    id: MovieId,
    title: string,
    description: string,
    genre: seq<string>,
    cast: seq<string>,
    director: string,
    year: int)

  /** Category name to the ordered ids of its movies. */
  type Categories = map<string, seq<MovieId>>

  /** Page cursors: category name to the page a row shows. */
  type Cursors = map<string, int>

  /** The page size a row is rendered with. */
  const ItemsPerPage: int := 20

  /** Some movie of the list has this id. */
  predicate Listed(movies: seq<Movie>, id: MovieId) {
    exists i :: 0 <= i < |movies| && movies[i].id == id
  }

  /** `movies.find(movie => movie.id === id)`. */
  function FindMovie(movies: seq<Movie>, id: MovieId): (r: Option<Movie>)
    ensures r.Some? <==> Listed(movies, id)
    ensures r.Some? ==> exists i :: 0 <= i < |movies| && movies[i] == r.value && r.value.id == id
                                     && forall j :: 0 <= j < i ==> movies[j].id != id
  {
    Find(movies, (m: Movie) => m.id == id)
  }

  /** `categories[name] || []`: an unknown category has no ids. */
  function CategoryIds(categories: Categories, name: string): seq<MovieId> {
    if name in categories then categories[name] else []
  }

  /** `ids.map(movieId => movies.find(...))`. */
  function LookUp(movies: seq<Movie>, ids: seq<MovieId>): (found: seq<Option<Movie>>)
    ensures |found| == |ids|
  {
    seq(|ids|, i requires 0 <= i < |ids| => FindMovie(movies, ids[i]))
  }

  predicate IsPresent(o: Option<Movie>) { o.Some? }

  /** `.filter(Boolean)`: keeps the movies that were found, dropping the
      `undefined` left by ids with no movie. */
  function KeepFound(found: seq<Option<Movie>>): seq<Movie> {
    Values(Filter(found, IsPresent))
  }

  /** The movies inside a sequence of found entries. */
  function Values(opts: seq<Option<Movie>>): (r: seq<Movie>)
    requires forall k :: 0 <= k < |opts| ==> opts[k].Some?
    ensures |r| == |opts| && forall k :: 0 <= k < |r| ==> opts[k] == Some(r[k])
  {
    seq(|opts|, k requires 0 <= k < |opts| => opts[k].value)
  }

  /** `getMoviesForCategory(categoryName, page, itemsPerPage)`. */
  function GetMoviesForCategory(movies: seq<Movie>, categories: Categories, name: string,
                                page: int, itemsPerPage: int): (r: seq<Movie>)
    ensures 0 <= itemsPerPage ==> |r| <= itemsPerPage
    ensures name !in categories ==> r == []
    ensures 1 <= page && |CategoryIds(categories, name)| <= (page - 1) * itemsPerPage ==> r == []
    ensures forall k :: 0 <= k < |r| ==> r[k] in movies
  {
    var ids := CategoryIds(categories, name);
    var startIndex := (page - 1) * itemsPerPage;
    var endIndex := startIndex + itemsPerPage;
    var found := LookUp(movies, Slice(ids, startIndex, endIndex));
    var r := KeepFound(found);
    assert forall k :: 0 <= k < |r| ==> r[k] in movies by {
      forall k | 0 <= k < |r| ensures r[k] in movies {
        var kept := Filter(found, IsPresent);
        var i :| 0 <= i < |found| && found[i] == kept[k];
      }
    }
    r
  }

  /** Reference reading of a row: resolve each id in turn to its first
      movie, skipping ids no movie has. */
  function Resolve(movies: seq<Movie>, ids: seq<MovieId>): seq<Movie> {
    if ids == [] then []
    else
      match FindMovie(movies, ids[0])
      case Some(m) => [m] + Resolve(movies, ids[1..])
      case None => Resolve(movies, ids[1..])
  }

  /** Resolving a concatenation resolves each part. */
  lemma {:induction false} ResolveAppend(movies: seq<Movie>, a: seq<MovieId>, b: seq<MovieId>)
    ensures Resolve(movies, a + b) == Resolve(movies, a) + Resolve(movies, b)
  {
    if a == [] {
      assert a + b == b;
    } else {
      assert (a + b)[1..] == a[1..] + b;
      ResolveAppend(movies, a[1..], b);
    }
  }

  /** The `find`/`filter(Boolean)` chain is the reference resolution. */
  lemma {:induction false} KeepFoundIsResolve(movies: seq<Movie>, ids: seq<MovieId>)
    ensures KeepFound(LookUp(movies, ids)) == Resolve(movies, ids)
  {
    if ids != [] {
      var found := LookUp(movies, ids);
      assert found == [FindMovie(movies, ids[0])] + LookUp(movies, ids[1..]);
      KeepFoundCons(FindMovie(movies, ids[0]), LookUp(movies, ids[1..]));
      KeepFoundIsResolve(movies, ids[1..]);
    }
  }

  /** `filter(Boolean)` on a first entry and the rest. */
  lemma KeepFoundCons(o: Option<Movie>, rest: seq<Option<Movie>>)
    ensures KeepFound([o] + rest) == (if o.Some? then [o.value] else []) + KeepFound(rest)
  {
    var entries := [o] + rest;
    assert entries[0] == o && entries[1..] == rest;
    var tail := Filter(rest, IsPresent);
    if o.Some? {
      assert Filter(entries, IsPresent) == [o] + tail;
      assert Values([o] + tail) == [o.value] + Values(tail);
    } else {
      assert Filter(entries, IsPresent) == tail;
    }
  }

  /** The ids a page shows when `page >= 1` and `itemsPerPage >= 0`. */
  function Window(ids: seq<MovieId>, page: int, itemsPerPage: int): seq<MovieId>
    requires 1 <= page && 0 <= itemsPerPage
  {
    Run(ids, (page - 1) * itemsPerPage, itemsPerPage)
  }

  /** The `n` ids from position `start` on, clipped to the end of the list. */
  function Run(ids: seq<MovieId>, start: int, n: nat): seq<MovieId>
    requires 0 <= start
  {
    ids[Min(start, |ids|)..Min(start + n, |ids|)]
  }

  /** A slice with a non-negative start and a length is the clipped run. */
  lemma SliceIsRun(ids: seq<MovieId>, start: int, n: nat)
    requires 0 <= start
    ensures Slice(ids, start, start + n) == Run(ids, start, n)
  {
  }

  /** Page `page` resolves the ids from position `(page-1)*itemsPerPage`,
      `itemsPerPage` of them or up to the end of the category. */
  lemma PageIsResolvedWindow(movies: seq<Movie>, categories: Categories, name: string,
                             page: int, itemsPerPage: int)
    requires 1 <= page && 0 <= itemsPerPage
    ensures GetMoviesForCategory(movies, categories, name, page, itemsPerPage)
         == Resolve(movies, Window(CategoryIds(categories, name), page, itemsPerPage))
  {
    var ids := CategoryIds(categories, name);
    var start := (page - 1) * itemsPerPage;
    var window := Slice(ids, start, start + itemsPerPage);
    SliceIsRun(ids, start, itemsPerPage);
    assert GetMoviesForCategory(movies, categories, name, page, itemsPerPage) == KeepFound(LookUp(movies, window));
    KeepFoundIsResolve(movies, window);
  }

  /** Pages `1..k` of a row, one after the other. */
  function PagesThrough(movies: seq<Movie>, categories: Categories, name: string,
                        k: nat, itemsPerPage: int): seq<Movie>
  {
    if k == 0 then []
    else PagesThrough(movies, categories, name, k - 1, itemsPerPage)
         + GetMoviesForCategory(movies, categories, name, k, itemsPerPage)
  }

  /** The first `m` ids, or all of them when there are fewer. */
  function Prefix(ids: seq<MovieId>, m: nat): seq<MovieId> {
    ids[..Min(m, |ids|)]
  }

  /** Resolving a prefix of the ids, then the run that follows it, resolves
      the longer prefix. */
  lemma ResolvePrefixStep(movies: seq<Movie>, ids: seq<MovieId>, start: nat, n: nat)
    ensures Resolve(movies, Prefix(ids, start + n))
         == Resolve(movies, Prefix(ids, start)) + Resolve(movies, Run(ids, start, n))
  {
    assert Prefix(ids, start + n) == Prefix(ids, start) + Run(ids, start, n);
    ResolveAppend(movies, Prefix(ids, start), Run(ids, start, n));
  }

  /** How many ids pages `1..k` of size `itemsPerPage` cover, counted page by page. */
  function Covered(k: nat, itemsPerPage: nat): nat {
    if k == 0 then 0 else Covered(k - 1, itemsPerPage) + itemsPerPage
  }

  lemma {:induction false} CoveredIsProduct(k: nat, itemsPerPage: nat)
    ensures Covered(k, itemsPerPage) == k * itemsPerPage
  {
    if k > 0 {
      CoveredIsProduct(k - 1, itemsPerPage);
    }
  }

  /** Pages `1..k` are pages `1..k-1` followed by the resolved run of page `k`. */
  lemma PagesThroughStep(movies: seq<Movie>, categories: Categories, name: string,
                         k: nat, itemsPerPage: nat)
    requires k > 0
    ensures PagesThrough(movies, categories, name, k, itemsPerPage)
         == PagesThrough(movies, categories, name, k - 1, itemsPerPage)
            + Resolve(movies, Run(CategoryIds(categories, name), Covered(k - 1, itemsPerPage), itemsPerPage))
  {
    CoveredIsProduct(k - 1, itemsPerPage);
    PageIsResolvedWindow(movies, categories, name, k, itemsPerPage);
  }

  /** The ids of pages `1..k`, each resolved, one after the other. */
  function ResolvedPages(movies: seq<Movie>, ids: seq<MovieId>, k: nat, n: nat): seq<Movie> {
    if k == 0 then []
    else ResolvedPages(movies, ids, k - 1, n) + Resolve(movies, Run(ids, Covered(k - 1, n), n))
  }

  /** Resolving page after page resolves the covered prefix of the ids. */
  lemma {:induction false} ResolvedPagesCover(movies: seq<Movie>, ids: seq<MovieId>, k: nat, n: nat)
    ensures ResolvedPages(movies, ids, k, n) == Resolve(movies, Prefix(ids, Covered(k, n)))
    decreases k
  {
    if k == 0 {
      assert Prefix(ids, 0) == [];
    } else {
      ResolvedPagesCover(movies, ids, k - 1, n);
      ResolvePrefixStep(movies, ids, Covered(k - 1, n), n);
    }
  }

  /** The rows `getMoviesForCategory` serves, page after page, are the resolved pages. */
  lemma {:induction false} PagesAreResolvedPages(movies: seq<Movie>, categories: Categories, name: string,
                                                 k: nat, itemsPerPage: nat)
    ensures PagesThrough(movies, categories, name, k, itemsPerPage)
         == ResolvedPages(movies, CategoryIds(categories, name), k, itemsPerPage)
    decreases k
  {
    if k > 0 {
      var ids := CategoryIds(categories, name);
      var page := Resolve(movies, Run(ids, Covered(k - 1, itemsPerPage), itemsPerPage));
      PagesAreResolvedPages(movies, categories, name, k - 1, itemsPerPage);
      PagesThroughStep(movies, categories, name, k, itemsPerPage);
      assert ResolvedPages(movies, ids, k, itemsPerPage) == ResolvedPages(movies, ids, k - 1, itemsPerPage) + page;
    }
  }

  /** Pages `1..k` together are the first `k * itemsPerPage` ids of the
      category resolved to movies, dangling ids left out. */
  lemma PagesConcatenate(movies: seq<Movie>, categories: Categories, name: string,
                         k: nat, itemsPerPage: nat)
    ensures var ids := CategoryIds(categories, name);
      PagesThrough(movies, categories, name, k, itemsPerPage)
        == Resolve(movies, ids[..Min(k * itemsPerPage, |ids|)])
  {
    PagesAreResolvedPages(movies, categories, name, k, itemsPerPage);
    ResolvedPagesCover(movies, CategoryIds(categories, name), k, itemsPerPage);
    CoveredIsProduct(k, itemsPerPage);
  }

  /** A page lists, in category order, the first movie of each of its ids
      that some movie has, and skips exactly the ids no movie has. */
  lemma PageFollowsCategoryOrder(movies: seq<Movie>, categories: Categories, name: string,
                                 page: int, itemsPerPage: int)
    ensures
      var ids := CategoryIds(categories, name);
      var start := (page - 1) * itemsPerPage;
      var window := Slice(ids, start, start + itemsPerPage);
      var pos := IndicesWhere(LookUp(movies, window), IsPresent);
      var r := GetMoviesForCategory(movies, categories, name, page, itemsPerPage);
      && |r| == |pos|
      && StrictlyIncreasing(pos)
      && (forall k :: 0 <= k < |r| ==> pos[k] < |window| && Some(r[k]) == FindMovie(movies, window[pos[k]]))
      && (forall j :: 0 <= j < |window| ==> (j in pos <==> Listed(movies, window[j])))
  {
    var ids := CategoryIds(categories, name);
    var start := (page - 1) * itemsPerPage;
    var window := Slice(ids, start, start + itemsPerPage);
    var found := LookUp(movies, window);
    FilterIsSubsequence(found, IsPresent);
    var pos := IndicesWhere(found, IsPresent);
    assert forall j :: 0 <= j < |window| ==> (IsPresent(found[j]) <==> Listed(movies, window[j]));
  }

  /** `currentPage[name] || 1`: a missing (or zero) cursor reads as page 1. */
  function PageOr1(cursors: Cursors, name: string): int {
    if name in cursors && cursors[name] != 0 then cursors[name] else 1
  }

  /** The updater `loadMoreMovies` hands to `setCurrentPage`:
      `{...prev, [name]: (prev[name] || 1) + 1}`. */
  function BumpCursor(prev: Cursors, name: string): (next: Cursors)
    ensures name in next && next[name] == PageOr1(prev, name) + 1
    ensures forall other :: other != name ==> (other in next <==> other in prev)
    ensures forall other :: other != name && other in prev ==> next[other] == prev[other]
  {
    prev[name := PageOr1(prev, name) + 1]
  }

  /** `k` successive "load more" actions on one row. */
  function BumpTimes(cursors: Cursors, name: string, k: nat): Cursors {
    if k == 0 then cursors else BumpCursor(BumpTimes(cursors, name, k - 1), name)
  }

  /** Cursors are the positive page numbers the code stores. */
  predicate PositiveCursors(cursors: Cursors) {
    forall c :: c in cursors ==> cursors[c] >= 1
  }

  /** "Load more" keeps every cursor a positive page number. */
  lemma BumpKeepsPositive(cursors: Cursors, name: string)
    requires PositiveCursors(cursors)
    ensures PositiveCursors(BumpCursor(cursors, name))
  {
  }

  /** After `k` "load more" actions a row shows page `k` further on, and
      every other row still shows its page. */
  lemma {:induction false} RepeatedLoadMore(cursors: Cursors, name: string, k: nat)
    requires PositiveCursors(cursors)
    ensures PositiveCursors(BumpTimes(cursors, name, k))
    ensures PageOr1(BumpTimes(cursors, name, k), name) == PageOr1(cursors, name) + k
    ensures forall other :: other != name ==> PageOr1(BumpTimes(cursors, name, k), other) == PageOr1(cursors, other)
  {
    if k > 0 {
      RepeatedLoadMore(cursors, name, k - 1);
    }
  }

  /** The cursors `Object.keys(categories).forEach(c => initialPages[c] = 1)` builds. */
  function InitialPages(categories: Categories): (pages: Cursors)
    ensures pages.Keys == categories.Keys
    ensures PositiveCursors(pages)
    ensures forall name :: PageOr1(pages, name) == 1
  {
    map c | c in categories :: 1
  }

  /** The row a category shows: its cursor's page (page 1 without one),
      `ItemsPerPage` movies at most. */
  function RowMovies(movies: seq<Movie>, categories: Categories, cursors: Cursors, name: string): (r: seq<Movie>)
    ensures |r| <= ItemsPerPage
  {
    GetMoviesForCategory(movies, categories, name, PageOr1(cursors, name), ItemsPerPage)
  }

  /** Right after loading, every row shows the first `ItemsPerPage` ids of
      its category, resolved. */
  lemma FirstRowsAfterLoad(movies: seq<Movie>, categories: Categories, name: string)
    ensures var ids := CategoryIds(categories, name);
      RowMovies(movies, categories, InitialPages(categories), name)
        == Resolve(movies, ids[..Min(ItemsPerPage, |ids|)])
  {
    PageIsResolvedWindow(movies, categories, name, 1, ItemsPerPage);
  }

  /** The featured movie: the first movie whose id is the first id of the
      `featured` category when that category has ids, otherwise the first
      movie of the list (nothing when there is none). */
  function FeaturedMovie(movies: seq<Movie>, categories: Categories): (r: Option<Movie>)
    ensures var f := CategoryIds(categories, "featured");
      |f| > 0 ==>
        && (r.Some? <==> Listed(movies, f[0]))
        && (r.Some? ==> exists i :: 0 <= i < |movies| && movies[i] == r.value && r.value.id == f[0]
                                    && forall j :: 0 <= j < i ==> movies[j].id != f[0])
    ensures var f := CategoryIds(categories, "featured");
      |f| == 0 ==> (r.Some? <==> |movies| > 0) && (r.Some? ==> r.value == movies[0])
  {
    if "featured" in categories && |categories["featured"]| > 0 then
      FindMovie(movies, categories["featured"][0])
    else if |movies| > 0 then Some(movies[0])
    else None
  }
}
