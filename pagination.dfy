/** Pagination of the list views. `home` and `recommendations` page one list;
    `search` pages two lists (matched users and matched posts, comments and
    replies) with a single page number. Page numbers come from Flask's
    `<int:page>` route converter, which only accepts non-negative integers,
    so `page` is a `nat` and the default page is 1. */
module Pagination {
  import opened Common

  /** `ITEMS_PER_PAGE`: the number of items shown on one page. */
  const ItemsPerPage: nat := 16

  /** The Python slice `s[i:j]` for non-negative bounds: both bounds are
      clamped to `|s|`, and a start at or past the end gives `[]`. */
  function Slice<T>(s: seq<T>, i: nat, j: nat): (r: seq<T>)
    ensures |r| == (if i < Min(j, |s|) then Min(j, |s|) - i else 0)
    ensures forall k :: 0 <= k < |r| ==> i + k < |s| && r[k] == s[i + k]
  {
    var lo := Min(i, |s|);
    var hi := Min(j, |s|);
    if lo < hi then s[lo..hi] else []
  }

  /** Slice indices and neighbour pages for one list. */
  datatype Window = Window(start: nat, end: nat, prevPage: Option<nat>, nextPage: Option<nat>)

  /** What one page of a single list hands to the template. */
  datatype Page<T> = Page(items: seq<T>, prevPage: Option<nat>, nextPage: Option<nat>)

  /** The window `home` and `recommendations` compute for page `page` of a
      list of `len` items. */
  function ListWindow(page: nat, len: nat): Window
  {
    var start := if page <= 1 then 0 else (page - 1) * ItemsPerPage;
    var prevPage := if page <= 1 then None else Some(page - 1);
    var end := page * ItemsPerPage;
    if end >= len then Window(start, len, prevPage, None)
    else Window(start, end, prevPage, Some(page + 1))
  }

  /** The `feed[start:end]`, `prev_page` and `next_page` passed to the template. */
  function ListPage<T>(items: seq<T>, page: nat): Page<T>
  {
    var w := ListWindow(page, |items|);
    Page(Slice(items, w.start, w.end), w.prevPage, w.nextPage)
  }

  /** The boundary rules: the first page has no previous page and starts at
      0; the end is clamped to the list length; there is no next page
      exactly when the unclamped end reaches the length. */
  lemma ListWindowBounds(page: nat, len: nat)
    ensures var w := ListWindow(page, len);
      && (page <= 1 ==> w.start == 0 && w.prevPage == None)
      && (page > 1 ==> w.start == (page - 1) * ItemsPerPage && w.prevPage == Some(page - 1))
      && w.end == Min(page * ItemsPerPage, len)
      && (w.nextPage == None <==> page * ItemsPerPage >= len)
      && (w.nextPage != None ==> w.nextPage == Some(page + 1))
  {
  }

  /** A page shows at most `ItemsPerPage` items: the run of the list that
      starts at `(page - 1) * ItemsPerPage`; page 0 and pages past the end
      show nothing. */
  lemma ListPageShape<T>(items: seq<T>, page: nat)
    ensures |ListPage(items, page).items| <= ItemsPerPage
    ensures page == 0 ==> ListPage(items, page).items == []
    ensures page >= 1 ==> ListPage(items, page).items
                          == items[Min((page - 1) * ItemsPerPage, |items|)..Min(page * ItemsPerPage, |items|)]
    ensures (page - 1) * ItemsPerPage >= |items| ==> ListPage(items, page).items == []
  {
    var w := ListWindow(page, |items|);
    var shown := ListPage(items, page).items;
    if page >= 1 {
      var lo := Min((page - 1) * ItemsPerPage, |items|);
      var hi := Min(page * ItemsPerPage, |items|);
      assert |shown| == hi - lo;
      assert forall k :: 0 <= k < |shown| ==> shown[k] == items[lo..hi][k];
    }
  }

  /** Pages 1 to `k`, one after the other. */
  function PagesUpTo<T>(items: seq<T>, k: nat): seq<T>
  {
    if k == 0 then [] else PagesUpTo(items, k - 1) + ListPage(items, k).items
  }

  lemma PrefixThenSlice<T>(items: seq<T>, lo: nat, hi: nat)
    requires lo <= hi <= |items|
    ensures items[..lo] + items[lo..hi] == items[..hi]
  {
  }

  /** Consecutive pages tile the list: pages 1 to `k` together are exactly
      its first `k * ItemsPerPage` items, with no gap and no repetition. */
  lemma {:induction false} ListPagesTile<T>(items: seq<T>, k: nat)
    ensures PagesUpTo(items, k) == items[..Min(k * ItemsPerPage, |items|)]
  {
    if k > 0 {
      var lo := Min((k - 1) * ItemsPerPage, |items|);
      var hi := Min(k * ItemsPerPage, |items|);
      assert lo <= hi;
      ListPagesTile(items, k - 1);
      assert PagesUpTo(items, k - 1) == items[..lo];
      ListPageShape(items, k);
      assert ListPage(items, k).items == items[lo..hi];
      PrefixThenSlice(items, lo, hi);
    }
  }

  /** On a real page, a next page is offered exactly when it has something to show. */
  lemma ListNextPageIffMore<T>(items: seq<T>, page: nat)
    requires page >= 1
    ensures ListPage(items, page).nextPage.Some? <==> ListPage(items, page + 1).items != []
  {
    ListPageShape(items, page + 1);
  }

  /** The previous page of a non-empty page links forward to it again. */
  lemma ListPrevPageLinksBack<T>(items: seq<T>, page: nat)
    requires ListPage(items, page).items != []
    ensures ListPage(items, page).prevPage.Some? ==>
              var q := ListPage(items, page).prevPage.value;
              q == page - 1 && q >= 1 && ListPage(items, q).nextPage == Some(page)
  {
    ListPageShape(items, page);
  }

  /** Slice indices for both lists of `search` and the neighbour pages. */
  datatype SearchWindow = SearchWindow(
    usersStart: nat, usersEnd: nat, pcrsStart: nat, pcrsEnd: nat,
    prevPage: Option<nat>, nextPage: Option<nat>)

  /** What one page of `search` hands to the template. */
  datatype SearchPage<U, P> = SearchPage(users: seq<U>, pcrs: seq<P>, prevPage: Option<nat>, nextPage: Option<nat>)

  /** The window `search` computes, as written: ends are clamped to the list
      lengths, negative starts to 0, there is no next page once both lists
      are exhausted, and there is no previous page when the users start and
      the pcrs END are both at most 0. */
  function SearchWindowAt(page: nat, usersLen: nat, pcrsLen: nat): SearchWindow
  {
    var usersStart: int := (page - 1) * ItemsPerPage;
    var usersEnd: int := page * ItemsPerPage;
    var pcrsStart: int := (page - 1) * ItemsPerPage;
    var pcrsEnd: int := page * ItemsPerPage;
    var usersEnd' := if usersEnd >= usersLen then usersLen else usersEnd;
    var usersStart' := if usersStart < 0 then 0 else usersStart;
    var pcrsEnd' := if pcrsEnd >= pcrsLen then pcrsLen else pcrsEnd;
    var pcrsStart' := if pcrsStart < 0 then 0 else pcrsStart;
    var nextPage := if usersEnd' >= usersLen && pcrsEnd' >= pcrsLen then None else Some(page + 1);
    var prevPage := if usersStart' <= 0 && pcrsEnd' <= 0 then None else Some(page - 1);
    SearchWindow(usersStart', usersEnd', pcrsStart', pcrsEnd', prevPage, nextPage)
  }

  function Search<U, P>(users: seq<U>, pcrs: seq<P>, page: nat): SearchPage<U, P>
  {
    var w := SearchWindowAt(page, |users|, |pcrs|);
    SearchPage(Slice(users, w.usersStart, w.usersEnd), Slice(pcrs, w.pcrsStart, w.pcrsEnd), w.prevPage, w.nextPage)
  }

  /** Each list's end lies in `[0, len]`: `page * 16` lowered to the length.
      Each start is `(page - 1) * 16` raised to 0; it is not lowered, so on
      pages beyond a list it passes that list's end, and the slice is empty. */
  lemma SearchWindowClamped(page: nat, usersLen: nat, pcrsLen: nat)
    ensures var w := SearchWindowAt(page, usersLen, pcrsLen);
      && w.usersStart == Max((page - 1) * ItemsPerPage, 0)
      && w.usersEnd == Min(page * ItemsPerPage, usersLen) <= usersLen
      && w.pcrsStart == Max((page - 1) * ItemsPerPage, 0)
      && w.pcrsEnd == Min(page * ItemsPerPage, pcrsLen) <= pcrsLen
  {
  }

  /** There is no next page exactly when both windows have reached the end
      of their lists, that is, when the longer list is exhausted. */
  lemma SearchNextPage(page: nat, usersLen: nat, pcrsLen: nat)
    ensures var w := SearchWindowAt(page, usersLen, pcrsLen);
      && (w.nextPage == None <==> w.usersEnd >= usersLen && w.pcrsEnd >= pcrsLen)
      && (w.nextPage == None <==> page * ItemsPerPage >= Max(usersLen, pcrsLen))
      && (w.nextPage != None ==> w.nextPage == Some(page + 1))
  {
  }

  /** As written, the previous page is missing only on page 0, and on page 1
      when no post, comment or reply matched. */
  lemma SearchPrevPage(page: nat, usersLen: nat, pcrsLen: nat)
    ensures var w := SearchWindowAt(page, usersLen, pcrsLen);
      && (w.prevPage == None <==> page == 0 || (page == 1 && pcrsLen == 0))
      && (w.prevPage != None ==> w.prevPage == Some(page - 1))
  {
  }

  /** Each of the two lists on a search page is paged exactly as `home`
      pages a single list, so everything proved about `ListPage` (at most 16
      items, tiling) holds for both. */
  lemma {:induction false} SearchListsPageLikeHome<U, P>(users: seq<U>, pcrs: seq<P>, page: nat)
    ensures Search(users, pcrs, page).users == ListPage(users, page).items
    ensures Search(users, pcrs, page).pcrs == ListPage(pcrs, page).items
  {
    var r := Search(users, pcrs, page);
    if page >= 1 {
      ListPageShape(users, page);
      ListPageShape(pcrs, page);
      var w := SearchWindowAt(page, |users|, |pcrs|);
      assert r.users == users[Min((page - 1) * ItemsPerPage, |users|)..Min(page * ItemsPerPage, |users|)];
      assert r.pcrs == pcrs[Min((page - 1) * ItemsPerPage, |pcrs|)..Min(page * ItemsPerPage, |pcrs|)];
    }
  }

  /** On a real page, a next page is offered exactly when it shows at least
      one user or at least one post, comment or reply. */
  lemma SearchNextPageIffMore<U, P>(users: seq<U>, pcrs: seq<P>, page: nat)
    requires page >= 1
    ensures Search(users, pcrs, page).nextPage.Some? <==>
              Search(users, pcrs, page + 1).users != [] || Search(users, pcrs, page + 1).pcrs != []
  {
    SearchListsPageLikeHome(users, pcrs, page + 1);
    ListPageShape(users, page + 1);
    ListPageShape(pcrs, page + 1);
  }

  /** The defect in the as-written rule: on page 1 with at least one matched
      post, comment or reply, `prev_page` is 0, and page 0 shows nothing. */
  lemma SearchFirstPageOffersPageZero<U, P>(users: seq<U>, pcrs: seq<P>)
    requires pcrs != []
    ensures Search(users, pcrs, 1).prevPage == Some(0)
    ensures Search(users, pcrs, 0).users == [] && Search(users, pcrs, 0).pcrs == []
  {
  }

  /** The evidently intended rule: test both starts, as `home` does with `page <= 1`. */
  function IntendedSearchWindowAt(page: nat, usersLen: nat, pcrsLen: nat): SearchWindow
  {
    var w := SearchWindowAt(page, usersLen, pcrsLen);
    w.(prevPage := if w.usersStart <= 0 && w.pcrsStart <= 0 then None else Some(page - 1))
  }

  /** With the intended rule the previous page is missing exactly on the
      first page, any previous page is a real page, and the windows and the
      next page are those of the as-written rule. */
  lemma IntendedSearchPrevPage(page: nat, usersLen: nat, pcrsLen: nat)
    ensures var w := IntendedSearchWindowAt(page, usersLen, pcrsLen);
      && (w.prevPage == None <==> page <= 1)
      && (w.prevPage != None ==> w.prevPage == Some(page - 1) && page - 1 >= 1)
      && w.(prevPage := None) == SearchWindowAt(page, usersLen, pcrsLen).(prevPage := None)
  {
  }
}
