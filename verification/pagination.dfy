/** Page arithmetic: the hand-written pagination of the activity feed
    (backend/app/users/routes.py) and the page window `paginate` returns. */
module Pagination {

  /** Python `//`: floor division (Dafny's `/` is Euclidean). */
  function FloorDiv(a: int, b: int): (q: int)
    requires b != 0
    ensures b > 0 ==> b * q <= a < b * q + b
    ensures b < 0 ==> b * q >= a > b * q + b
  {
    if b > 0 then a / b else (-a) / (-b)
  }

  /** Python's normalisation of one slice bound against a length. */
  function SliceBound(i: int, len: nat): (r: nat)
    ensures r <= len
    ensures 0 <= i <= len ==> r == i
  {
    if i < 0 then (if i + len < 0 then 0 else i + len)
    else if i > len then len
    else i
  }

  /** Python `s[start:end]` with step 1, including negative bounds. */
  function PySlice<T>(s: seq<T>, start: int, end: int): (r: seq<T>)
    ensures |r| <= |s|
  {
    var lo := SliceBound(start, |s|);
    var hi := SliceBound(end, |s|);
    if lo < hi then s[lo..hi] else []
  }

  /** Items `[(page-1)*perPage, page*perPage)` of `s`, clipped to `|s|`. */
  function Window<T>(s: seq<T>, page: int, perPage: int): (r: seq<T>)
    requires page >= 1 && perPage >= 1
    ensures |r| <= perPage
  {
    var lo := if (page - 1) * perPage < |s| then (page - 1) * perPage else |s|;
    var hi := if page * perPage < |s| then page * perPage else |s|;
    assert lo <= hi by {
      assert (page - 1) * perPage <= page * perPage;
    }
    assert hi - lo <= perPage by {
      assert page * perPage - (page - 1) * perPage == perPage;
    }
    s[lo..hi]
  }

  datatype Page<T> = Page(items: seq<T>, total: nat, pages: int, current: int)

  /** Either the page, or the `ZeroDivisionError` a `per_page` of 0 raises. */
  datatype PageResult<T> = ZeroDivision | Paged(page: Page<T>)

  /** The activity feed's page: `activities[start:end]`, `total`, and
      `(total + per_page - 1) // per_page` pages, for any integers. */
  function ActivityPage<T>(acts: seq<T>, page: int, perPage: int): (r: PageResult<T>)
    ensures r.ZeroDivision? <==> perPage == 0
    ensures r.Paged? ==> r.page.total == |acts| && r.page.current == page
    ensures r.Paged? ==> |r.page.items| <= |acts|
  {
    if perPage == 0 then ZeroDivision
    else
      var start := (page - 1) * perPage;
      var end := start + perPage;
      Paged(Page(PySlice(acts, start, end), |acts|,
                 FloorDiv(|acts| + perPage - 1, perPage), page))
  }

  /** For `per_page >= 1`, `pages` is the ceiling of `total / per_page`. */
  lemma PagesIsCeiling<T>(acts: seq<T>, page: int, perPage: int)
    requires perPage >= 1
    ensures var p := ActivityPage(acts, page, perPage).page.pages;
            0 <= p && |acts| <= p * perPage < |acts| + perPage
  {
  }

  /** For `page >= 1` and `per_page >= 1` the page holds exactly the clipped
      window `[(page-1)*per_page, page*per_page)`. */
  lemma PageIsWindow<T>(acts: seq<T>, page: int, perPage: int)
    requires page >= 1 && perPage >= 1
    ensures ActivityPage(acts, page, perPage).page.items == Window(acts, page, perPage)
  {
    var start := (page - 1) * perPage;
    MulStep(page, perPage);
    assert ActivityPage(acts, page, perPage).page.items == PySlice(acts, start, start + perPage);
    var lo := SliceBound(start, |acts|);
    var hi := SliceBound(start + perPage, |acts|);
    assert lo == if start < |acts| then start else |acts|;
    assert hi == if page * perPage < |acts| then page * perPage else |acts|;
  }

  /** The window's bounds: `(page-1)*perPage` is a natural number and the
      next page starts `perPage` later. */
  lemma MulStep(page: int, perPage: int)
    requires page >= 1 && perPage >= 1
    ensures (page - 1) * perPage >= 0
    ensures (page - 1) * perPage + perPage == page * perPage
  {
  }

  /** Pages `1..n` laid end to end. */
  function PagesUpTo<T>(acts: seq<T>, perPage: int, n: nat): seq<T>
    requires perPage >= 1
  {
    if n == 0 then [] else PagesUpTo(acts, perPage, n - 1) + Window(acts, n, perPage)
  }

  /** The first `n` pages are exactly the first `n * per_page` items. */
  lemma {:induction false} PagesUpToIsPrefix<T>(acts: seq<T>, perPage: int, n: nat)
    requires perPage >= 1
    ensures PagesUpTo(acts, perPage, n) == acts[..if n * perPage < |acts| then n * perPage else |acts|]
  {
    if n > 0 {
      PagesUpToIsPrefix(acts, perPage, n - 1);
      assert (n - 1) * perPage + perPage == n * perPage;
      var lo := if (n - 1) * perPage < |acts| then (n - 1) * perPage else |acts|;
      var hi := if n * perPage < |acts| then n * perPage else |acts|;
      assert acts[..lo] + acts[lo..hi] == acts[..hi];
    }
  }

  /** The pages partition the feed: pages `1..pages` concatenated give back
      every activity once, in order. */
  lemma PagesPartitionFeed<T>(acts: seq<T>, perPage: int)
    requires perPage >= 1
    ensures var p := ActivityPage(acts, 1, perPage).page.pages;
            p >= 0 && PagesUpTo(acts, perPage, p) == acts
  {
    var p := ActivityPage(acts, 1, perPage).page.pages;
    PagesIsCeiling(acts, 1, perPage);
    PagesUpToIsPrefix(acts, perPage, p);
  }
}
