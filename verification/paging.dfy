/** The pagination shared by `GET /classes` and `GET /forum-posts`:
    `page = parseInt(req.query.page) || 1`, `skip = (page - 1) * 6`,
    `limit 6`, `totalPages = Math.ceil(total / 6)`. */
module Paging {
  import opened Wrappers
  import opened Seqs

  const PageSize: nat := 6

  /** `parseInt(req.query.page) || 1`. `parsed` is what `parseInt` returned,
      None standing for NaN; NaN and 0 are the falsy numbers that fall back
      to page 1. Negative pages pass through. */
  function PageNumber(parsed: Option<int>): (page: int)
    ensures page != 0
    ensures parsed.Some? && parsed.value != 0 ==> page == parsed.value
    ensures parsed.None? || parsed.value == 0 ==> page == 1
  {
    match parsed
    case None => 1
    case Some(n) => if n == 0 then 1 else n
  }

  /** `Math.ceil(total / 6)`: the fewest pages of six that hold `total` items. */
  function TotalPages(total: nat): (n: nat)
    ensures n * PageSize >= total
    ensures n == 0 || (n - 1) * PageSize < total
    ensures n == 0 <==> total == 0
  {
    (total + PageSize - 1) / PageSize
  }

  /** `.skip(skip).limit(6)` over items already in listing order. */
  function Window<T>(items: seq<T>, skip: nat): (w: seq<T>)
    ensures |w| <= PageSize
    ensures skip >= |items| ==> w == []
    ensures skip < |items| ==> |w| == Min(PageSize, |items| - skip)
    ensures forall k :: 0 <= k < |w| ==> w[k] == items[skip + k]
  {
    if skip >= |items| then [] else items[skip..Min(skip + PageSize, |items|)]
  }

  /** The body of a listing: the page's items, `totalPages` and `currentPage`. */
  datatype PageView<T> = PageView(items: seq<T>, totalPages: nat, currentPage: int)

  /** One page of `ordered`. None when the page number is negative: the skip
      is then negative, MongoDB refuses the query and, as neither listing
      route catches the error, no reply is sent. */
  function Paginate<T>(ordered: seq<T>, parsed: Option<int>): (r: Option<PageView<T>>)
    ensures r.None? <==> PageNumber(parsed) < 1
    ensures r.Some? ==>
              var page := r.value.currentPage;
              var skip := (page - 1) * PageSize;
              && page == PageNumber(parsed) && page >= 1
              && r.value.totalPages == TotalPages(|ordered|)
              && |r.value.items| <= PageSize
              && (skip < |ordered| ==> |r.value.items| == Min(PageSize, |ordered| - skip))
              && (skip >= |ordered| ==> r.value.items == [])
              && forall k :: 0 <= k < |r.value.items| ==> r.value.items[k] == ordered[skip + k]
  {
    var page := PageNumber(parsed);
    if page < 1 then None
    else Some(PageView(Window(ordered, (page - 1) * PageSize), TotalPages(|ordered|), page))
  }

  /** Pages 1 to `n` laid end to end. */
  function PagesUpTo<T>(items: seq<T>, n: nat): seq<T>
  {
    if n == 0 then [] else PagesUpTo(items, n - 1) + Window(items, (n - 1) * PageSize)
  }

  /** The first `n` pages are the first `6 n` items (or all of them). */
  lemma {:induction false} PagesArePrefixes<T>(items: seq<T>, n: nat)
    ensures PagesUpTo(items, n) == items[..Min(n * PageSize, |items|)]
  {
    if n > 0 {
      PagesArePrefixes(items, n - 1);
      var lo := Min((n - 1) * PageSize, |items|);
      var hi := Min(n * PageSize, |items|);
      var w := Window(items, (n - 1) * PageSize);
      assert w == items[lo..hi];
      assert items[..lo] + items[lo..hi] == items[..hi];
    }
  }

  /** Walking pages 1 to `totalPages` lists every item exactly once, in order. */
  lemma PagesCoverListing<T>(items: seq<T>)
    ensures PagesUpTo(items, TotalPages(|items|)) == items
  {
    PagesArePrefixes(items, TotalPages(|items|));
    assert items[..|items|] == items;
  }

  /** The item at position `k` of the listing is item `k % 6` of page `k / 6 + 1`. */
  lemma ItemPage<T>(items: seq<T>, k: nat)
    requires k < |items|
    ensures var page := k / PageSize + 1;
      var w := Window(items, (page - 1) * PageSize);
      k % PageSize < |w| && w[k % PageSize] == items[k]
  {
  }

  /** A page past `totalPages` is empty. */
  lemma PagePastEndIsEmpty<T>(items: seq<T>, page: int)
    requires page > TotalPages(|items|)
    ensures Window(items, (page - 1) * PageSize) == []
  {
    var n := TotalPages(|items|);
    assert (page - 1) * PageSize >= n * PageSize;
  }

  /** Ten items: page 2 holds the last four, and there are two pages. */
  lemma TenItemsSecondPage<T>(items: seq<T>)
    requires |items| == 10
    ensures var r := Paginate(items, Some(2));
      r.Some? && r.value.items == items[6..] && r.value.totalPages == 2 && r.value.currentPage == 2
  {
  }

  /** A missing, unparsable or zero `page` shows the first page. */
  lemma DefaultIsFirstPage<T>(items: seq<T>, parsed: Option<int>)
    requires parsed.None? || parsed.value == 0
    ensures Paginate(items, parsed) == Paginate(items, Some(1))
  {
  }
}
