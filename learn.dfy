/** The openings list page (app/learn/page.js): ten openings per page,
    fetched from `/api/openings`, under a pagination bar with previous
    and next controls, a window of at most five page links and an
    ellipsis. */
module Learn {
  import opened Wrappers
  import OpeningsRoute

  type Opening = OpeningsRoute.Opening

  const OpeningsPerPage: int := 10
  /** What the page sets `totalPages` to after a fetch, whatever the
      server reports, and after a failed fetch. */
  const LoadedTotalPages: int := 100
  const FailedTotalPages: int := 1

  const MaxLinks: int := 5
  const MaxNameLength: int := 50
  const KeptNameLength: int := 47

  function Min(a: int, b: int): int { if a <= b then a else b }

  // ---------------------------------------------------------------------
  // Previous and next
  // ---------------------------------------------------------------------

  /** `Math.max(0, page - 1)`: one page back, never below the first. */
  function PrevTarget(page: int): (target: int)
    ensures 0 <= target
    ensures 0 < page ==> target == page - 1
    ensures page <= 0 ==> target == 0
  {
    if page - 1 < 0 then 0 else page - 1
  }

  /** `Math.min(totalPages - 1, page + 1)`: one page forward, never past
      the last. */
  function NextTarget(page: int, totalPages: int): (target: int)
    ensures target <= page + 1 && target <= totalPages - 1
    ensures page + 1 < totalPages ==> target == page + 1
    ensures totalPages <= page + 1 ==> target == totalPages - 1
    ensures 0 <= page < totalPages ==> 0 <= target < totalPages
  {
    Min(totalPages - 1, page + 1)
  }

  /** The previous control is inert on the first page. */
  predicate PrevDisabled(page: int) {
    page == 0
  }

  /** On a page that exists, the previous control is inert exactly when
      clicking it would stay on the same page. */
  lemma PrevDisabledIffNoMove(page: int)
    requires 0 <= page
    ensures PrevDisabled(page) <==> PrevTarget(page) == page
  {
  }

  /** The next control's inert condition as the page is written: the same
      `page === 0` test as the previous control. */
  predicate NextDisabledAsWritten(page: int) {
    page == 0
  }

  /** As written, on the first of 100 pages the next control is inert
      although it would go to page 1, and on the last page it is live
      although it would stay put. */
  lemma NextDisabledAsWrittenIsWrong()
    ensures NextDisabledAsWritten(0) && NextTarget(0, LoadedTotalPages) == 1
    ensures !NextDisabledAsWritten(99) && NextTarget(99, LoadedTotalPages) == 99
  {
  }

  /** The next control's inert condition as evidently intended: on the
      last page. */
  predicate NextDisabled(page: int, totalPages: int) {
    page >= totalPages - 1
  }

  /** On a page that exists, the corrected next control is inert exactly
      when clicking it would stay on the same page. */
  lemma NextDisabledIffNoMove(page: int, totalPages: int)
    requires 0 <= page < totalPages
    ensures NextDisabled(page, totalPages) <==> NextTarget(page, totalPages) == page
  {
  }

  // ---------------------------------------------------------------------
  // The window of page links
  // ---------------------------------------------------------------------

  /** The integers `lo, lo + 1, ..., hi - 1`. */
  function Range(lo: int, hi: int): (r: seq<int>)
    decreases hi - lo
    ensures |r| == if lo <= hi then hi - lo else 0
    ensures forall i :: 0 <= i < |r| ==> r[i] == lo + i
  {
    if hi <= lo then [] else [lo] + Range(lo + 1, hi)
  }

  /** The `pageNumber < totalPages` filter: the numbers below `bound`, in
      their order. */
  function KeepBelow(ns: seq<int>, bound: int): (kept: seq<int>)
    ensures |kept| <= |ns|
    ensures forall n :: n in kept <==> n in ns && n < bound
  {
    if ns == [] then []
    else if ns[0] < bound then [ns[0]] + KeepBelow(ns[1..], bound)
    else KeepBelow(ns[1..], bound)
  }

  /** Filtering a run of consecutive numbers cuts it at the bound. */
  lemma {:induction false} KeepBelowRange(lo: int, hi: int, bound: int)
    ensures KeepBelow(Range(lo, hi), bound) == Range(lo, Min(hi, bound))
    decreases hi - lo
  {
    if lo < hi {
      var r := Range(lo, hi);
      assert r[1..] == Range(lo + 1, hi);
      KeepBelowRange(lo + 1, hi, bound);
      if lo < bound {
        assert Range(lo, Min(hi, bound)) == [lo] + Range(lo + 1, Min(hi, bound));
      }
    }
  }

  /** The first number of the window: two before the current page once
      the current page is past the third and there are more than five
      pages, and 0 otherwise. */
  function WindowStart(page: int, totalPages: int): int {
    if page > 2 && totalPages > MaxLinks then page - 2 else 0
  }

  /** The numbers of the rendered page links: `min(5, totalPages)`
      candidates counted up from the window start, of which those below
      `totalPages` are rendered. */
  function PageNumbers(page: int, totalPages: int): (ns: seq<int>)
    ensures |ns| <= MaxLinks && |ns| <= if totalPages > 0 then totalPages else 0
    ensures forall i :: 0 <= i < |ns| ==> 0 <= ns[i] < totalPages
    ensures forall i :: 0 < i < |ns| ==> ns[i] == ns[i - 1] + 1
    ensures forall i :: 0 <= i < |ns| ==> ns[i] == ns[0] + i
    ensures 0 <= page < totalPages ==> page in ns
    ensures 0 < totalPages <= MaxLinks ==> ns == Range(0, totalPages)
    ensures 0 < totalPages && (page <= 2 || totalPages <= MaxLinks) ==>
              ns == Range(0, Min(MaxLinks, totalPages))
    ensures 2 < page < totalPages && MaxLinks < totalPages ==>
              ns == Range(page - 2, Min(page + 3, totalPages))
    ensures 0 < totalPages ==>
              ns == Range(WindowStart(page, totalPages),
                          Min(WindowStart(page, totalPages) + Min(MaxLinks, totalPages), totalPages))
  {
    if totalPages <= 0 then []
    else
      var start := WindowStart(page, totalPages);
      var end := Min(start + Min(MaxLinks, totalPages), totalPages);
      KeepBelowRange(start, start + Min(MaxLinks, totalPages), totalPages);
      var ns := KeepBelow(Range(start, start + Min(MaxLinks, totalPages)), totalPages);
      assert ns == Range(start, end);
      assert page <= 2 || totalPages <= MaxLinks ==> start == 0 && end == Min(MaxLinks, totalPages);
      assert 2 < page && MaxLinks < totalPages ==> start == page - 2 && end == Min(page + 3, totalPages);
      assert 0 <= page < totalPages ==> ns[page - start] == page;
      ns
  }

  /** A rendered page link: the page it goes to, the number it shows and
      whether it is the current page. */
  datatype PageLink = PageLink(pageNumber: int, shown: int, isActive: bool)

  function PageLinks(page: int, totalPages: int): (links: seq<PageLink>)
    ensures |links| == |PageNumbers(page, totalPages)|
    ensures forall i :: 0 <= i < |links| ==>
              && links[i].pageNumber == PageNumbers(page, totalPages)[i]
              && links[i].shown == links[i].pageNumber + 1
              && (links[i].isActive <==> links[i].pageNumber == page)
  {
    var ns := PageNumbers(page, totalPages);
    seq(|ns|, i requires 0 <= i < |ns| => PageLink(ns[i], ns[i] + 1, ns[i] == page))
  }

  /** On a page that exists, exactly one link is marked current. */
  lemma ExactlyOneActiveLink(page: int, totalPages: int)
    requires 0 <= page < totalPages
    ensures var links := PageLinks(page, totalPages);
            exists k :: 0 <= k < |links| && links[k].isActive
    ensures var links := PageLinks(page, totalPages);
            forall j, k :: 0 <= j < |links| && 0 <= k < |links| && links[j].isActive && links[k].isActive ==> j == k
  {
    var ns := PageNumbers(page, totalPages);
    var links := PageLinks(page, totalPages);
    var k := page - ns[0];
    assert links[k].isActive;
  }

  /** The ellipsis follows the links when there are more than five
      pages. */
  predicate ShowEllipsis(totalPages: int) {
    totalPages > MaxLinks
  }

  /** The ellipsis is shown exactly when some page has no link. */
  lemma EllipsisIffPagesHidden(page: int, totalPages: int)
    requires 0 < totalPages
    ensures ShowEllipsis(totalPages) <==> |PageNumbers(page, totalPages)| < totalPages
  {
  }

  /** The whole pagination bar, with the next control's corrected inert
      condition. */
  datatype PaginationBar = PaginationBar(
    prevTarget: int, prevDisabled: bool,
    links: seq<PageLink>, ellipsis: bool,
    nextTarget: int, nextDisabled: bool)

  function Pagination(page: int, totalPages: int): (bar: PaginationBar)
    ensures 0 <= page ==> (bar.prevDisabled <==> bar.prevTarget == page)
    ensures 0 <= page < totalPages ==> (bar.nextDisabled <==> bar.nextTarget == page)
    ensures 0 <= page < totalPages ==> 0 <= bar.prevTarget < totalPages && 0 <= bar.nextTarget < totalPages
    ensures 0 < totalPages ==> (bar.ellipsis <==> |bar.links| < totalPages)
  {
    PaginationBar(
      PrevTarget(page), PrevDisabled(page),
      PageLinks(page, totalPages), ShowEllipsis(totalPages),
      NextTarget(page, totalPages), NextDisabled(page, totalPages))
  }

  // ---------------------------------------------------------------------
  // Opening names
  // ---------------------------------------------------------------------

  /** A name longer than 50 characters is cut to its first 47 and "...";
      shorter names are shown as they are. */
  function DisplayName(name: string): (shown: string)
    ensures |shown| <= MaxNameLength
    ensures |name| <= MaxNameLength ==> shown == name
    ensures |name| > MaxNameLength ==>
              |shown| == MaxNameLength && shown[..KeptNameLength] == name[..KeptNameLength]
              && shown[KeptNameLength..] == "..."
  {
    if |name| > MaxNameLength then name[..KeptNameLength] + "..." else name
  }

  // ---------------------------------------------------------------------
  // Loading the openings
  // ---------------------------------------------------------------------

  /** `searchParams.get("page") || "0"`: a missing or empty parameter
      reads as "0". */
  function InitialPageText(param: Option<string>): (text: string)
    ensures text != ""
    ensures param.Some? && param.value != "" ==> text == param.value
    ensures param.None? || param == Some("") ==> text == "0"
  {
    FalsyOr(param, "0")
  }

  /** The query string of the request for page `currentPage`. */
  datatype OpeningsQuery = OpeningsQuery(page: int, limit: int)

  /** The page counts from 0 while the API counts from 1. */
  function RequestFor(currentPage: int): (query: OpeningsQuery)
    ensures query.page - 1 == currentPage && query.limit == OpeningsPerPage
  {
    OpeningsQuery(currentPage + 1, OpeningsPerPage)
  }

  /** The request for page `currentPage` (counted from 0) is answered
      with the ten documents from position `10 * currentPage`. */
  lemma RequestServesItsSlice(currentPage: nat, docs: seq<Opening>)
    ensures var query := RequestFor(currentPage);
            var resp := OpeningsRoute.Get(Some(query.page), Some(query.limit), OpeningsRoute.Available(docs));
            && resp.status == 200
            && resp.body.openings == OpeningsRoute.PageSlice(docs, OpeningsPerPage * currentPage, OpeningsPerPage)
  {
    var skip := OpeningsRoute.Skip(currentPage + 1, OpeningsPerPage);
    assert skip == OpeningsPerPage * (skip / OpeningsPerPage) + skip % OpeningsPerPage;
  }

  /** The outcome of `fetch` and `res.json()`: a failure, or the body the
      route answered with (whatever its status, since the page does not
      look at it). */
  datatype FetchReply = FetchFailed | Fetched(response: OpeningsRoute.Response)

  /** `data.openings`: present only in a page body. */
  function OpeningsField(body: OpeningsRoute.Body): (openings: Option<seq<Opening>>)
    ensures openings.Some? <==> body.OpeningsPage?
    ensures openings.Some? ==> openings.value == body.openings
  {
    if body.OpeningsPage? then Some(body.openings) else None
  }

  class LearnPage {
    var openings: Option<seq<Opening>>
    var page: int
    var totalPages: int
    var isLoadingOpenings: bool

    constructor ()
      ensures openings == Some([]) && page == 0 && totalPages == 0 && isLoadingOpenings
    {
      openings := Some([]);
      page := 0;
      totalPages := 0;
      isLoadingOpenings := true;
    }

    /** fetchOpenings: asks for API page `currentPage + 1`; on a reply the
        openings become the body's and `totalPages` 100, on a failure
        `totalPages` becomes 1; the loading flag ends false either way. */
    method FetchOpenings(currentPage: int, reply: FetchReply) returns (query: OpeningsQuery)
      modifies this`openings, this`totalPages, this`isLoadingOpenings
      ensures query == RequestFor(currentPage)
      ensures !isLoadingOpenings
      ensures reply.Fetched? ==>
                openings == OpeningsField(reply.response.body) && totalPages == LoadedTotalPages
      ensures reply.FetchFailed? ==> openings == old(openings) && totalPages == FailedTotalPages
    {
      isLoadingOpenings := true;
      query := RequestFor(currentPage);
      if reply.Fetched? {
        openings := OpeningsField(reply.response.body);
        totalPages := LoadedTotalPages;
      } else {
        totalPages := FailedTotalPages;
      }
      isLoadingOpenings := false;
    }

    /** handlePageChange: the page becomes `newPage` and its openings are
        fetched. */
    method HandlePageChange(newPage: int, reply: FetchReply) returns (query: OpeningsQuery)
      modifies this`page, this`openings, this`totalPages, this`isLoadingOpenings
      ensures page == newPage && query == RequestFor(newPage)
      ensures !isLoadingOpenings
      ensures reply.Fetched? ==>
                openings == OpeningsField(reply.response.body) && totalPages == LoadedTotalPages
      ensures reply.FetchFailed? ==> openings == old(openings) && totalPages == FailedTotalPages
    {
      page := newPage;
      query := FetchOpenings(newPage, reply);
    }

    /** The mount effect: the page comes from the `page` parameter, whose
        text is `InitialPageText`, parsed in base 10 into `parsedPage`,
        and its openings are fetched. */
    method Mount(parsedPage: int, reply: FetchReply) returns (query: OpeningsQuery)
      modifies this`page, this`openings, this`totalPages, this`isLoadingOpenings
      ensures page == parsedPage && query == RequestFor(parsedPage)
      ensures !isLoadingOpenings
      ensures reply.Fetched? ==>
                openings == OpeningsField(reply.response.body) && totalPages == LoadedTotalPages
      ensures reply.FetchFailed? ==> openings == old(openings) && totalPages == FailedTotalPages
    {
      page := parsedPage;
      query := FetchOpenings(parsedPage, reply);
    }
  }
}
