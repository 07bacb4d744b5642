/** getEventsAttendedByUser: request page 1, derive the page count from its
    envelope, then request pages 2 .. pages in order and append each page's
    setlists to page 1's. One HTTP round trip (URL building, headers, the
    call, reading and decoding the body) is the parameter `fetch`, a function
    from a request to the envelope decoded from its answer. */
module Fetcher {
  import opened SetlistTypes
  import Decimal
  import Pagination

  const Endpoint: string := "attended"

  /** What distinguishes one request from another: the URL path and the
      value of the query parameter `p`. */
  datatype Request = Request(path: string, p: string)

  function PageRequest(user: string, page: nat): Request {
    Request("rest/1.0/user/" + user + "/" + Endpoint, Decimal.Itoa(page))
  }

  /** The page number a request asks for, read back from its query. */
  function RequestedPage(r: Request): Option<nat> {
    if |r.p| >= 1 && Decimal.AllDigits(r.p) then Some(Decimal.Value(r.p)) else None
  }

  lemma RequestedPageOf(user: string, page: nat)
    ensures RequestedPage(PageRequest(user, page)) == Some(page)
  {
    Decimal.PadValue(page, 1);
  }

  /** The first envelope, decoded twice from the same body in the source. */
  function FirstPage(fetch: Request -> ResponseSetlist, user: string): ResponseSetlist {
    fetch(PageRequest(user, 1))
  }

  function Pages(fetch: Request -> ResponseSetlist, user: string): int
    requires FirstPage(fetch, user).ItemsPerPage != 0
  {
    var first := FirstPage(fetch, user);
    Pagination.PageCount(first.Total, first.ItemsPerPage)
  }

  /** The requests issued when the count is `pages`: page 1, then 2 .. pages. */
  function Requests(user: string, pages: int): seq<Request> {
    if pages <= 1 then [PageRequest(user, 1)]
    else Requests(user, pages - 1) + [PageRequest(user, pages)]
  }

  /** The setlists of pages 2 .. pages, in page order. */
  function LaterSetlists(fetch: Request -> ResponseSetlist, user: string, pages: int): seq<SetlistObject> {
    if pages <= 1 then []
    else LaterSetlists(fetch, user, pages - 1) + fetch(PageRequest(user, pages)).Setlist
  }

  /** The value getEventsAttendedByUser returns: page 1's envelope with the
      later pages' setlists appended. */
  function Aggregate(fetch: Request -> ResponseSetlist, user: string): ResponseSetlist
    requires FirstPage(fetch, user).ItemsPerPage != 0
  {
    var first := FirstPage(fetch, user);
    first.(Setlist := first.Setlist + LaterSetlists(fetch, user, Pages(fetch, user)))
  }

  method GetEventsAttendedByUser(user: string, fetch: Request -> ResponseSetlist)
    returns (events: ResponseSetlist, requests: seq<Request>)
    requires FirstPage(fetch, user).ItemsPerPage != 0
    ensures events == Aggregate(fetch, user)
    ensures requests == Requests(user, Pages(fetch, user))
  {
    var page := 1;
    var pagination := fetch(PageRequest(user, page));
    requests := [PageRequest(user, page)];
    var pages := Pagination.PageCount(pagination.Total, pagination.ItemsPerPage);
    var mainData := pagination;
    page := 2;
    while page <= pages
      invariant 2 <= page <= if pages < 2 then 2 else pages + 1
      invariant mainData == pagination.(Setlist := pagination.Setlist + LaterSetlists(fetch, user, page - 1))
      invariant requests == Requests(user, page - 1)
    {
      var tempData := fetch(PageRequest(user, page));
      requests := requests + [PageRequest(user, page)];
      mainData := mainData.(Setlist := mainData.Setlist + tempData.Setlist);
      page := page + 1;
    }
    events := mainData;
  }

  /** Pages are requested in strictly ascending order 1, 2, .., pages, each
      once, always on the user's "attended" path; a count of 1 or less means
      page 1 alone. */
  lemma {:induction false} RequestsAscending(user: string, pages: int)
    ensures |Requests(user, pages)| == if pages <= 1 then 1 else pages
    ensures forall i :: 0 <= i < |Requests(user, pages)| ==>
      Requests(user, pages)[i].path == "rest/1.0/user/" + user + "/attended" &&
      RequestedPage(Requests(user, pages)[i]) == Some(i + 1)
  {
    if pages <= 1 {
      RequestedPageOf(user, 1);
    } else {
      RequestsAscending(user, pages - 1);
      RequestedPageOf(user, pages);
    }
  }

  lemma RequestsDistinct(user: string, pages: int)
    ensures forall i, j :: 0 <= i < j < |Requests(user, pages)| ==>
      Requests(user, pages)[i] != Requests(user, pages)[j]
  {
    RequestsAscending(user, pages);
  }

  /** The envelope fields are page 1's; only the setlists are accumulated. */
  lemma AggregateEnvelope(fetch: Request -> ResponseSetlist, user: string)
    requires FirstPage(fetch, user).ItemsPerPage != 0
    ensures var first, events := FirstPage(fetch, user), Aggregate(fetch, user);
      events.Type == first.Type && events.ItemsPerPage == first.ItemsPerPage &&
      events.Page == first.Page && events.Total == first.Total &&
      events.Setlist[..|first.Setlist|] == first.Setlist
  {
  }

  /** The number of items a server holding `total` items serves on page k
      when it serves `itemsPerPage` per page. */
  function ServedOnPage(total: int, itemsPerPage: int, k: int): int {
    var left := total - (k - 1) * itemsPerPage;
    if left >= itemsPerPage then itemsPerPage else if left > 0 then left else 0
  }

  /** Every requested page holds as many setlists as the first envelope's
      totals say it should. */
  predicate ServesTotal(fetch: Request -> ResponseSetlist, user: string)
    requires FirstPage(fetch, user).ItemsPerPage != 0
  {
    var first := FirstPage(fetch, user);
    first.Total >= 0 && first.ItemsPerPage > 0 &&
    forall k: nat :: 1 <= k <= Pages(fetch, user) ==>
      |fetch(PageRequest(user, k)).Setlist| == ServedOnPage(first.Total, first.ItemsPerPage, k)
  }

  lemma {:induction false} AggregatePrefixCount(fetch: Request -> ResponseSetlist, user: string, n: int)
    requires FirstPage(fetch, user).ItemsPerPage != 0 && ServesTotal(fetch, user)
    requires 1 <= n <= Pages(fetch, user)
    ensures var first := FirstPage(fetch, user);
      |first.Setlist| + |LaterSetlists(fetch, user, n)| ==
        if n * first.ItemsPerPage <= first.Total then n * first.ItemsPerPage else first.Total
  {
    var first := FirstPage(fetch, user);
    if n > 1 {
      AggregatePrefixCount(fetch, user, n - 1);
      assert n * first.ItemsPerPage == (n - 1) * first.ItemsPerPage + first.ItemsPerPage;
      assert |fetch(PageRequest(user, n)).Setlist| == ServedOnPage(first.Total, first.ItemsPerPage, n);
    } else {
      assert |first.Setlist| == ServedOnPage(first.Total, first.ItemsPerPage, 1);
    }
  }

  /** Against a server that serves its pages as the first envelope
      announces, the aggregate holds exactly `Total` setlists: the extra page
      on an exact multiple is empty. (RequestsDistinct shows that no page is
      requested twice.) */
  lemma AggregateHoldsTotal(fetch: Request -> ResponseSetlist, user: string)
    requires FirstPage(fetch, user).ItemsPerPage != 0 && ServesTotal(fetch, user)
    ensures |Aggregate(fetch, user).Setlist| == FirstPage(fetch, user).Total
  {
    var first := FirstPage(fetch, user);
    Pagination.PageCountCovers(first.Total, first.ItemsPerPage);
    AggregatePrefixCount(fetch, user, Pages(fetch, user));
  }
}
