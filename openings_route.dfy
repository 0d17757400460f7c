/** The `GET /api/openings` handler (app/api/openings/route.js): one page
    of the "moves" collection, with the page number, the page size and
    the number of pages. */
module OpeningsRoute {
  import opened Wrappers

  /** A document of the "moves" collection. */
  datatype Opening = Opening(id: string, name: string, fen: string)

  /** The database as the handler sees it: the collection in its natural
      order, or a failure with its error message. */
  datatype Db = Available(moves: seq<Opening>) | Failing(error: string)

  datatype Body =
    | Message(message: string)
    | ServerError(message: string, error: string)
    | OpeningsPage(openings: seq<Opening>, currentPage: int, totalPages: int, openingsPerPage: int)

  datatype Response = Response(status: int, body: Body)

  const DefaultPage: int := 1
  const DefaultLimit: int := 10

  /** `parseInt(param) || fallback`, where `None` is the NaN that parseInt
      gives for a missing or non-numeric parameter: NaN and 0 are falsy,
      so both fall back. */
  function OrDefault(parsed: Option<int>, fallback: int): (v: int)
    ensures parsed.Some? && parsed.value != 0 ==> v == parsed.value
    ensures parsed.None? || parsed == Some(0) ==> v == fallback
    ensures fallback != 0 ==> v != 0
  {
    if parsed.None? || parsed.value == 0 then fallback else parsed.value
  }

  /** The number of documents before page `page`. */
  function Skip(page: int, limit: int): (skip: nat)
    requires 1 <= page && 1 <= limit
    ensures skip % limit == 0 && skip / limit == page - 1
  {
    var k: nat := page - 1;
    MulDivMod(k, limit);
    k * limit
  }

  lemma MulDivMod(k: nat, d: int)
    requires 1 <= d
    ensures k * d >= 0 && (k * d) % d == 0 && (k * d) / d == k
  {
    var q, r := (k * d) / d, (k * d) % d;
    assert k * d == q * d + r;
    DivisionUnique(k * d, d, k, 0);
  }

  /** Euclidean division has a unique quotient and remainder. */
  lemma DivisionUnique(n: int, d: int, q: int, r: int)
    requires 1 <= d && n == q * d + r && 0 <= r < d
    ensures n / d == q && n % d == r
  {
    var q', r' := n / d, n % d;
    assert (q' - q) * d == r - r' by {
      assert q' * d + r' == q * d + r;
    }
    if q' < q {
      PositiveMultiple(q - q', d);
    } else if q' > q {
      PositiveMultiple(q' - q, d);
    }
  }

  lemma {:induction false} PositiveMultiple(k: int, d: int)
    requires 1 <= k && 1 <= d
    ensures k * d >= d
  {
    if k > 1 {
      PositiveMultiple(k - 1, d);
      assert k * d == (k - 1) * d + d;
    }
  }

  /** `Math.ceil(total / limit)`: the fewest pages of `limit` documents
      that hold `total` documents. */
  function CeilDiv(total: nat, limit: int): (pages: nat)
    requires 1 <= limit
    ensures pages * limit >= total
    ensures 0 < total ==> (pages - 1) * limit < total
    ensures total == 0 ==> pages == 0
  {
    var q := (total + limit - 1) / limit;
    var r := (total + limit - 1) % limit;
    assert total + limit - 1 == q * limit + r;
    assert total == 0 ==> q == 0 by {
      if total == 0 { DivisionUnique(limit - 1, limit, 0, limit - 1); }
    }
    q
  }

  /** `.skip(skip).limit(limit)` on the collection: at most `limit`
      documents, taken in order from position `skip`. */
  function PageSlice(docs: seq<Opening>, skip: nat, limit: nat): (page: seq<Opening>)
    ensures |page| <= limit
    ensures |page| == if skip + limit <= |docs| then limit
                      else if skip <= |docs| then |docs| - skip else 0
    ensures forall i :: 0 <= i < |page| ==> page[i] == docs[skip + i]
  {
    if skip >= |docs| then []
    else if skip + limit <= |docs| then docs[skip..skip + limit]
    else docs[skip..]
  }

  /** The handler, from the parsed `page` and `limit` query parameters
      (`None` for NaN) and the database. */
  function Get(pageParam: Option<int>, limitParam: Option<int>, db: Db): (resp: Response)
    ensures resp.status in {200, 400, 500}
    ensures resp.status == 400 <==>
              OrDefault(pageParam, DefaultPage) < 1 || OrDefault(limitParam, DefaultLimit) < 1
    ensures resp.status == 400 ==> resp.body == Message("Invalid page or limit parameter")
    ensures resp.status == 500 <==> resp.status != 400 && db.Failing?
    ensures resp.status == 500 ==> resp.body == ServerError("Internal Server Error", db.error)
    ensures resp.status == 200 ==>
              && db.Available?
              && resp.body.OpeningsPage?
              && resp.body.currentPage == OrDefault(pageParam, DefaultPage) >= 1
              && resp.body.openingsPerPage == OrDefault(limitParam, DefaultLimit) >= 1
              && |resp.body.openings| <= resp.body.openingsPerPage
              && resp.body.openings == PageSlice(db.moves, Skip(resp.body.currentPage, resp.body.openingsPerPage),
                                                 resp.body.openingsPerPage)
              && resp.body.totalPages * resp.body.openingsPerPage >= |db.moves|
              && (|db.moves| > 0 ==> (resp.body.totalPages - 1) * resp.body.openingsPerPage < |db.moves|)
              && (|db.moves| == 0 ==> resp.body.totalPages == 0)
  {
    var page := OrDefault(pageParam, DefaultPage);
    var openingsPerPage := OrDefault(limitParam, DefaultLimit);
    if page < 1 || openingsPerPage < 1 then
      Response(400, Message("Invalid page or limit parameter"))
    else
      match db
      case Failing(error) => Response(500, ServerError("Internal Server Error", error))
      case Available(moves) =>
        var skip := Skip(page, openingsPerPage);
        var openings := PageSlice(moves, skip, openingsPerPage);
        var totalPages := CeilDiv(|moves|, openingsPerPage);
        Response(200, OpeningsPage(openings, page, totalPages, openingsPerPage))
  }

  /** The pages partition the collection: document `i` is on page
      `i / limit + 1`, which is one of the `totalPages` pages, at position
      `i % limit`. */
  lemma {:induction false} EveryOpeningOnItsPage(docs: seq<Opening>, limit: int, i: nat)
    requires 1 <= limit && i < |docs|
    ensures var page := i / limit + 1;
            var resp := Get(Some(page), Some(limit), Available(docs));
            && resp.status == 200
            && page <= resp.body.totalPages
            && i % limit < |resp.body.openings|
            && resp.body.openings[i % limit] == docs[i]
  {
    var q, r := i / limit, i % limit;
    var page := q + 1;
    assert i == q * limit + r;
    var skip := Skip(page, limit);
    assert skip == q * limit by {
      MulDivMod(q, limit);
      DivisionUnique(skip, limit, q, 0);
    }
    var total := CeilDiv(|docs|, limit);
    assert page <= total by {
      if total < page {
        assert total <= q;
        MonotoneProduct(total, q, limit);
      }
    }
  }

  lemma MonotoneProduct(a: int, b: int, d: int)
    requires a <= b && 0 <= d
    ensures a * d <= b * d
  {
    assert b * d - a * d == (b - a) * d;
  }
}
