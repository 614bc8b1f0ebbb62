/**
 * The search endpoint (src/routes/api.js, GET /search): the page size
 * clamp, the query check that answers 400 without searching, the choice
 * between a keyword search and a next-page request, and the projection of
 * the search library's items into the response. The search library is a
 * parameter: a function from the call made to what the call returned, or
 * to the fact that it threw.
 */
module SearchRoute {
  import opened Wrappers
  import opened JsText
  import opened JsArray

  /** `Math.max(1, Math.min(parseInt(req.query.limit || '12', 10), 50))`; NaN passes through both. */
  function ClampLimit(limit: Option<string>): JsInt
  {
    match ParseInt(Or(limit, "12"), Radix10)
    case NaN => NaN
    case Num(n) =>
      var m := if n < 50 then n else 50;
      Num(if m > 1 then m else 1)
  }

  /** A page size is NaN exactly when `parseInt` reads no digit, and otherwise lies in [1, 50]. */
  lemma ClampLimitBounds(limit: Option<string>)
    ensures ClampLimit(limit).NaN? <==> ParseInt(Or(limit, "12"), Radix10).NaN?
    ensures ClampLimit(limit).Num? ==> 1 <= ClampLimit(limit).value <= 50
    ensures ClampLimit(limit).Num? && 1 <= ParseInt(Or(limit, "12"), Radix10).value <= 50 ==>
      ClampLimit(limit) == ParseInt(Or(limit, "12"), Radix10)
  {
  }

  /** A decimal limit is its value, brought into [1, 50]. */
  lemma ClampLimitOfDigits(d: string)
    requires |d| > 0 && AllDigits(d)
    ensures var n := DigitsValue(d, 10);
      ClampLimit(Some(d)) == Num(if n > 50 then 50 else if n < 1 then 1 else n)
  {
    ParseIntOfDigits(d, "", Radix10);
    assert d + "" == d;
  }

  /** A missing or empty limit gives pages of 12. */
  lemma ClampLimitDefault(limit: Option<string>)
    requires !Truthy(limit)
    ensures ClampLimit(limit) == Num(12)
  {
    ParseTwelve("12");
  }

  lemma ParseTwelve(d: string)
    requires d == ['1'] + ['2']
    ensures ParseInt(d, Radix10) == Num(12)
  {
    ParseIntOfDigits(d, "", Radix10);
    assert d + "" == d;
    DigitsValueStep(['1'], '2');
    DigitsValueStep([], '1');
  }

  /** `!q || q.trim().length === 0` */
  predicate QueryMissing(q: Option<string>)
  {
    !Truthy(q) || |Trim(q.value)| == 0
  }

  /** The query is rejected exactly when it is absent or consists of white space only. */
  lemma QueryMissingIff(q: Option<string>)
    ensures QueryMissing(q) <==> q.None? || AllSpace(q.value)
  {
    if q.Some? {
      TrimEmptyIff(q.value);
    }
  }

  /** The two calls into the search library. */
  datatype SearchCall =
    | ByKeyword(keyword: string, limit: JsInt)
    | NextPage(nextPageToken: string, nextPageContext: Option<string>, limit: JsInt)

  /**
   * One item of the library's answer, reduced to the fields the endpoint
   * reads; each is absent when the item (or an object on the way to it)
   * lacks it. `firstThumbnailUrl` is `thumbnail.thumbnails[0].url`,
   * `thumbnailUrl` is `thumbnail.url`, and the last three are the
   * `simpleText` of `length`, `viewCount` and `publishedTimeText`.
   */
  datatype Item = Item(
    id: Option<string>,
    title: Option<string>,
    firstThumbnailUrl: Option<string>,
    thumbnailUrl: Option<string>,
    channelTitle: Option<string>,
    length: Option<string>,
    viewCount: Option<string>,
    publishedTimeText: Option<string>)

  /** What the library returned: its items and its next-page token and context, when present. */
  datatype SearchResults = SearchResults(items: Option<seq<Item>>, nextPageToken: Option<string>, nextPageContext: Option<string>)

  /** A library call either throws or returns a value, which may be null. */
  datatype Reply = Threw | Returned(results: Option<SearchResults>)

  /** One entry of the response's `results`. */
  datatype Video = Video(
    id: Option<string>,
    title: Option<string>,
    thumbnail: Option<string>,
    channel: Option<string>,
    duration: string,
    views: string,
    published: string)

  datatype SearchResponse =
    | Found(query: string, results: seq<Video>, pageToken: Option<string>, pageContext: Option<string>, limit: JsInt, hasMore: bool)
    | Failed(status: int, error: string, message: string)

  /** `a || b` on optional strings. */
  function OrElse(a: Option<string>, b: Option<string>): Option<string>
  {
    if Truthy(a) then a else b
  }

  /** `v || null` */
  function NullIfFalsy(v: Option<string>): Option<string>
  {
    if Truthy(v) then v else None
  }

  /** The `map` callback of the projection. */
  function ToVideo(item: Item): Video
  {
    Video(
      item.id,
      item.title,
      OrElse(item.firstThumbnailUrl, item.thumbnailUrl),
      item.channelTitle,
      Or(item.length, "N/A"),
      Or(item.viewCount, "N/A"),
      Or(item.publishedTimeText, "N/A"))
  }

  predicate VideoHasId(v: Video)
  {
    Truthy(v.id)
  }

  predicate ItemHasId(item: Item)
  {
    Truthy(item.id)
  }

  /** `items.map(item => ({ … })).filter(v => v.id)` */
  function Project(items: seq<Item>): seq<Video>
  {
    Filter(Map(items, ToVideo), VideoHasId)
  }

  /**
   * The projection keeps the items with an id, in their order, one video
   * each; every video has an id, and its duration, views and publication
   * text are never empty ('N/A' stands in for a missing one).
   */
  lemma ProjectSpec(items: seq<Item>)
    ensures Project(items) == Map(Filter(items, ItemHasId), ToVideo)
    ensures |Project(items)| == |Filter(items, ItemHasId)|
    ensures forall v | v in Project(items) :: Truthy(v.id) && v.duration != "" && v.views != "" && v.published != ""
  {
    FilterOfMap(items, ToVideo, VideoHasId, ItemHasId);
  }

  /** `searchResults?.items || []` */
  function ItemsOf(results: Option<SearchResults>): seq<Item>
  {
    if results.Some? && results.value.items.Some? then results.value.items.value else []
  }

  /** The call the handler makes: the next page when a token was given, else a keyword search. */
  function CallFor(query: string, limit: JsInt, pageToken: Option<string>, pageContext: Option<string>): SearchCall
  {
    if Truthy(pageToken) then NextPage(pageToken.value, pageContext, limit) else ByKeyword(query, limit)
  }

  /** The response to a valid query once the library has answered. */
  function ResponseFor(query: string, limit: JsInt, reply: Reply): SearchResponse
  {
    match reply
    case Threw => Failed(500, "Error en la búsqueda", "Ocurrió un error al buscar videos")
    case Returned(results) =>
      var nextPageToken := if results.Some? then NullIfFalsy(results.value.nextPageToken) else None;
      var nextPageContext := if results.Some? then NullIfFalsy(results.value.nextPageContext) else None;
      Found(query, Project(ItemsOf(results)), nextPageToken, nextPageContext, limit, Truthy(nextPageToken))
  }

  /**
   * A reply that did not throw gives a page of results: the projected
   * items, with `hasMore` set exactly when a non-empty next-page token is
   * passed back; a reply that threw gives 500.
   */
  lemma ResponseForSpec(query: string, limit: JsInt, reply: Reply)
    ensures var r := ResponseFor(query, limit, reply);
      && (r.Found? <==> reply.Returned?)
      && (r.Failed? ==> r.status == 500)
      && (r.Found? ==> r.query == query && r.limit == limit && r.results == Project(ItemsOf(reply.results)))
      && (r.Found? ==> (r.hasMore <==> r.pageToken.Some?))
      && (r.Found? && r.pageToken.Some? ==> r.pageToken.value != "")
      && (r.Found? ==> (r.hasMore <==> reply.results.Some? && Truthy(reply.results.value.nextPageToken)))
  {
  }

  /**
   * The GET /search handler. `calls` lists the calls made into the search
   * library: none when the query is missing, else exactly one.
   */
  method Search(q: Option<string>, limitParam: Option<string>, pageTokenParam: Option<string>,
                pageContext: Option<string>, search: SearchCall -> Reply)
    returns (response: SearchResponse, calls: seq<SearchCall>)
    ensures QueryMissing(q) ==>
      && calls == []
      && response == Failed(400, "Parámetro de búsqueda requerido", "Debe proporcionar un término de búsqueda válido")
    ensures !QueryMissing(q) ==>
      && calls == [CallFor(q.value, ClampLimit(limitParam), pageTokenParam, pageContext)]
      && response == ResponseFor(q.value, ClampLimit(limitParam), search(calls[0]))
  {
    var limit := ClampLimit(limitParam);
    var pageToken := NullIfFalsy(pageTokenParam);
    if !Truthy(q) || |Trim(q.value)| == 0 {
      return Failed(400, "Parámetro de búsqueda requerido", "Debe proporcionar un término de búsqueda válido"), [];
    }
    var call;
    if pageToken.Some? {
      call := NextPage(pageToken.value, pageContext, limit);
    } else {
      call := ByKeyword(q.value, limit);
    }
    calls := [call];
    var reply := search(call);
    if reply.Threw? {
      return Failed(500, "Error en la búsqueda", "Ocurrió un error al buscar videos"), calls;
    }
    var items := ItemsOf(reply.results);
    var videos := Filter(Map(items, ToVideo), VideoHasId);
    var nextPageToken := if reply.results.Some? then NullIfFalsy(reply.results.value.nextPageToken) else None;
    var nextPageContext := if reply.results.Some? then NullIfFalsy(reply.results.value.nextPageContext) else None;
    var hasMore := nextPageToken.Some?;
    response := Found(q.value, videos, nextPageToken, nextPageContext, limit, hasMore);
  }
}
