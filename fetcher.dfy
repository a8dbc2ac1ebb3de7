/**
 * One call to the review API, seen from the client: the HTTP exchange and
 * the JSON decoding are replaced by the response they produce.
 */
module PageFetcher {
  import opened Wrappers
  import opened Reviews

  /** The client's default cap on the records it takes from one page. */
  const BATCH_SIZE: int := 50

  const HTTP_OK: int := 200

  /**
   * What the API answered to one request: the HTTP status and, when the body
   * decoded, its "reviews" array (`None` when the key is absent).
   */
  datatype Response = Response(status: int, reviews: Option<seq<RawReview>>)

  function Min(a: int, b: int): int { if a <= b then a else b }
  function Max(a: int, b: int): int { if a <= b then b else a }

  /** Python's `s[:n]`: a negative `n` counts from the end. */
  function SliceTo<T>(s: seq<T>, n: int): (p: seq<T>)
    ensures |p| <= |s| && p == s[..|p|]
    ensures n >= 0 ==> |p| == Min(n, |s|)
    ensures n < 0 ==> |p| == Max(0, |s| + n)
  {
    if n >= 0 then s[..Min(n, |s|)] else s[..Max(0, |s| + n)]
  }

  /**
   * The page `fetch_g2_reviews` hands back for a response: nothing on a
   * non-200 status, otherwise the first `batchSize` records of the array
   * (an absent array reads as empty).
   */
  function FetchPage(response: Response, batchSize: int): (page: seq<RawReview>)
    ensures response.status != HTTP_OK ==> page == []
    ensures response.status == HTTP_OK ==>
              var all := response.reviews.GetOr([]);
              |page| <= |all| && page == all[..|page|] && (batchSize >= 0 ==> |page| == Min(batchSize, |all|))
  {
    if response.status != HTTP_OK then []
    else SliceTo(response.reviews.GetOr([]), batchSize)
  }

  /** With the default batch size no page holds more than 50 records. */
  lemma PageWithinBatch(response: Response)
    ensures |FetchPage(response, BATCH_SIZE)| <= 50
  {
  }
}
