/**
 * The date-bounded paginated collector (`fetch_reviews_in_date_range`).
 *
 * The API is the sequence of responses it gives to successive requests; a
 * request past the end of that sequence gets an empty page. The window
 * bounds are timestamps: the caller passes the midnights of the window's
 * first and last days.
 *
 * The reference definition works on the stream of records the collector
 * could read, the pages up to the first empty one laid end to end:
 * `Collected` cuts that stream at the first record older than the window
 * start, keeps the records inside the window and normalises them.
 * `Collect` is the page loop itself, proved to compute that value.
 */
module Collector {
  import opened Wrappers
  import opened Reviews
  import opened PageFetcher

  /** The record parsed and lies before the window start: the collector stops here. */
  predicate IsOld(r: RawReview, start: Timestamp) {
    r.stamp.Some? && r.stamp.value < start
  }

  /** The record parsed and lies inside the window, both bounds included. */
  predicate InWindow(r: RawReview, start: Timestamp, end: Timestamp) {
    r.stamp.Some? && start <= r.stamp.value <= end
  }

  predicate NoOld(s: seq<RawReview>, start: Timestamp) {
    forall j :: 0 <= j < |s| ==> !IsOld(s[j], start)
  }

  /** The position of the first old record of `s`, or `|s|` when there is none. */
  function StopIndex(s: seq<RawReview>, start: Timestamp): (n: nat)
    ensures n <= |s|
    ensures NoOld(s[..n], start)
    ensures n < |s| ==> IsOld(s[n], start)
  {
    if s == [] then 0
    else if IsOld(s[0], start) then 0
    else
      var m := StopIndex(s[1..], start);
      assert s[..1 + m] == [s[0]] + s[1..][..m];
      1 + m
  }

  /** The three facts `StopIndex` ensures pin its value down. */
  lemma StopIndexUnique(s: seq<RawReview>, n: nat, start: Timestamp)
    requires n <= |s|
    requires NoOld(s[..n], start)
    requires n < |s| ==> IsOld(s[n], start)
    ensures StopIndex(s, start) == n
  {
  }

  /** The in-window records of `s`, in their order in `s`. */
  function Kept(s: seq<RawReview>, start: Timestamp, end: Timestamp): (k: seq<RawReview>)
    ensures |k| <= |s|
    ensures forall j :: 0 <= j < |k| ==> InWindow(k[j], start, end) && k[j] in s
  {
    if s == [] then []
    else
      var init := s[..|s| - 1];
      var last := s[|s| - 1];
      assert forall x :: x in init ==> x in s;
      Kept(init, start, end) + (if InWindow(last, start, end) then [last] else [])
  }

  /** Each record of `s`, normalised; every record of `s` must have a parsed timestamp. */
  function NormalizeAll(company: string, s: seq<RawReview>): seq<Review>
    requires forall j :: 0 <= j < |s| ==> s[j].stamp.Some?
  {
    seq(|s|, j requires 0 <= j < |s| => Normalize(company, s[j], s[j].stamp.value))
  }

  /** What the collector returns when it reads the record stream `s`. */
  function Collected(company: string, s: seq<RawReview>, start: Timestamp, end: Timestamp): seq<Review> {
    NormalizeAll(company, Kept(s[..StopIndex(s, start)], start, end))
  }

  /** The page the `k`-th request (counting from 0) returns. */
  function Page(responses: seq<Response>, k: nat): seq<RawReview> {
    if k < |responses| then FetchPage(responses[k], BATCH_SIZE) else []
  }

  /** The page each response serves, one request per response. */
  function Served(responses: seq<Response>): seq<seq<RawReview>> {
    seq(|responses|, k requires 0 <= k < |responses| => Page(responses, k))
  }

  /** The pages laid end to end. */
  function Flatten(pages: seq<seq<RawReview>>): seq<RawReview> {
    if pages == [] then []
    else Flatten(pages[..|pages| - 1]) + pages[|pages| - 1]
  }

  /** The position of the first empty page, or `|pages|` when there is none. */
  function FirstEmpty(pages: seq<seq<RawReview>>): (n: nat)
    ensures n <= |pages|
    ensures forall j :: 0 <= j < n ==> pages[j] != []
    ensures n < |pages| ==> pages[n] == []
  {
    if pages == [] || pages[0] == [] then 0
    else 1 + FirstEmpty(pages[1..])
  }

  /** The records the collector can read: every page before the first empty one. */
  function Stream(responses: seq<Response>): seq<RawReview> {
    var pages := Served(responses);
    Flatten(pages[..FirstEmpty(pages)])
  }

  /** The reference result of the collector on the API `responses`. */
  function Expected(company: string, responses: seq<Response>, start: Timestamp, end: Timestamp): seq<Review> {
    Collected(company, Stream(responses), start, end)
  }

  // ------------------------------------------------------------------
  // The page loop
  // ------------------------------------------------------------------

  /** The offsets of the first `n` requests: each is the number of records on the pages before it. */
  function Offsets(pages: seq<seq<RawReview>>, n: nat): (offsets: seq<nat>)
    requires n <= |pages| + 1
  {
    seq(n, j requires 0 <= j < n => |Flatten(pages[..j])|)
  }

  /**
   * The number of requests the collector makes: it goes on while the pages
   * are non-empty and hold no old record, and stops after the first page
   * that is empty or holds an old record (a request past the last page
   * gets an empty page).
   */
  function RequestCount(pages: seq<seq<RawReview>>, start: Timestamp): (n: nat)
    ensures 1 <= n <= |pages| + 1
    ensures forall j :: 0 <= j < n - 1 ==> pages[j] != [] && NoOld(pages[j], start)
    ensures n - 1 < |pages| ==> pages[n - 1] == [] || !NoOld(pages[n - 1], start)
  {
    if pages == [] || pages[0] == [] || !NoOld(pages[0], start) then 1
    else 1 + RequestCount(pages[1..], start)
  }

  /** The pages before `k` were all read to the end. */
  ghost predicate ReadThrough(pages: seq<seq<RawReview>>, k: nat, start: Timestamp)
    requires k <= |pages|
  {
    forall j :: 0 <= j < k ==> pages[j] != [] && NoOld(pages[j], start)
  }

  /**
   * `fetch_reviews_in_date_range`: request pages from offset 0 on, stop at
   * an empty page, return as soon as a page holds a record older than
   * `start`, and advance the offset by the length of each page. `offsets`
   * lists the offset of every request made, in order.
   */
  method Collect(company: string, responses: seq<Response>, start: Timestamp, end: Timestamp)
    returns (reviews: seq<Review>, offsets: seq<nat>)
    ensures reviews == Expected(company, responses, start, end)
    ensures |offsets| == RequestCount(Served(responses), start)
    ensures offsets == Offsets(Served(responses), |offsets|)
  {
    ghost var pages := Served(responses);
    ghost var seen: seq<RawReview> := [];
    reviews, offsets := [], [];
    var offset: nat := 0;
    var k := 0;
    while true
      invariant 0 <= k <= |responses|
      invariant seen == Flatten(pages[..k])
      invariant offset == |seen|
      invariant offsets == Offsets(pages, k)
      invariant ReadThrough(pages, k, start)
      invariant NoOld(seen, start)
      invariant reviews == Collected(company, seen, start, end)
      decreases |responses| - k
    {
      var page := if k < |responses| then FetchPage(responses[k], BATCH_SIZE) else [];
      assert k < |pages| ==> page == pages[k];
      OffsetsSnoc(pages, k);
      offsets := offsets + [offset];
      if page == [] {
        EndOnEmptyPage(company, responses, k, start, end);
        RequestCountAt(pages, k, start);
        return;
      }
      var stopped;
      reviews, stopped := ScanPage(company, page, start, end, reviews);
      CollectedAppend(company, seen, page, start, end);
      FlattenSnoc(pages, k);
      if stopped {
        StopOnPage(company, responses, k, start, end);
        RequestCountAt(pages, k, start);
        return;
      }
      NoOldAppend(seen, page, start);
      ReadThroughSnoc(pages, k, start);
      seen := seen + page;
      offset := offset + |page|;
      k := k + 1;
    }
  }

  /**
   * The inner loop of the collector over one page: skip a record whose
   * timestamp did not parse, stop on a record older than `start`, append a
   * record inside [start, end] to `acc`, and drop a newer one. `stopped`
   * says whether an old record was met.
   */
  method ScanPage(company: string, page: seq<RawReview>, start: Timestamp, end: Timestamp, acc: seq<Review>)
    returns (reviews: seq<Review>, stopped: bool)
    ensures reviews == acc + Collected(company, page, start, end)
    ensures stopped <==> !NoOld(page, start)
  {
    reviews := acc;
    for i := 0 to |page|
      invariant NoOld(page[..i], start)
      invariant reviews == acc + NormalizeAll(company, Kept(page[..i], start, end))
    {
      var r := page[i];
      assert page[..i + 1] == page[..i] + [r];
      KeptSnoc(page[..i], r, start, end);
      if r.stamp.Some? {
        var t := r.stamp.value;
        if t < start {
          assert StopIndex(page, start) == i;
          return reviews, true;
        }
        if start <= t <= end {
          NormalizeAllSnoc(company, Kept(page[..i], start, end), r);
          reviews := reviews + [Normalize(company, r, t)];
        }
      }
    }
    assert page[..|page|] == page;
    stopped := false;
  }

  // ------------------------------------------------------------------
  // Helper lemmas for the loop
  // ------------------------------------------------------------------

  lemma KeptSnoc(s: seq<RawReview>, r: RawReview, start: Timestamp, end: Timestamp)
    ensures Kept(s + [r], start, end) == Kept(s, start, end) + (if InWindow(r, start, end) then [r] else [])
  {
    assert (s + [r])[..|s|] == s;
  }

  lemma NormalizeAllSnoc(company: string, s: seq<RawReview>, r: RawReview)
    requires forall j :: 0 <= j < |s| ==> s[j].stamp.Some?
    requires r.stamp.Some?
    ensures NormalizeAll(company, s + [r]) == NormalizeAll(company, s) + [Normalize(company, r, r.stamp.value)]
  {
  }

  lemma FlattenSnoc(pages: seq<seq<RawReview>>, k: nat)
    requires k < |pages|
    ensures Flatten(pages[..k + 1]) == Flatten(pages[..k]) + pages[k]
  {
    assert pages[..k + 1][..k] == pages[..k];
  }

  /** Flattening distributes over splitting the page list at `a`. */
  lemma {:induction false} FlattenSplit(pages: seq<seq<RawReview>>, a: nat, b: nat)
    requires a <= b <= |pages|
    ensures Flatten(pages[..b]) == Flatten(pages[..a]) + Flatten(pages[a..b])
    decreases b - a
  {
    if a < b {
      FlattenSplit(pages, a, b - 1);
      FlattenSnoc(pages, b - 1);
      assert pages[a..b][..b - a - 1] == pages[a..b - 1];
    } else {
      assert pages[a..b] == [];
    }
  }

  /** The stream of a page list whose page `k` is not empty continues the pages up to `k`. */
  lemma StreamExtends(pages: seq<seq<RawReview>>, k: nat)
    requires k < |pages|
    requires forall j :: 0 <= j <= k ==> pages[j] != []
    ensures k < FirstEmpty(pages)
    ensures Flatten(pages[..FirstEmpty(pages)])
            == Flatten(pages[..k + 1]) + Flatten(pages[k + 1..FirstEmpty(pages)])
  {
    FlattenSplit(pages, k + 1, FirstEmpty(pages));
  }

  /** When page `k` is the first empty page and no record before it is old, the reference result is what the pages before `k` give. */
  lemma EndOnEmptyPage(company: string, responses: seq<Response>, k: nat, start: Timestamp, end: Timestamp)
    requires k <= |responses|
    requires forall j :: 0 <= j < k ==> Served(responses)[j] != []
    requires k < |responses| ==> Served(responses)[k] == []
    ensures Expected(company, responses, start, end) == Collected(company, Flatten(Served(responses)[..k]), start, end)
  {
    assert FirstEmpty(Served(responses)) == k;
  }

  lemma RequestCountAt(pages: seq<seq<RawReview>>, k: nat, start: Timestamp)
    requires k <= |pages| && ReadThrough(pages, k, start)
    requires k < |pages| ==> pages[k] == [] || !NoOld(pages[k], start)
    ensures RequestCount(pages, start) == k + 1
  {
  }

  lemma ReadThroughSnoc(pages: seq<seq<RawReview>>, k: nat, start: Timestamp)
    requires k < |pages| && ReadThrough(pages, k, start)
    requires pages[k] != [] && NoOld(pages[k], start)
    ensures ReadThrough(pages, k + 1, start)
  {
  }

  lemma OffsetsSnoc(pages: seq<seq<RawReview>>, k: nat)
    requires k <= |pages|
    ensures Offsets(pages, k + 1) == Offsets(pages, k) + [|Flatten(pages[..k])|]
  {
  }

  lemma NoOldAppend(a: seq<RawReview>, b: seq<RawReview>, start: Timestamp)
    requires NoOld(a, start) && NoOld(b, start)
    ensures NoOld(a + b, start)
  {
    forall j | 0 <= j < |a + b| ensures !IsOld((a + b)[j], start) {
      if j >= |a| {
        assert (a + b)[j] == b[j - |a|];
      }
    }
  }

  /** When page `k` holds the first old record, the reference result is what the pages up to `k` give. */
  lemma StopOnPage(company: string, responses: seq<Response>, k: nat, start: Timestamp, end: Timestamp)
    requires k < |responses|
    requires forall j :: 0 <= j <= k ==> Served(responses)[j] != []
    requires NoOld(Flatten(Served(responses)[..k]), start)
    requires !NoOld(Served(responses)[k], start)
    ensures Expected(company, responses, start, end)
            == Collected(company, Flatten(Served(responses)[..k + 1]), start, end)
  {
    var pages := Served(responses);
    var before, page := Flatten(pages[..k]), pages[k];
    StreamExtends(pages, k);
    FlattenSnoc(pages, k);
    var j :| 0 <= j < |page| && IsOld(page[j], start);
    assert (before + page)[|before| + j] == page[j];
    CollectedAppend(company, before + page, Flatten(pages[k + 1..FirstEmpty(pages)]), start, end);
  }

  lemma {:induction false} KeptAppend(a: seq<RawReview>, b: seq<RawReview>, start: Timestamp, end: Timestamp)
    ensures Kept(a + b, start, end) == Kept(a, start, end) + Kept(b, start, end)
    decreases |b|
  {
    if b == [] {
      assert a + b == a;
    } else {
      var init, last := b[..|b| - 1], b[|b| - 1];
      assert b == init + [last];
      assert a + b == (a + init) + [last];
      KeptAppend(a, init, start, end);
      KeptSnoc(a + init, last, start, end);
      KeptSnoc(init, last, start, end);
    }
  }

  lemma NormalizeAllAppend(company: string, a: seq<RawReview>, b: seq<RawReview>)
    requires forall j :: 0 <= j < |a| ==> a[j].stamp.Some?
    requires forall j :: 0 <= j < |b| ==> b[j].stamp.Some?
    ensures NormalizeAll(company, a + b) == NormalizeAll(company, a) + NormalizeAll(company, b)
  {
  }

  /**
   * Reading `a` and then `b` gives what reading `a` gives followed by what
   * reading `b` gives, unless `a` already holds an old record, in which case
   * nothing of `b` is read.
   */
  lemma CollectedAppend(company: string, a: seq<RawReview>, b: seq<RawReview>, start: Timestamp, end: Timestamp)
    ensures NoOld(a, start) ==>
              Collected(company, a + b, start, end) == Collected(company, a, start, end) + Collected(company, b, start, end)
    ensures !NoOld(a, start) ==> Collected(company, a + b, start, end) == Collected(company, a, start, end)
  {
    var n := StopIndex(a, start);
    if NoOld(a, start) {
      var m := StopIndex(b, start);
      assert n == |a| && a[..n] == a;
      assert (a + b)[..|a| + m] == a + b[..m];
      if |a| + m < |a + b| {
        assert (a + b)[|a| + m] == b[m];
      }
      StopIndexUnique(a + b, |a| + m, start);
      KeptAppend(a, b[..m], start, end);
      NormalizeAllAppend(company, Kept(a, start, end), Kept(b[..m], start, end));
    } else {
      assert (a + b)[..n] == a[..n];
      assert (a + b)[n] == a[n];
      StopIndexUnique(a + b, n, start);
    }
  }
}
