/**
 * What the collector promises, proved about its reference definition
 * (`Collector.Collected` on a record stream, `Collector.Expected` on the
 * API's responses), which `Collector.Collect` is proved to compute.
 */
module CollectorFacts {
  import opened Wrappers
  import opened Reviews
  import opened PageFetcher
  import opened Collector

  // ------------------------------------------------------------------
  // The kept records: inside the window, in stream order, none missed
  // ------------------------------------------------------------------

  ghost predicate Embeds<T>(idx: seq<nat>, a: seq<T>, b: seq<T>) {
    && |idx| == |a|
    && (forall j :: 0 <= j < |idx| ==> idx[j] < |b| && a[j] == b[idx[j]])
    && (forall j, l :: 0 <= j < l < |idx| ==> idx[j] < idx[l])
  }

  /** `a` is `b` with some elements left out: the positions it takes from `b` increase. */
  ghost predicate IsSubsequence<T>(a: seq<T>, b: seq<T>) {
    exists idx: seq<nat> :: Embeds(idx, a, b)
  }

  /** The kept records appear in the same relative order as in the stream. */
  lemma {:induction false} KeptIsSubsequence(s: seq<RawReview>, start: Timestamp, end: Timestamp)
    ensures IsSubsequence(Kept(s, start, end), s)
  {
    if s == [] {
      assert Embeds([], Kept(s, start, end), s);
    } else {
      var init, last := s[..|s| - 1], s[|s| - 1];
      KeptIsSubsequence(init, start, end);
      var idx: seq<nat> :| Embeds(idx, Kept(init, start, end), init);
      if InWindow(last, start, end) {
        assert Kept(s, start, end) == Kept(init, start, end) + [last];
        var idx': seq<nat> := idx + [|s| - 1];
        assert Embeds(idx', Kept(s, start, end), s);
      } else {
        assert Kept(s, start, end) == Kept(init, start, end);
        assert Embeds(idx, Kept(s, start, end), s);
      }
    }
  }

  /** `idx` lists exactly the positions of `s` that hold a record inside the window, in increasing order. */
  ghost predicate TakesWindowPositions(idx: seq<nat>, k: seq<RawReview>, s: seq<RawReview>, start: Timestamp, end: Timestamp) {
    && Embeds(idx, k, s)
    && forall j :: 0 <= j < |s| ==> (InWindow(s[j], start, end) <==> j in idx)
  }

  /**
   * No record inside the window is left out, and none is taken twice: the
   * kept records are read off exactly the in-window positions of the
   * stream, so a repeated in-window record is kept as often as it occurs.
   */
  lemma {:induction false} KeptIsComplete(s: seq<RawReview>, start: Timestamp, end: Timestamp)
    ensures exists idx: seq<nat> :: TakesWindowPositions(idx, Kept(s, start, end), s, start, end)
  {
    if s == [] {
      assert TakesWindowPositions([], Kept(s, start, end), s, start, end);
    } else {
      var init, last := s[..|s| - 1], s[|s| - 1];
      assert s == init + [last];
      KeptIsComplete(init, start, end);
      var idx: seq<nat> :| TakesWindowPositions(idx, Kept(init, start, end), init, start, end);
      KeptSnoc(init, last, start, end);
      if InWindow(last, start, end) {
        PositionsTakeLast(idx, Kept(init, start, end), init, last, start, end);
        assert TakesWindowPositions(idx + [|init|], Kept(s, start, end), s, start, end);
      } else {
        PositionsSkipLast(idx, Kept(init, start, end), init, last, start, end);
        assert TakesWindowPositions(idx, Kept(s, start, end), s, start, end);
      }
    }
  }

  /** A record that appears twice inside the window, as offset paging can serve it, is kept twice. */
  lemma RepeatedRecordKeptTwice(r: RawReview, start: Timestamp, end: Timestamp)
    requires InWindow(r, start, end)
    ensures Kept([r, r], start, end) == [r, r]
  {
    KeptSnoc([], r, start, end);
    assert [] + [r] == [r];
    KeptSnoc([r], r, start, end);
    assert [r] + [r] == [r, r];
  }

  /** An in-window record read next is taken from the next position. */
  lemma PositionsTakeLast(idx: seq<nat>, k: seq<RawReview>, s: seq<RawReview>, r: RawReview, start: Timestamp, end: Timestamp)
    requires TakesWindowPositions(idx, k, s, start, end)
    requires InWindow(r, start, end)
    ensures TakesWindowPositions(idx + [|s|], k + [r], s + [r], start, end)
  {
    var idx', s' := idx + [|s|], s + [r];
    forall j | 0 <= j < |s'|
      ensures InWindow(s'[j], start, end) <==> j in idx'
    {
      if j < |s| {
        assert s'[j] == s[j];
      }
    }
  }

  /** A record outside the window read next is not taken. */
  lemma PositionsSkipLast(idx: seq<nat>, k: seq<RawReview>, s: seq<RawReview>, r: RawReview, start: Timestamp, end: Timestamp)
    requires TakesWindowPositions(idx, k, s, start, end)
    requires !InWindow(r, start, end)
    ensures TakesWindowPositions(idx, k, s + [r], start, end)
  {
    var s' := s + [r];
    assert |s| !in idx;
    forall j | 0 <= j < |s'|
      ensures InWindow(s'[j], start, end) <==> j in idx
    {
      if j < |s| {
        assert s'[j] == s[j];
      }
    }
  }

  /**
   * Every review the collector returns comes from a record of the stream,
   * read before the stop, whose timestamp lies in [start, end]; the
   * records are taken, in stream order, from exactly the in-window
   * positions of the records read before the stop.
   */
  lemma CollectedFromWindow(company: string, s: seq<RawReview>, start: Timestamp, end: Timestamp)
    ensures var read := s[..StopIndex(s, start)];
            var src := Kept(read, start, end);
            && Collected(company, s, start, end) == NormalizeAll(company, src)
            && (forall j :: 0 <= j < |src| ==>
                  src[j] in read && start <= src[j].stamp.value <= end)
            && exists idx: seq<nat> :: TakesWindowPositions(idx, src, read, start, end)
  {
    var read := s[..StopIndex(s, start)];
    KeptIsComplete(read, start, end);
  }

  /**
   * With the window given as the midnights of two calendar days, every
   * returned review is dated between those days, and says it comes from
   * the "g2" source for the company asked about.
   */
  lemma CollectedDatesInWindow(company: string, s: seq<RawReview>, startDay: Day, endDay: Day)
    ensures var c := Collected(company, s, Midnight(startDay), Midnight(endDay));
            forall j :: 0 <= j < |c| ==>
              c[j].source == SOURCE && c[j].company == company && startDay <= c[j].date <= endDay
  {
    var start, end := Midnight(startDay), Midnight(endDay);
    var src := Kept(s[..StopIndex(s, start)], start, end);
    var c := Collected(company, s, start, end);
    forall j | 0 <= j < |c|
      ensures c[j].source == SOURCE && c[j].company == company && startDay <= c[j].date <= endDay
    {
      var t := src[j].stamp.value;
      assert c[j] == Normalize(company, src[j], t);
      DayOfMidnight(startDay);
      DayOfMidnight(endDay);
      DayOfMonotone(start, t);
      DayOfMonotone(t, end);
    }
  }

  // ------------------------------------------------------------------
  // One record at a time
  // ------------------------------------------------------------------

  /**
   * A record whose timestamp did not parse, or that is newer than the
   * window end, changes nothing and does not stop the collector: what
   * follows it is read as if it were not there.
   */
  lemma SkippedRecordIsInvisible(company: string, a: seq<RawReview>, r: RawReview, b: seq<RawReview>,
                                 start: Timestamp, end: Timestamp)
    requires r.stamp.None? || (r.stamp.value >= start && r.stamp.value > end)
    ensures Collected(company, a + [r] + b, start, end) == Collected(company, a + b, start, end)
  {
    var rb := [r] + b;
    assert a + [r] + b == a + rb;
    CollectedAppend(company, a, rb, start, end);
    CollectedAppend(company, a, b, start, end);
    if NoOld(a, start) {
      SkippedAlone(company, r, start, end);
      CollectedAppend(company, [r], b, start, end);
      assert Collected(company, rb, start, end) == Collected(company, b, start, end);
    }
  }

  /** A skipped record on its own yields nothing and does not stop the collector. */
  lemma SkippedAlone(company: string, r: RawReview, start: Timestamp, end: Timestamp)
    requires r.stamp.None? || (r.stamp.value >= start && r.stamp.value > end)
    ensures NoOld([r], start) && Collected(company, [r], start, end) == []
  {
    assert [r][..StopIndex([r], start)] == [r];
    KeptSnoc([], r, start, end);
    assert [] + [r] == [r];
  }

  /** A record inside the window, reached before any old record, is appended, normalised, and reading goes on. */
  lemma WindowRecordIsAppended(company: string, a: seq<RawReview>, r: RawReview, b: seq<RawReview>,
                               start: Timestamp, end: Timestamp)
    requires NoOld(a, start)
    requires InWindow(r, start, end)
    ensures Collected(company, a + [r] + b, start, end)
            == Collected(company, a, start, end) + [Normalize(company, r, r.stamp.value)] + Collected(company, b, start, end)
  {
    assert a + [r] + b == a + ([r] + b);
    CollectedAppend(company, a, [r] + b, start, end);
    CollectedAppend(company, [r], b, start, end);
    assert [r][..StopIndex([r], start)] == [r];
    KeptSnoc([], r, start, end);
    assert [] + [r] == [r];
  }

  /**
   * The first record older than the window start ends the collection:
   * the result is what was gathered before it, whatever follows.
   */
  lemma OldRecordEndsCollection(company: string, a: seq<RawReview>, r: RawReview, b: seq<RawReview>,
                                start: Timestamp, end: Timestamp)
    requires IsOld(r, start)
    ensures Collected(company, a + [r] + b, start, end) == Collected(company, a, start, end)
  {
    assert a + [r] + b == a + ([r] + b);
    assert ([r] + b)[0] == r;
    CollectedAppend(company, a, [r] + b, start, end);
  }

  // ------------------------------------------------------------------
  // Pages and offsets
  // ------------------------------------------------------------------

  /**
   * An empty page ends the collection: what the API would answer to later
   * requests does not matter.
   */
  lemma EmptyPageEndsCollection(company: string, responses: seq<Response>, k: nat, start: Timestamp, end: Timestamp)
    requires k < |responses| && FetchPage(responses[k], BATCH_SIZE) == []
    ensures Expected(company, responses, start, end) == Expected(company, responses[..k], start, end)
  {
    var pages, early := Served(responses), Served(responses[..k]);
    assert early == pages[..k];
    var f := FirstEmpty(pages);
    assert pages[k] == [];
    assert FirstEmpty(early) == f;
    assert early[..f] == pages[..f];
  }

  /**
   * A non-200 response reads exactly like the end of the data: the result
   * is the one the API would give if it had no page from there on.
   */
  lemma ErrorResponseIsEndOfData(company: string, before: seq<Response>, response: Response, after: seq<Response>,
                                 start: Timestamp, end: Timestamp)
    requires response.status != HTTP_OK
    ensures Expected(company, before + [response] + after, start, end) == Expected(company, before, start, end)
  {
    var responses := before + [response] + after;
    assert responses[|before|] == response;
    assert responses[..|before|] == before;
    EmptyPageEndsCollection(company, responses, |before|, start, end);
  }

  /** Each request's offset is the previous one plus the length of the previous page. */
  lemma OffsetsAdvanceByPage(pages: seq<seq<RawReview>>, n: nat)
    requires n <= |pages| + 1
    ensures forall j :: 0 <= j < n - 1 ==> Offsets(pages, n)[j + 1] == Offsets(pages, n)[j] + |pages[j]|
  {
    forall j | 0 <= j < n - 1
      ensures Offsets(pages, n)[j + 1] == Offsets(pages, n)[j] + |pages[j]|
    {
      FlattenSnoc(pages, j);
    }
  }

  /**
   * The request at offset `Offsets(..)[j]` reads exactly the records at
   * that position of the concatenated pages: no record is read twice and
   * none is passed over.
   */
  lemma PageSitsAtItsOffset(pages: seq<seq<RawReview>>, j: nat)
    requires j < |pages|
    ensures var o := |Flatten(pages[..j])|;
            o + |pages[j]| <= |Flatten(pages)| && Flatten(pages)[o..o + |pages[j]|] == pages[j]
  {
    FlattenSnoc(pages, j);
    FlattenSplit(pages, j + 1, |pages|);
    assert pages[..|pages|] == pages;
  }

  // ------------------------------------------------------------------
  // The window is inclusive at the timestamp level
  // ------------------------------------------------------------------

  /**
   * The end bound is the midnight that starts the end day, so a review
   * written later on that day, although dated on the end day, is dropped.
   */
  lemma LaterOnEndDayIsDropped(company: string, r: RawReview, startDay: Day, endDay: Day)
    requires startDay <= endDay
    requires r.stamp.Some? && Midnight(endDay) < r.stamp.value < Midnight(endDay + 1)
    ensures DayOf(r.stamp.value) == endDay
    ensures Collected(company, [r], Midnight(startDay), Midnight(endDay)) == []
  {
    assert [r][..1] == [r];
    KeptSnoc([], r, Midnight(startDay), Midnight(endDay));
    assert [] + [r] == [r];
  }

  /** The start bound is the first moment of the start day, so every review of that day is kept. */
  lemma AnyTimeOnStartDayIsKept(company: string, r: RawReview, startDay: Day, endDay: Day)
    requires startDay < endDay
    requires r.stamp.Some? && Midnight(startDay) <= r.stamp.value < Midnight(startDay + 1)
    ensures Collected(company, [r], Midnight(startDay), Midnight(endDay)) == [Normalize(company, r, r.stamp.value)]
  {
    assert [r][..1] == [r];
    KeptSnoc([], r, Midnight(startDay), Midnight(endDay));
    assert [] + [r] == [r];
  }

  // ------------------------------------------------------------------
  // A worked example
  // ------------------------------------------------------------------

  /** A record stamped at noon of day `d`, with no other field. */
  function NoonOf(d: Day): RawReview {
    RawReview(Some(Midnight(d) + TICKS_PER_DAY / 2), None, None, None, None)
  }

  /** Records of 2024-06-10, 2024-06-05 and 2024-05-01 (days 19884, 19879 and 19844 from 1970-01-01). */
  const EXAMPLE_FIRST: seq<RawReview> := [NoonOf(19884), NoonOf(19879), NoonOf(19844)]
  /** A record of 2024-04-30. */
  const EXAMPLE_SECOND: seq<RawReview> := [NoonOf(19843)]
  const EXAMPLE_RESPONSES: seq<Response> :=
    [Response(HTTP_OK, Some(EXAMPLE_FIRST)), Response(HTTP_OK, Some(EXAMPLE_SECOND))]

  /** Both example responses are served whole, and the stream is their concatenation. */
  lemma ExampleStream()
    ensures Served(EXAMPLE_RESPONSES) == [EXAMPLE_FIRST, EXAMPLE_SECOND]
    ensures Stream(EXAMPLE_RESPONSES) == EXAMPLE_FIRST + EXAMPLE_SECOND
  {
    var first, second := EXAMPLE_FIRST, EXAMPLE_SECOND;
    var pages := Served(EXAMPLE_RESPONSES);
    assert first[..|first|] == first && second[..|second|] == second;
    assert pages[0] == first && pages[1] == second;
    assert pages == [first, second];
    assert FirstEmpty(pages) == 2;
    assert pages[..2] == pages;
    assert pages[..2][..1] == [first];
    assert Flatten([first][..0]) == [];
    assert Flatten([first]) == first;
  }

  /**
   * Read with the window 2024-06-01 .. 2024-06-08, only the 2024-06-05
   * review of the example is returned, and the second page is never
   * requested.
   */
  lemma EarlyTerminationExample(company: string)
    ensures Expected(company, EXAMPLE_RESPONSES, Midnight(19875), Midnight(19882))
            == [Normalize(company, NoonOf(19879), NoonOf(19879).stamp.value)]
    ensures RequestCount(Served(EXAMPLE_RESPONSES), Midnight(19875)) == 1
  {
    var start, end := Midnight(19875), Midnight(19882);
    var newer, inside, older := NoonOf(19884), NoonOf(19879), NoonOf(19844);
    var tail := [older] + EXAMPLE_SECOND;
    var fromInside := [inside] + tail;
    var stream := [newer] + fromInside;
    ExampleStream();
    assert EXAMPLE_FIRST + EXAMPLE_SECOND == stream;
    ExampleSkipsNewer(company, newer, fromInside, start, end);
    ExampleKeepsInside(company, inside, tail, start, end);
    ExampleStopsAtOlder(company, older, EXAMPLE_SECOND, start, end);
    assert !NoOld(EXAMPLE_FIRST, start) by {
      assert IsOld(EXAMPLE_FIRST[2], start);
    }
  }

  lemma ExampleSkipsNewer(company: string, r: RawReview, b: seq<RawReview>, start: Timestamp, end: Timestamp)
    requires r.stamp.None? || (r.stamp.value >= start && r.stamp.value > end)
    ensures Collected(company, [r] + b, start, end) == Collected(company, b, start, end)
  {
    SkippedRecordIsInvisible(company, [], r, b, start, end);
    assert [] + [r] + b == [r] + b && [] + b == b;
  }

  lemma ExampleKeepsInside(company: string, r: RawReview, b: seq<RawReview>, start: Timestamp, end: Timestamp)
    requires InWindow(r, start, end)
    ensures Collected(company, [r] + b, start, end)
            == [Normalize(company, r, r.stamp.value)] + Collected(company, b, start, end)
  {
    WindowRecordIsAppended(company, [], r, b, start, end);
    assert [] + [r] + b == [r] + b;
    assert Collected(company, [], start, end) == [];
  }

  lemma ExampleStopsAtOlder(company: string, r: RawReview, b: seq<RawReview>, start: Timestamp, end: Timestamp)
    requires IsOld(r, start)
    ensures Collected(company, [r] + b, start, end) == []
  {
    OldRecordEndsCollection(company, [], r, b, start, end);
    assert [] + [r] + b == [r] + b;
    assert Collected(company, [], start, end) == [];
  }
}
