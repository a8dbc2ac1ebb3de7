/**
 * The session driver (`main`): read the company list and the window,
 * check the window against today, then collect each company's reviews in
 * the order given and either save them or report that none were found.
 * The prompts, the clock and the file writes are abstracted: the input
 * line and the dates arrive as parameters, the API of each company is the
 * sequence of its responses, and saving is recorded as an event.
 */
module Driver {
  import opened Reviews
  import opened PageFetcher
  import opened Collector
  import opened CollectorFacts
  import opened DateWindow
  import opened Slugs

  /** What the run did for one company: `save_reviews` was called, or "no reviews found" was reported. */
  datatype Event = Saved(company: string, reviews: seq<Review>) | NoReviews(company: string)

  /** A run ends before any company when the window is rejected, and otherwise after all of them. */
  datatype Outcome = Stopped(reason: AbortReason) | Done(events: seq<Event>)

  function EventFor(company: string, reviews: seq<Review>): Event {
    if reviews == [] then NoReviews(company) else Saved(company, reviews)
  }

  /** The event for one company whose API answers `responses`, with the window of days [start, end]. */
  function CompanyEvent(company: string, responses: seq<Response>, start: Day, end: Day): Event {
    EventFor(company, Expected(company, responses, Midnight(start), Midnight(end)))
  }

  /** The events for `companies`, in order, with the window of days [start, end]. */
  function Dispatch(companies: seq<string>, start: Day, end: Day, api: string -> seq<Response>): (events: seq<Event>)
    ensures |events| == |companies|
  {
    if companies == [] then []
    else
      var last := companies[|companies| - 1];
      Dispatch(companies[..|companies| - 1], start, end, api) + [CompanyEvent(last, api(last), start, end)]
  }

  /** The `i`-th event is the one for the `i`-th company. */
  lemma {:induction false} DispatchAt(companies: seq<string>, start: Day, end: Day, api: string -> seq<Response>, i: nat)
    requires i < |companies|
    ensures Dispatch(companies, start, end, api)[i] == CompanyEvent(companies[i], api(companies[i]), start, end)
    decreases |companies|
  {
    var init := companies[..|companies| - 1];
    if i < |init| {
      DispatchAt(init, start, end, api, i);
      assert init[i] == companies[i];
    }
  }

  /** The reference outcome of a run. */
  function Session(text: string, start: Day, end: Day, today: Day, api: string -> seq<Response>): Outcome {
    match Validate(start, end, today)
    case Aborted(reason) => Stopped(reason)
    case Window(s, e) => Done(Dispatch(ParseSlugs(text), s, e, api))
  }

  /**
   * `main`: parse the slugs; abort on a start after today; clamp an end
   * after today to today; abort on a start after the end; then run the
   * company loop.
   */
  method Run(text: string, startDay: Day, endDay: Day, today: Day, api: string -> seq<Response>)
    returns (outcome: Outcome)
    ensures outcome == Session(text, startDay, endDay, today, api)
  {
    var companies := ParseSlugs(text);
    if startDay > today {
      return Stopped(FutureStart);
    }
    var end := endDay;
    if end > today {
      end := today;
    }
    if startDay > end {
      return Stopped(StartAfterEnd);
    }
    var events := ProcessCompanies(companies, startDay, end, api);
    return Done(events);
  }

  /** The company loop of `main`, in the order the slugs were given. */
  method ProcessCompanies(companies: seq<string>, startDay: Day, endDay: Day, api: string -> seq<Response>)
    returns (events: seq<Event>)
    ensures events == Dispatch(companies, startDay, endDay, api)
  {
    events := [];
    for i := 0 to |companies|
      invariant events == Dispatch(companies[..i], startDay, endDay, api)
    {
      var event := Visit(companies[i], api(companies[i]), startDay, endDay);
      assert companies[..i + 1][..i] == companies[..i];
      events := events + [event];
    }
    assert companies[..|companies|] == companies;
  }

  /** One turn of the company loop: collect, then save a non-empty result or report an empty one. */
  method Visit(company: string, responses: seq<Response>, start: Day, end: Day) returns (event: Event)
    ensures event == CompanyEvent(company, responses, start, end)
  {
    var reviews, _ := Collect(company, responses, Midnight(start), Midnight(end));
    if reviews == [] {
      event := NoReviews(company);
    } else {
      event := Saved(company, reviews);
    }
  }

  /**
   * The event is about `company`, and if it is a save, the reviews saved
   * are not empty, belong to `company` and are dated within [startDay, endDay].
   */
  ghost predicate EventWithin(e: Event, company: string, startDay: Day, endDay: Day) {
    && e.company == company
    && (e.Saved? ==>
          && e.reviews != []
          && forall j :: 0 <= j < |e.reviews| ==>
               e.reviews[j].company == company && startDay <= e.reviews[j].date <= endDay)
  }

  /** A save happens exactly when the collection is not empty, and it keeps to the window. */
  lemma EventKeepsToWindow(company: string, responses: seq<Response>, startDay: Day, endDay: Day)
    ensures var reviews := Expected(company, responses, Midnight(startDay), Midnight(endDay));
            var e := CompanyEvent(company, responses, startDay, endDay);
            && (e.Saved? <==> reviews != [])
            && (e.Saved? ==> e.reviews == reviews)
            && EventWithin(e, company, startDay, endDay)
  {
    CollectedDatesInWindow(company, Stream(responses), startDay, endDay);
  }

  /** The company loop yields one event per company, in order, each keeping to the window. */
  lemma DispatchKeepsToWindow(companies: seq<string>, startDay: Day, endDay: Day, api: string -> seq<Response>)
    ensures var events := Dispatch(companies, startDay, endDay, api);
            && |events| == |companies|
            && forall i :: 0 <= i < |events| ==> EventWithin(events[i], companies[i], startDay, endDay)
  {
    var events := Dispatch(companies, startDay, endDay, api);
    forall i | 0 <= i < |events|
      ensures EventWithin(events[i], companies[i], startDay, endDay)
    {
      DispatchAt(companies, startDay, endDay, api, i);
      EventKeepsToWindow(companies[i], api(companies[i]), startDay, endDay);
    }
  }

  lemma EventWithinWeaken(e: Event, company: string, startDay: Day, endDay: Day, laterDay: Day)
    requires EventWithin(e, company, startDay, endDay) && endDay <= laterDay
    ensures EventWithin(e, company, startDay, laterDay)
  {
  }

  /**
   * A run is stopped, before any company, exactly when the start is after
   * today or after the end. Otherwise there is one event per slug, in the
   * order given, and every saved review belongs to its company and is
   * dated between the start and the end days, never after today.
   */
  lemma SessionKeepsToWindow(text: string, startDay: Day, endDay: Day, today: Day, api: string -> seq<Response>)
    ensures var o := Session(text, startDay, endDay, today, api);
            && (o.Stopped? <==> startDay > today || startDay > endDay)
            && (o.Done? ==>
                  && |o.events| == |ParseSlugs(text)|
                  && forall i :: 0 <= i < |o.events| ==>
                       && EventWithin(o.events[i], ParseSlugs(text)[i], startDay, endDay)
                       && EventWithin(o.events[i], ParseSlugs(text)[i], startDay, today))
  {
    var v := Validate(startDay, endDay, today);
    if v.Window? {
      var companies := ParseSlugs(text);
      DispatchKeepsToWindow(companies, v.start, v.end, api);
      var events := Dispatch(companies, v.start, v.end, api);
      forall i | 0 <= i < |events|
        ensures EventWithin(events[i], companies[i], startDay, endDay)
        ensures EventWithin(events[i], companies[i], startDay, today)
      {
        EventWithinWeaken(events[i], companies[i], startDay, v.end, endDay);
        EventWithinWeaken(events[i], companies[i], startDay, v.end, today);
      }
    }
  }

  /** A company whose first request fails is reported as having no reviews, and the run goes on. */
  lemma FailedFirstRequestReportsNoReviews(company: string, responses: seq<Response>, start: Day, end: Day)
    requires responses != [] && responses[0].status != HTTP_OK
    ensures CompanyEvent(company, responses, start, end) == NoReviews(company)
  {
    assert responses == [] + [responses[0]] + responses[1..];
    ErrorResponseIsEndOfData(company, [], responses[0], responses[1..], Midnight(start), Midnight(end));
    assert FirstEmpty(Served([])) == 0;
  }
}
