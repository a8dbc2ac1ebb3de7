/**
 * The records the collector reads and writes, and the time scale on which
 * it compares them.
 *
 * A timestamp is a naive date-time counted in microseconds (the resolution
 * of Python's `datetime`) from an arbitrary epoch; a calendar date is a
 * count of days from that same epoch. Only the order of timestamps and the
 * day a timestamp falls on matter to the code, so nothing else about the
 * calendar is modelled.
 */
module Reviews {
  import opened Wrappers

  type Timestamp = int
  type Day = int

  const TICKS_PER_DAY: int := 86_400_000_000

  /** The date-time that `datetime.fromisoformat` builds from a date-only string: midnight of that day. */
  function Midnight(d: Day): Timestamp {
    d * TICKS_PER_DAY
  }

  /** The calendar date of a timestamp (`datetime.date()`, printed by `strftime("%Y-%m-%d")`). */
  function DayOf(t: Timestamp): (d: Day)
    ensures Midnight(d) <= t < Midnight(d + 1)
  {
    t / TICKS_PER_DAY
  }

  /** Midnight of a day lies on that day. */
  lemma DayOfMidnight(d: Day)
    ensures DayOf(Midnight(d)) == d
  {
  }

  /** Later timestamps never fall on earlier days. */
  lemma DayOfMonotone(t: Timestamp, u: Timestamp)
    requires t <= u
    ensures DayOf(t) <= DayOf(u)
  {
  }

  /** A rating as the API may send it: a JSON number or a JSON string. */
  datatype Rating = Number(amount: real) | Text(text: string)

  /**
   * A review record as the API returns it. `stamp` is what `isoparse` makes
   * of the record's "datetime" field: `None` when the field is missing or
   * does not parse. The other fields are `None` when the key is absent.
   */
  datatype RawReview = RawReview(
    stamp: Option<Timestamp>,
    title: Option<string>,
    text: Option<string>,
    reviewer: Option<string>,
    rating: Option<Rating>)

  /** A normalised review as written to the output file; `date` is the calendar day of the review. */
  datatype Review = Review(
    source: string,
    company: string,
    title: string,
    review: string,
    reviewer: string,
    rating: Rating,
    date: Day)

  const SOURCE: string := "g2"

  /** The normalised record built from raw record `r`, whose timestamp parsed as `t`. */
  function Normalize(company: string, r: RawReview, t: Timestamp): (n: Review)
    ensures n.source == SOURCE && n.company == company
    ensures Midnight(n.date) <= t < Midnight(n.date + 1)
  {
    Review(SOURCE, company, r.title.GetOr(""), r.text.GetOr(""), r.reviewer.GetOr(""),
           r.rating.GetOr(Text("")), DayOf(t))
  }
}
