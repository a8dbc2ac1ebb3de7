# G2 review collector — a Dafny model

This project models the command-line tool in `mains.py`. The tool collects
G2 product reviews through the Wextractor API for a list of companies, and
keeps the reviews dated inside a window of calendar days.

The model covers four parts of the tool.

- **The page fetch** (`fetch_g2_reviews`). A response with a non-200 status
  yields an empty page. Otherwise the page is the first `batch_size` (50)
  records of the response's "reviews" array.
- **The collector** (`fetch_reviews_in_date_range`). It requests pages from
  offset 0 and stops at an empty page. It returns at once when it meets a
  record older than the window start. It skips a record whose timestamp
  does not parse, keeps the records inside the window, drops newer ones, and
  advances the offset by the length of each page.
- **The date checks of `main`.** A start after today aborts the run. An end
  after today is clamped to today. A start after the clamped end aborts.
- **The company list and the company loop of `main`.** The input line is
  split on commas, each field is stripped, and empty fields are dropped.
  Each company's result is then saved, or "no reviews found" is reported.

The API is one sequence of responses per company: the k-th request gets the
k-th response, and a request past the end gets an empty page. The collector
method `Collector.Collect` is proved equal to a reference definition on the
record stream, `Collector.Expected`. The stream is the pages up to the
first empty one, laid end to end. The reference cuts it at the first record
older than the start, keeps the records inside the window and normalises
them. The properties of the collector are lemmas about that reference.

Timestamps are integers counting microseconds. A day is a count of days
from the same epoch, and `Midnight(d)` is the first moment of day `d`.
The prompts ask for calendar dates (mains.py:94-95), but `main` hands the
collector date-only strings, and `datetime.fromisoformat` turns them into
midnights (mains.py:33-34). The collector therefore compares full
timestamps against the midnights of the two days. A review written later
on the end day is dropped, although its date is the end day
(`CollectorFacts.LaterOnEndDayIsDropped`). In a one-day window, where the
start and end days are the same, only a review stamped exactly at midnight
is kept. The model follows the code.

## Model

| member | source | states |
|---|---|---|
| Reviews.DayOf | mains.py:65 | the calendar day of a timestamp: the timestamp lies between that day's midnight and the next one |
| Reviews.Normalize | mains.py:58-66 | a normalised record has source "g2" and the company asked about, and is dated on the day its timestamp falls on |
| PageFetcher.SliceTo | mains.py:26 | Python's `s[:n]` is a prefix of `s`, of length `min(n, len(s))` for `n >= 0` and `max(0, len(s)+n)` for negative `n` |
| PageFetcher.FetchPage | mains.py:11-26 | a non-200 status yields no records; a 200 response yields a prefix of its "reviews" array (empty when the key is absent), of length `min(batch_size, len)` |
| PageFetcher.PageWithinBatch | mains.py:26 | with the default batch size a page holds at most 50 records |
| Collector.StopIndex | mains.py:53-55 | the collection stops at the first record older than the window start: no earlier record is old, and the one at the stop is |
| Collector.Kept | mains.py:57-58 | every record the collector keeps lies inside [start, end], both ends included, and comes from the records read |
| Collector.FirstEmpty | mains.py:44-45 | the position of the first empty page: every page before it holds records |
| Collector.RequestCount | mains.py:41-55 | the collector goes on requesting while pages are non-empty and hold no old record, and makes no request after the first page that is empty or holds an old record |
| Collector.Collect | mains.py:32-70 | the page loop returns exactly the reference result, makes exactly `RequestCount` requests, and requests each page at an offset equal to the number of records on the pages before it |
| Collector.ScanPage | mains.py:47-66 | one page's inner loop appends that page's contribution to the accumulator, and reports a stop exactly when the page holds an old record |
| Collector.CollectedAppend | mains.py:47-68 | reading two runs of records one after the other: with no old record in the first run, the results concatenate; otherwise the second run is never looked at |
| CollectorFacts.KeptIsSubsequence | mains.py:47-58 | the kept records form a subsequence of the records read, in their order |
| CollectorFacts.KeptIsComplete | mains.py:57-58 | the kept records are taken from exactly the in-window positions of the records read, in increasing order, so each in-window record is kept once per occurrence |
| CollectorFacts.RepeatedRecordKeptTwice | mains.py:57-58 | an in-window record that occurs twice is kept twice |
| CollectorFacts.CollectedFromWindow | mains.py:47-66 | the result is the normalisation of the records read before the stop that lie in the window, taken from exactly their positions, in stream order |
| CollectorFacts.CollectedDatesInWindow | mains.py:57-65 | with midnight bounds, every returned review has source "g2", the company, and a date between the start and end days |
| CollectorFacts.SkippedRecordIsInvisible | mains.py:48-51 | a record whose timestamp does not parse, or that is newer than the end, changes nothing and does not stop the collector |
| CollectorFacts.WindowRecordIsAppended | mains.py:57-66 | a record inside the window, met before any old record, is appended in normalised form and reading goes on |
| CollectorFacts.OldRecordEndsCollection | mains.py:53-55 | the first record older than the start ends the collection: the result is what came before it, whatever follows |
| CollectorFacts.EmptyPageEndsCollection | mains.py:44-45 | after an empty page, what the API would answer to later requests does not change the result |
| CollectorFacts.ErrorResponseIsEndOfData | mains.py:21-23 | a non-200 response reads exactly like the end of the data |
| CollectorFacts.OffsetsAdvanceByPage | mains.py:68 | each request's offset is the previous offset plus the length of the previous page |
| CollectorFacts.PageSitsAtItsOffset | mains.py:42-68 | page j lies in the concatenated pages exactly from its offset up to its offset plus its length |
| CollectorFacts.LaterOnEndDayIsDropped | mains.py:33-34 | a review stamped after midnight of the end day is dated on the end day, yet is not returned |
| CollectorFacts.AnyTimeOnStartDayIsKept | mains.py:33-34 | when the end day is later than the start day, a review at any time of the start day is returned |
| CollectorFacts.EarlyTerminationExample | mains.py:53-55 | on a page dated 10 June, 5 June and 1 May 2024 with the window 1-8 June, only the 5 June review is returned and the second page is never requested |
| DateWindow.Validate | mains.py:100-115 | the run aborts exactly when the start is after today, or after the clamped end; otherwise the window keeps the start, clamps the end to today, and has start <= end <= today |
| Slugs.Split | mains.py:91 | `str.split` gives at least one piece, and no piece holds the separator |
| Slugs.JoinSplit | mains.py:91 | joining the pieces of a split gives back the string |
| Slugs.SplitJoin | mains.py:91 | splitting a join of separator-free pieces gives back the pieces |
| Slugs.Strip | mains.py:91 | `str.strip` returns a slice of its input with only white space outside it, and neither starts nor ends with white space |
| Slugs.StripKeeps | mains.py:91 | stripping a string with no surrounding white space leaves it as it is |
| Slugs.KeepNonEmpty | mains.py:91 | the filter keeps at most one slug per field and never an empty one |
| Slugs.KeepNonEmptyIsStripThenDrop | mains.py:91 | the filter yields exactly the stripped fields that are not empty, in the order of the fields |
| Slugs.StripPadded | mains.py:91 | a clean slug, or nothing, with white space on both sides strips to the slug |
| Slugs.KeepNonEmptyPadded | mains.py:91 | fields made of white space around a clean slug, or of white space only, yield their slugs in order, and the blank ones yield nothing |
| Slugs.KeepNonEmptyClean | mains.py:91 | stripping comma-free fields and dropping empty ones leaves only clean slugs |
| Slugs.KeepNonEmptyKeeps | mains.py:91 | the filter keeps a list of clean slugs unchanged |
| Slugs.ParseSlugs | mains.py:91 | every slug read from the input line is non-empty, holds no comma and has no surrounding white space |
| Slugs.ParseSlugsRoundTrip | mains.py:91 | a list of clean slugs written comma-separated is read back exactly, in order |
| Slugs.ParseSlugsPadded | mains.py:91 | a comma-separated line of slugs with white space around them, and blank fields between them, is read as those slugs, in order |
| Slugs.PromptExample | mains.py:90-91 | the prompt's example "jira, notion" is read as the two slugs "jira" and "notion" |
| Driver.Dispatch | mains.py:120-131 | the company loop yields one event per company |
| Driver.DispatchAt | mains.py:120-131 | the i-th event is the one for the i-th company |
| Driver.Run | mains.py:89-133 | the step-by-step checks and the company loop of `main` give the reference outcome of the run |
| Driver.ProcessCompanies | mains.py:120-131 | the for loop over the companies yields the events of `Dispatch`, in order |
| Driver.Visit | mains.py:121-131 | one company is collected, then saved when the result is non-empty and reported as having no reviews otherwise |
| Driver.EventKeepsToWindow | mains.py:128-131 | a save happens exactly when the collection is non-empty, saves that collection, and every saved review is the company's and dated in the window |
| Driver.DispatchKeepsToWindow | mains.py:120-131 | every event of the company loop is about its company and keeps to the window |
| Driver.SessionKeepsToWindow | mains.py:100-131 | a run stops before any company exactly when the start is after today or after the end; otherwise there is one event per slug, and no saved review is dated before the start, after the end or after today |
| Driver.FailedFirstRequestReportsNoReviews | mains.py:21-23 | a company whose first request fails is reported as having no reviews, and the run goes on |

## Left out

- HTTP and JSON decoding. A response is its status and its decoded "reviews" array. A body that is not JSON, or that is not an object, makes the tool crash; the model has no such response.
- A "reviews" key whose value is JSON null makes `[:batch_size]` raise. The model reads only an absent key, as an empty array.
- Timestamp parsing. `isoparse` becomes `RawReview.stamp`: a parsed timestamp, or `None` when the "datetime" field is missing or does not parse. The date strings of `main` arrive already parsed as day numbers. A malformed date from the prompt, which makes `fromisoformat` raise, is not modelled.
- A timezone-aware timestamp makes the comparison with the naive window bounds raise `TypeError`, which ends the run. The model treats all timestamps as naive.
- Date formatting. `strftime("%Y-%m-%d")` is kept as the day number the string spells out.
- Reviews.Normalize: the title, text, reviewer and rating fields are strings, or a number or a string for the rating. A field present with another JSON type, such as null, is copied through by the tool; the model does not represent it.
- `save_reviews` writes a file. That write is recorded as a `Saved` event with the reviews it would write. The output path and the JSON layout are out.
- A slug listed twice gets the same responses each time, so it gives two equal events. The tool repeats the requests, which a live API may answer differently, and the second save overwrites the first one's file (mains.py:78-81). The model does not capture the overwrite or the changed answers.
- `input()`, `print` and `date.today()` become parameters: the slug line, the two days and today. The auth token is only passed on to the API, so it is not modelled.
- The collector loops for as long as the API keeps sending non-empty pages. Each company's API here is a finite sequence of responses, with empty pages past its end, so the model does not capture an API that never runs dry.
- The white-space set of `str.strip` is the one Python's `str.isspace` accepts. Unicode is not otherwise modelled.
