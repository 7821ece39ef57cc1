# share-scraper, modelled in Dafny

share-scraper collects the shares listed on Borsa Italiana. It walks the
alphabetical listing pages to learn every share's ISIN, then fetches each
share's page and reads its price, market and performance fields into
records. It keeps metrics on how many fetches succeeded and how many failed
with each kind of error. This project models the logic of that pipeline and
proves what the code promises about it:

- the retry driver (`exponential_backoff`, in the `scraper` crate and in
  the older `src/` copy with its `debug` flag);
- the classification of HTTP answers (`get_page_text`) and the conversion of
  driver errors into `ScrapingError`;
- ISIN identity: the 12-character parse, its formatter, and the reading of
  an ISIN from a listing link or a database row;
- the tolerant value parsers for Italian and English numbers, percentages,
  dates, date-times and the composite "price - date" cells;
- the two field locators: the positional `side_N` table and the
  label-driven `PropertySelector`;
- the assembly of the `Share` record with its four sub-records, in the
  current form (optional fields) and the older form (default-filled
  fields), and the conversion from a database row;
- the metrics monoid and its in-place `update`, and the two scraping runs
  that drain their tasks' results;
- the Java scraper: `convertTextToType`, `getContentOrFallback`, its own
  exponential backoff, the `SpecialRows` insert helpers and the `ShareProps`
  lookup tables.

Each source file becomes one Dafny module:

- Pure Rust and Java code becomes datatypes, functions and lemmas.
- Loops that mutate state become methods with loop invariants. Each such
  method is proved equal to a specification function, and the source's
  promises are proved as lemmas about that function. These are the backoff
  drivers, the `PropertySelector::new` index build, the task grid and the
  drain loops.
- Objects changed in place become classes: the metrics counters and the
  `WithMetrics` slot, the Java `Scraper` singleton, and the Java `Share`
  property map that `SpecialRows` writes into.

The code is the reference throughout. Where a Java test asserts something
the code does not do, the model follows the code. For example,
`SpecialRows.insertPerformanceInfo` stores `10.5%` as 105, and
`insertPriceDateReference` never stores a date-time. Lemmas in
`special_rows.dfy` state both behaviours.

Modules: `Common` (options, results, string operations), `Numbers`,
`Dates`, `Page`, `Errors`, `Backoff`, `LegacyBackoff`, `PageFetch`,
`Isins`, `LegacyIsins`, `IsinsScrape`, `Parsers`, `Selectors`,
`PropertySelectors`, `Models`, `LegacyShares`, `Metrics`, `SharesScrape`,
`ShareProps`, `JavaScraper`, `SpecialRows`.

## Model

| member | source | states |
|---|---|---|
| Backoff.WaitTime | scraper/src/exponential_backoff.rs:44 | the delay before retry `k` is never more than 30 000 ms |
| Backoff.Waits | scraper/src/exponential_backoff.rs:36-51 | the delays slept before retries 1..k: `k` entries, entry `i` being the delay of retry `i + 1` |
| Backoff.WaitTimeValues | scraper/src/exponential_backoff.rs:44 | the first five delays are 200, 400, 800, 1600 and 3200 ms |
| Backoff.WaitTimeGrowsToCap | scraper/src/exponential_backoff.rs:44 | from the ninth retry on the delay is the 30 s cap, and the delay never decreases from one retry to the next |
| Backoff.DriveUnfold | scraper/src/exponential_backoff.rs:27-61 | one pass of the loop: `Return` ends with the value, `Exit` ends with nothing, a retry past `MAX_RETRIES` gives up, any other retry sleeps `WaitTime(k + 1)` and goes on |
| Backoff.Drive | scraper/src/exponential_backoff.rs:27-68 | no contract of its own; `DriveUnfold` and `DriveDecided` state each pass and the whole run |
| Backoff.Run | scraper/src/exponential_backoff.rs:19-69 | no contract of its own; `ExponentialBackoff` is proved equal to it, and `FirstReturnWins` states its results |
| Backoff.DriveDecided | scraper/src/exponential_backoff.rs:27-68 | by induction over the retries left: from any call on, every call before the last asked to retry, the last one answered, asked to stop or was the sixth retry, and the delays are those of the retries made |
| Backoff.BackoffDecided | scraper/src/exponential_backoff.rs:19-69 | every whole run is decided by its last call in the sense above |
| Backoff.ExponentialBackoff | scraper/src/exponential_backoff.rs:19-69 | the loop itself: between one and six calls, all but the last a `Retry`; the result is `Some` exactly when the last call returned, holding its value; a last `Retry` only at the sixth call; the delays slept are `Waits(calls - 1)`; all equal to the run function `Run` |
| Backoff.Returns | scraper/src/exponential_backoff.rs:29-35 | a `Return` at call `k` ends the run with that value after the delays slept so far and `k + 1` calls |
| Backoff.Exits | scraper/src/exponential_backoff.rs:53-60 | an `Exit` at call `k` ends the run with the stop error, no further sleep |
| Backoff.RunsOut | scraper/src/exponential_backoff.rs:36-42 | a `Retry` at the sixth call ends the run with the retries error, no further sleep |
| Backoff.Retries | scraper/src/exponential_backoff.rs:36-51 | any earlier `Retry` appends `WaitTime(k + 1)` to the delays and keeps the loop invariant for the next call |
| Backoff.FirstReturnWins | scraper/src/exponential_backoff.rs:29-35 | after `k` retries, a `Return` at call `k` is the run's value, after exactly the delays `Waits(k)` and `k + 1` calls |
| Backoff.ExitStops | scraper/src/exponential_backoff.rs:53-60 | after `k` retries, an `Exit` at call `k` ends the run with the stop error after `Waits(k)` and `k + 1` calls |
| Backoff.SixRetriesGiveUp | scraper/src/exponential_backoff.rs:36-42 | six retries in a row give up with the retries error after exactly six calls and sleeps of 200, 400, 800, 1600 and 3200 ms |
| Backoff.BackoffBounds | scraper/src/exponential_backoff.rs:11 | no run calls the action more than `MAX_RETRIES + 1` (6) times, sleeps more than five times, or sleeps more than 30 s at once |
| LegacyBackoff.ExponentialBackoff | src/exponential_backoff.rs:17-77 | the result, the delays and the number of calls are those of the newer driver's `Run` whatever `debug` is; the log is the debug log when `debug` is set and empty otherwise |
| LegacyBackoff.Starts | src/exponential_backoff.rs:22-25 | the loop invariant holds before the first call, with nothing slept and nothing printed |
| LegacyBackoff.Returns | src/exponential_backoff.rs:27-35 | a `Return` at call `k` ends the run with its value and adds the success message in debug mode |
| LegacyBackoff.Exits | src/exponential_backoff.rs:57-66 | an `Exit` at call `k` ends the run with nothing and adds the exit message in debug mode |
| LegacyBackoff.RunsOut | src/exponential_backoff.rs:36-44 | a `Retry` at the sixth call ends the run with nothing and adds the max-retries and exhausted messages in debug mode |
| LegacyBackoff.Retries | src/exponential_backoff.rs:36-55 | any earlier `Retry` sleeps `WaitTime(k + 1)`, adds the matching waiting message in debug mode and keeps the invariant |
| LegacyBackoff.DriveLogAnnouncesWaits | src/exponential_backoff.rs:46-54 | by induction over the calls: the waiting messages announce exactly the delays slept, in order |
| LegacyBackoff.DriveLog | src/exponential_backoff.rs:17-77 | no contract of its own; `DriveLogAnnouncesWaits`, `DriveLogEnds` and `DebugLogShape` state its log |
| LegacyBackoff.DebugLogShape | src/exponential_backoff.rs:25-75 | a debug run announces every delay it sleeps and ends with one closing message: the success message exactly when it returned a value, the exit message exactly when asked to stop, the exhausted message exactly when the retries ran out |
| LegacyBackoff.DriveLogEnds | src/exponential_backoff.rs:25-75 | by induction: from any call on, the log is non-empty and its last message matches how the run ended, each as an if-and-only-if |
| Errors.FromBackoffError | scraper/src/errors.rs:14-21 | running out of retries becomes `MaxRetries` and a request to stop becomes `NetworkError`, each in both directions |
| Errors.FromBackoffErrorRange | scraper/src/errors.rs:14-21 | the conversion is one-to-one and never yields `Timeout`, `InvalidPage` or `ParsingErr` |
| Errors.FiveVariants | scraper/src/errors.rs:5-12 | `ScrapingError` has exactly the five distinct variants listed |
| PageFetch.Classify | scraper/src/lib.rs:14-40 | status 200 returns the response body, 429/502/503/504/500 ask to retry, any other status and any transport error ask to stop, each as an if-and-only-if |
| PageFetch.FirstPageWins | scraper/src/lib.rs:13-58 | after flooding statuses only, the first 200 answer with a non-empty body is the page text |
| PageFetch.EmptyPageInvalid | scraper/src/lib.rs:44-55 | a 200 answer whose body cannot be read or is empty gives `InvalidPage` |
| PageFetch.StopIsNetworkError | scraper/src/lib.rs:30-42 | a transport error or an unexpected status gives `NetworkError` |
| PageFetch.FloodingGivesUp | scraper/src/lib.rs:21-29 | six flooding statuses in a row give `MaxRetries` |
| PageFetch.PageTextOutcomes | scraper/src/lib.rs:13-58 | for every network behaviour, the page text is non-empty when present and is the body the driver returned; a failure is `NetworkError`, `MaxRetries` or `InvalidPage` |
| PageFetch.GetPageText | scraper/src/lib.rs:13-58 | no contract of its own; `PageTextOutcomes`, `FirstPageWins`, `EmptyPageInvalid`, `StopIsNetworkError` and `FloodingGivesUp` state its results |
| Isins.Utf8Width | scraper/src/isins/types.rs:15 | a character takes one to four UTF-8 bytes, exactly one when it is ASCII |
| Isins.ByteLen | scraper/src/isins/types.rs:15 | `str::len` counts bytes, never fewer than characters |
| Isins.CharsInBytes | scraper/src/isins/types.rs:16-18 | a byte offset that is a character boundary is the byte length of the prefix found |
| Isins.New | scraper/src/isins/types.rs:14-28 | any length other than 12 bytes gives `None`; a result splits the input into a 2-byte country, a 9-byte national number and a last digit whose value is the check |
| Isins.NewThenGetStr | scraper/src/isins/types.rs:14-32 | `get_str` of an ISIN built by `new` gives back the input |
| Isins.GetStrThenNew | scraper/src/isins/types.rs:14-32 | `new` of `get_str` gives back the ISIN, for a 2-byte country, a 9-byte national number and a one-digit check |
| Isins.GetStr | scraper/src/isins/types.rs:30-32 | no contract of its own; `NewThenGetStr` and `GetStrThenNew` state that it inverts `new` |
| Isins.NewAscii | scraper/src/isins/types.rs:14-28 | on ASCII input `new` never panics and gives `Some` exactly for twelve characters with a digit last, the parts being characters 0-1, 2-10 and 11 |
| Isins.NewPanics | scraper/src/isins/types.rs:16-18 | a 12-byte string with a character across byte 2 or byte 11 makes the slicing panic |
| Isins.NewShareIsin | scraper/src/isins/types.rs:48-57 | an empty name gives `None`; otherwise the result pairs the name with what `Isin::new` gives for the code, failing or panicking exactly when it does |
| Isins.IsinFromHref | scraper/src/isins/types.rs:66-71 | the ISIN candidate of a link contains no `/` and no `.` |
| Isins.IsinFromHrefShape | scraper/src/isins/types.rs:66-71 | the candidate is the start of the text after the last `/`, and it stops at the first `.` |
| Isins.IsinFromHrefOfLink | scraper/src/isins/types.rs:66-71 | a link `path/code.ext` whose code has no `/` or `.` and whose extension has no `/` yields the code |
| Isins.FromElement | scraper/src/isins/types.rs:58-78 | without the `href` or without the name span the result is `None`; otherwise it is `ShareIsin::new` of the span's first text (empty when it has none) and of the link's candidate |
| Isins.FromDb | scraper/src/isins/types.rs:80-87 | `Some` exactly when both columns are present and the code is a valid ISIN, with the stored name whatever it is |
| Isins.FromDbRoundTrip | scraper/src/isins/types.rs:80-87 | a stored row of a valid share gives that share back, whatever its name |
| LegacyIsins.NewShareIsin | src/isins/types.rs:39-48 | an empty name gives `None`; otherwise the name is paired with `Isin::new` of the code, failing or panicking exactly when it does, and the ISIN written back is the code |
| LegacyIsins.FromElement | src/isins/types.rs:49-68 | without the link or the name span the result is `None`; otherwise it is the older `new` of the span's first text and the link's candidate |
| LegacyIsins.NewShareIsinAgrees | src/isins/types.rs:39-48 | the older and the newer `ShareIsin::new` accept, reject and panic on the same inputs and build the same pair |
| LegacyIsins.FromElementAgrees | src/isins/types.rs:49-68 | the older and the newer `from_element` read every anchor alike |
| IsinsScrape.GridInGrid | scraper/src/isins/mod.rs:13-22 | every pushed task is a letter from `A` to `Z` and a page from 1 to 5 |
| IsinsScrape.GridInjective | scraper/src/isins/mod.rs:13-22 | no letter-page pair is pushed twice |
| IsinsScrape.GridOnto | scraper/src/isins/mod.rs:13-22 | every letter-page pair is pushed, at position `5 * letter + page - 1` |
| IsinsScrape.Tasks | scraper/src/isins/mod.rs:13-22 | the two nested loops push 130 tasks, task `i` being the `i`-th letter-page pair in order |
| IsinsScrape.ParsePage | scraper/src/isins/mod.rs:49-56 | the page is read without panic exactly when no anchor's `from_element` panics, and it yields at most one ISIN per anchor |
| IsinsScrape.ParsePageKeeps | scraper/src/isins/mod.rs:49-56 | by induction over the anchors: an ISIN is kept exactly when some anchor's `from_element` gives it |
| IsinsScrape.ScrapeIsins | scraper/src/isins/mod.rs:35-47 | a page that cannot be fetched gives `None`; otherwise the result is the page's ISINs, panicking exactly when reading them does |
| IsinsScrape.TaskResults | scraper/src/isins/mod.rs:13-22 | the 130 results in push order, result `i` being `scrape_isins` of task `i` over that task's own requests, a panic of `Isin::new` included |
| IsinsScrape.PushedTasks | scraper/src/isins/mod.rs:13-22 | the results drained are those of the tasks the two loops push, result `i` belonging to pushed task `i` |
| IsinsScrape.ScrapeAllIsins | scraper/src/isins/mod.rs:10-33 | the run panics exactly when some task panics, with the panic of one of the tasks, the first to arrive; otherwise the drain appends the lists in arrival order and skips `None`, and whatever the order of arrival the ISINs collected are exactly those of all 130 tasks, with their multiplicities |
| IsinsScrape.Drain | scraper/src/isins/mod.rs:24-30 | over the results in arrival order: a panic is returned exactly when one arrives, and it is the first to arrive; otherwise the result is the arrived lists appended in order, `None` skipped |
| IsinsScrape.ConcatStep | scraper/src/isins/mod.rs:26-30 | draining one more result appends its list, and nothing for `None` or a panic |
| IsinsScrape.PanicArrived | scraper/src/isins/mod.rs:26-30 | every result that arrives is the result of one of the tasks |
| IsinsScrape.SamePanics | scraper/src/isins/mod.rs:26-30 | the results arrive holding a panic exactly when the tasks' results hold one, whatever their order |
| IsinsScrape.ConcatBag | scraper/src/isins/mod.rs:26-30 | by induction: the appended lists hold exactly the ISINs of the results, counted with multiplicity |
| IsinsScrape.BagPermutation | scraper/src/isins/mod.rs:26-30 | by induction: the ISINs collected do not depend on the order the tasks finish in |
| IsinsScrape.NoDeduplication | scraper/src/isins/mod.rs:26-30 | an ISIN listed by two tasks is collected twice: the loop does not remove duplicates |
| Metrics.Wrap32 | scraper/src/metrics.rs:36-37 | two's-complement wrap-around into `i32`; a value already in range is unchanged |
| Metrics.WrapAdd | scraper/src/metrics.rs:36-37 | wrapping an operand early or late gives the same counter |
| Metrics.WrappingAddWraps | scraper/src/metrics.rs:36-37 | the `i32` `+` of two counters, written with one correction, is their sum wrapped into `i32` |
| Metrics.CountUp | scraper/src/metrics.rs:87-95 | one more on a wrapped count is the wrapped count plus one |
| Metrics.WrappingAddAssoc | scraper/src/metrics.rs:36-37 | wrapping `+` on `i32` is associative |
| Metrics.ErrorCounts.Add | scraper/src/metrics.rs:62-74 | every error kind's counter of the sum is the wrapping sum of the two counters of that kind |
| Metrics.ErrorCounts.Bump | scraper/src/metrics.rs:87-95 | the counter of `e` goes up by one (wrapping) and every other counter stays |
| Metrics.CountsEqual | scraper/src/metrics.rs:53-60 | two tallies agreeing on every error kind are equal: the five fields are the five kinds |
| Metrics.ErrorsIdentity | scraper/src/metrics.rs:76-85 | `empty` is a left and right identity of error `add` |
| Metrics.ErrorsMonoid | scraper/src/metrics.rs:62-74 | error `add` is commutative and associative, wrap-around included |
| Metrics.ErrorsAssoc | scraper/src/metrics.rs:62-74 | error `add` is associative, wrap-around included |
| Metrics.WrapAssoc | scraper/src/metrics.rs:36-37 | wrapping after each of two additions is associative |
| Metrics.MetricsCounts.Add | scraper/src/metrics.rs:31-41 | the totals and successes add with wrap-around and the error tallies add kind by kind |
| Metrics.MetricsMonoid | scraper/src/metrics.rs:31-51 | `empty` is the identity of metrics `add`, which is commutative and associative |
| Metrics.MetricsIdentity | scraper/src/metrics.rs:43-51 | `empty` is a left and right identity of metrics `add` |
| Metrics.MetricsCommute | scraper/src/metrics.rs:31-41 | metrics `add` is commutative |
| Metrics.MetricsAssoc | scraper/src/metrics.rs:31-41 | metrics `add` is associative |
| Metrics.ScrapingErrorMetrics.Empty | scraper/src/metrics.rs:76-85 | a new tally has every counter at zero |
| Metrics.ScrapingErrorMetrics.Update | scraper/src/metrics.rs:87-95 | in place: the counter of `e` goes up by one (wrapping) and every other counter is unchanged |
| Metrics.ScrapingErrorMetrics.Counts | scraper/src/metrics.rs:53-60 | no contract of its own; the five counters as one value, through which `Empty`, `Update` and `CountsEqual` are stated |
| Metrics.ScrapingMetrics.Empty | scraper/src/metrics.rs:43-51 | new metrics have zero totals and a fresh empty error tally |
| Metrics.ScrapingMetrics.Counts | scraper/src/metrics.rs:24-28 | no contract of its own; the totals and the error tally as one value, through which `Empty` and `SharesScrape.ScrapeAllShares` are stated |
| Metrics.WithMetrics.constructor | scraper/src/metrics.rs:17-22 | the result is held and the metrics are those given |
| Metrics.WithMetrics.Unmetric | scraper/src/metrics.rs:14-16 | the held result is returned and taken out, leaving `None` |
| SharesScrape.Successes | scraper/src/shares/mod.rs:41-49 | the pushed shares are never more than the outcomes drained |
| SharesScrape.ErrorCount | scraper/src/shares/mod.rs:41-49 | the number of outcomes of one error kind is never more than the outcomes drained |
| SharesScrape.TaskOutcomes | scraper/src/shares/mod.rs:27-37 | one task per ISIN entry, each with its own requests and its own time; a success carries its entry's ISIN, a failure is a network, retries, invalid-page or timeout error, a timeout happens exactly when the task ran past five minutes, and no task reports a parsing error |
| SharesScrape.DuplicateTasksIndependent | scraper/src/shares/mod.rs:27-37 | two tasks for the same ISIN can end differently: one succeeds while the other times out |
| SharesScrape.SuccessesMultiset | scraper/src/shares/mod.rs:41-49 | each share is pushed exactly as often as it occurs as an `Ok` outcome |
| SharesScrape.ErrorCountMultiset | scraper/src/shares/mod.rs:41-49 | the tally of an error kind is the number of `Err` outcomes of that kind |
| SharesScrape.OutcomesPartition | scraper/src/shares/mod.rs:41-49 | every outcome is either one success or one of the five error kinds, so these counts add up to the number of outcomes |
| SharesScrape.ArrivalOrderIrrelevant | scraper/src/shares/mod.rs:25-49 | two arrival orders of the same outcomes give the same shares (as a multiset) and the same tallies |
| SharesScrape.TallyCounts | scraper/src/shares/mod.rs:41-49 | the drained metrics keep `total` and hold the number of successes and of each error kind, wrapped into `i32` |
| SharesScrape.Tally | scraper/src/shares/mod.rs:41-49 | no contract of its own; `TallyCounts` and `DrainedMetrics` state its counts |
| SharesScrape.ScrapeAllShares | scraper/src/shares/mod.rs:20-53 | for any arrival order of the per-task outcomes: `total` is the number of ISIN entries; the shares are the `Ok` outcomes in arrival order, a permutation of the tasks' successes, each carrying one of the run's ISINs; each tally counts its kind and parsing errors stay at zero; without wrap-around successes plus errors equal `total` |
| SharesScrape.DrainedMetrics | scraper/src/shares/mod.rs:20-53 | for any per-task outcomes, one per ISIN entry, the drain's result and metrics depend only on the outcomes, not on their arrival order, and balance when nothing wraps |
| SharesScrape.ScrapeShareWithMaxDuration | scraper/src/shares/mod.rs:55-74 | within the limit the task's own result, otherwise `Err(Timeout)`; a timeout is reported exactly when the limit was passed or the task itself timed out |
| SharesScrape.ScrapedShare | scraper/src/shares/mod.rs:76-89 | a share exactly when the page text was fetched, then with the requested ISIN; otherwise the fetch error unchanged, which is a network, retries or invalid-page error |
| SharesScrape.ParsePage | scraper/src/shares/mod.rs:91-96 | the share read from the page's property selector always carries the requested ISIN |
| SharesScrape.ScrapeShare | scraper/src/shares/mod.rs:76-89 | the method computes `ScrapedShare`; a fetched page always yields a share with the requested ISIN |
| Models.Field | scraper/src/shares/models/gen_macro.rs:16-18 | a field is set exactly when the selector has the property and its element parses, and it is then the parsed value |
| Models.ShareDetailsFromSelector | scraper/src/shares/models/share_details.rs:12-15 | the record carries the share's ISIN string |
| Models.ShareDetailsWithIsin | scraper/src/shares/models/gen_macro.rs:21-28 | the record carries the ISIN string and every field is `None` |
| Models.MarketInformationFromSelector | scraper/src/shares/models/market_information.rs:1-19 | the record carries the share's ISIN string |
| Models.MarketInformationWithIsin | scraper/src/shares/models/gen_macro.rs:21-28 | the record carries the ISIN string and every field is `None` |
| Models.PriceDataFromSelector | scraper/src/shares/models/price_data.rs:31-50 | the record carries the share's ISIN string |
| Models.PriceDataWithIsin | scraper/src/shares/models/gen_macro.rs:21-28 | the record carries the ISIN string and every field is `None` |
| Models.PerformanceMetricsFromSelector | scraper/src/shares/models/performance_metrics.rs:1-17 | the record carries the share's ISIN string |
| Models.PerformanceMetricsWithIsin | scraper/src/shares/models/gen_macro.rs:21-28 | the record carries the ISIN string and every field is `None` |
| Models.ShareWithIsin | scraper/src/shares/models/share.rs:22-32 | the share keeps its identity, all four sub-records carry its ISIN string and are empty |
| Models.ShareFromSelector | scraper/src/shares/models/share.rs:34-44 | the share keeps its identity and all four sub-records carry its ISIN string |
| Models.FromEmptySelector | scraper/src/shares/models/share.rs:22-44 | reading through a selector that found nothing gives the same share as `with_isin` |
| Models.IsinStringOfValidCode | scraper/src/shares/models/gen_macro.rs:14 | for a valid code the sub-records' ISIN string is the code the share was created from |
| Models.FieldOfPage | scraper/src/shares/models/gen_macro.rs:17 | a field read from a page is the first value cell of the last row labelled with one of the property's terms, parsed |
| Models.ShareFromRow | scraper/src/shares/models/share.rs:46-64 | the row decodes exactly when every column group decodes; otherwise the error is that of the first group that fails, in field order |
| Models.I32AsU64 | scraper/src/shares/models/mod.rs:131 | Rust's `as u64` on an `i32`: the result is below 2^64, congruent to the value, and the value itself when it is not negative |
| Models.ShareFromFullInfo | scraper/src/shares/models/mod.rs:102-162 | fails exactly when `Isin::new` panics; otherwise the records carry the row's ISIN string, the identity defaults a missing name and an invalid code, the contract count is present exactly when the column is, and the four price references are always `Some` |
| Models.FullInfoRoundTrip | scraper/src/shares/models/mod.rs:102-162 | a row with a valid code, a name and no negative contract count is recovered from the share built from it |
| Models.FullInfoDefaults | scraper/src/shares/models/mod.rs:105-108 | an invalid code and a missing name give the default identity, while the records still carry the row's ISIN string |
| Models.NegativeCountWraps | scraper/src/shares/models/mod.rs:131 | a contract count of -1 becomes 2^64 - 1 |
| PropertySelectors.PropertySelector.GetProperty | scraper/src/shares/property_selector.rs:84-102 | `None` for a property with no recorded label, for a label with no indexed row and for a row with no value cell; otherwise the row's first value cell |
| PropertySelectors.FirstValue | scraper/src/shares/property_selector.rs:95-101 | the first value cell of a row, `None` exactly when it has none |
| PropertySelectors.LabelOf | scraper/src/shares/property_selector.rs:66-67 | a row has a label exactly when it has a `strong` element, and the label is its text lower-cased |
| PropertySelectors.LastMatching | scraper/src/shares/property_selector.rs:64-75 | the row found is one of the rows and matches the terms; none is found exactly when no row matches |
| PropertySelectors.LastWithLabel | scraper/src/shares/property_selector.rs:70 | the row found carries the label; none is found exactly when no row does |
| PropertySelectors.NewPropertySelector | scraper/src/shares/property_selector.rs:59-82 | the three nested loops compute the selector of the whole document, and every recorded label of a listed property has an indexed row |
| PropertySelectors.ScanRowsSnoc | scraper/src/shares/property_selector.rs:65-74 | scanning one more row is one more step of the row loop |
| PropertySelectors.TableStarts | scraper/src/shares/property_selector.rs:64-65 | a table's row loop starts from the rows of the tables before it |
| PropertySelectors.RowStep | scraper/src/shares/property_selector.rs:65-74 | the row loop over a prefix of a table extends by one step per row |
| PropertySelectors.TableEnds | scraper/src/shares/property_selector.rs:64-75 | at the end of a table's row loop the rows seen are those of the tables so far, that one included |
| PropertySelectors.MappingStep | scraper/src/shares/property_selector.rs:63-76 | one more mapping of the outer loop is one more scan of every row of the document |
| PropertySelectors.StepWellFormed | scraper/src/shares/property_selector.rs:69-72 | a label is always indexed together with its property, so every recorded label keeps an indexed row |
| PropertySelectors.ScanRowsWellFormed | scraper/src/shares/property_selector.rs:64-75 | scanning rows keeps every recorded label indexed |
| PropertySelectors.ScanMappingsWellFormed | scraper/src/shares/property_selector.rs:63-76 | scanning mappings from empty maps keeps every recorded label indexed |
| PropertySelectors.BuildWellFormed | scraper/src/shares/property_selector.rs:59-82 | in a built selector every recorded label has an indexed row |
| PropertySelectors.ScanRowsProp | scraper/src/shares/property_selector.rs:64-75 | one mapping's scan points its property at the label of the last matching row, or leaves the property map alone when no row matches |
| PropertySelectors.ScanRowsIndex | scraper/src/shares/property_selector.rs:69-71 | a label holding one of the mapping's terms is indexed under the last row carrying it; other labels keep their rows |
| PropertySelectors.ScanRowsLatest | scraper/src/shares/property_selector.rs:70 | if every indexed label is at its last row, scanning keeps it so |
| PropertySelectors.ScanMappingsLatest | scraper/src/shares/property_selector.rs:63-76 | after all mappings every indexed label points at the last row carrying it, later rows overwriting earlier ones |
| PropertySelectors.ScanMappingsOther | scraper/src/shares/property_selector.rs:71 | mappings of other properties never change a property's label |
| PropertySelectors.ScanMappingsProp | scraper/src/shares/property_selector.rs:63-76 | with distinct properties, each ends at the label of the last row its own terms match, or what it had before |
| PropertySelectors.LastMatchingLabel | scraper/src/shares/property_selector.rs:69-71 | the last row matching a mapping is also the last row carrying its label, so the index and the property map agree |
| PropertySelectors.MappingsDistinct | scraper/src/shares/property_selector.rs:12-51 | the 27 properties of the table differ pairwise |
| PropertySelectors.MappingsArePositional | scraper/src/shares/selectors.rs:1-62 | the mapping table lists the positional table's properties in the same order, all but its first |
| PropertySelectors.BuildProp | scraper/src/shares/property_selector.rs:59-82 | a property is recorded exactly when some row matches its terms, and then points at the label of the last such row in document order |
| PropertySelectors.Build | scraper/src/shares/property_selector.rs:59-82 | no contract of its own; `NewPropertySelector` is proved to compute it, and `BuildProp`, `BuildWellFormed` and `GetPropertyOfBuild` state what it records |
| PropertySelectors.GetPropertyOfBuild | scraper/src/shares/property_selector.rs:59-102 | a property read from a built selector is the first value cell of the last row its terms match, and `None` when there is none |
| PropertySelectors.CodiceIsinUnmapped | scraper/src/shares/property_selector.rs:12-51 | the table has 27 entries and none is `codice_isin`, so that property is never found |
| Selectors.IndexOf | scraper/src/shares/selectors.rs:4-36 | finds the first arm naming the property, and nothing exactly when no arm does |
| Selectors.RowFor | scraper/src/shares/selectors.rs:4-36 | a known property gets the place name of its arm; any other name gets `None` |
| Selectors.ParseRowStr | scraper/src/shares/selectors.rs:52-61 | no `_`, a side other than `left` or `right`, or an index that is not a `usize` all give `None`; otherwise table 0 or 1 as the side says, and a cell one below the index (mod 2^64) |
| Selectors.SelectForProp | scraper/src/shares/selectors.rs:3-50 | an unknown property finds nothing; a found element is always some cell of some table |
| Selectors.ParseRowStrRoundTrip | scraper/src/shares/selectors.rs:52-61 | `left_N` and `right_N` for `N >= 1` parse back to table 0 or 1 and cell `N - 1` |
| Selectors.RowNameRoundTrip | scraper/src/shares/selectors.rs:4-61 | every place name of the table parses back to its arm's position |
| Selectors.RowForInjective | scraper/src/shares/selectors.rs:4-36 | two properties never share a place name |
| Selectors.PositionInjective | scraper/src/shares/selectors.rs:4-36 | two arms never share a (table, cell) position |
| Selectors.SelectorPropsDistinct | scraper/src/shares/selectors.rs:4-32 | no property appears in two arms |
| Selectors.RowForArm | scraper/src/shares/selectors.rs:4-32 | the property of each arm gets that arm's place name |
| Selectors.SelectForPropAt | scraper/src/shares/selectors.rs:38-49 | each listed property reads the cell at its arm's position, and finds nothing when the page has too few tables |
| Selectors.RowForExamples | scraper/src/shares/selectors.rs:5-32 | `codice_isin` is `left_1`, `numero_contratti` `left_16`, `controvalore` `right_1` and `performance_1_anno` `right_12` |
| Selectors.RowForNamed | scraper/src/shares/selectors.rs:4-32 | an arm's property is looked up to that arm's name |
| Selectors.ParseRowStrRejects | scraper/src/shares/selectors.rs:52-61 | `middle_1`, `left1` and `left_x` are all rejected |
| Parsers.ParseInt | src/shares/parsers.rs:138-140 | a parsed integer always fits a `u64` |
| Parsers.ParseDatetime | src/shares/parsers.rs:166-178 | the spaced format wins when it parses; only otherwise is the dashed format tried; a result is always a valid calendar date and time |
| Parsers.ParseDate | src/shares/parsers.rs:180-183 | a parsed date is always a valid calendar date |
| Parsers.SafeParseU64 | src/shares/parsers.rs:37-41 | a parsed count always fits a `u64` |
| Parsers.SafeParsePriceDate | src/shares/parsers.rs:43-54 | a reference is found exactly when the cell's text (or `N/A`) holds `" - "` |
| Parsers.SafeParsePriceDateTime | src/shares/parsers.rs:56-67 | a reference is found exactly when the cell's text (or `N/A`) holds `-` |
| Parsers.DefaultParseFloat | src/shares/parsers.rs:69-76 | the parsed value, or 0 when there is none |
| Parsers.CleanFloatText | src/shares/parsers.rs:145-149 | no contract of its own; `CleanDigitEnds` states that text already starting and ending with a digit is left as it is |
| Parsers.Normalize | src/shares/parsers.rs:155-159 | no contract of its own; `NormalizeItalian` states that an Italian decimal loses its group dots and gets a point for its comma |
| Parsers.ParseFloat | src/shares/parsers.rs:142-164 | no contract of its own; `ItalianDecimal`, `SignsAndPercent` and `DefaultParseFloat` state its results |
| Parsers.SafeParseFloat | src/shares/parsers.rs:17-21 | no contract of its own; the first text node read by `parse_float`, stated through `ItalianDecimal` and `DefaultParseFloat` |
| Parsers.SafeParseString | src/shares/parsers.rs:23-27 | no contract of its own; the element's first text node, unchanged, or none when it has no text |
| Parsers.SafeParseDateTime | src/shares/parsers.rs:29-35 | no contract of its own; the first text node read by `parse_datetime`, stated through `DefaultParseDateTime` and `Dates.ChronoDateTimeRoundTrip` |
| Parsers.DefaultParseString | src/shares/parsers.rs:78-82 | the first text node, or `N/A` when the element has none |
| Parsers.DefaultParseDateTime | src/shares/parsers.rs:84-91 | the parsed date-time, or the default one when there is none |
| Parsers.DefaultParseU64 | src/shares/parsers.rs:93-97 | the parsed count, or 0 when there is none |
| Parsers.DefaultParsePriceDate | src/shares/parsers.rs:99-117 | the safe reference when there is one, otherwise both parts `None` |
| Parsers.DefaultParsePriceDateTime | src/shares/parsers.rs:119-136 | without a `-` both parts `None`; with one both parts present, an unreadable price as 0 and an unreadable date-time as the default |
| Parsers.CleanDigitEnds | src/shares/parsers.rs:145-149 | text starting and ending with a digit is left unchanged by the cleaning |
| Parsers.ParseUnsignedText | src/shares/parsers.rs:151-163 | cleaned text that starts with a digit is not negated and is read in its normalised form |
| Parsers.NormalizeItalian | src/shares/parsers.rs:155-156 | an Italian decimal loses its group dots and its comma becomes a point |
| Parsers.ReadPointed | src/shares/parsers.rs:161-162 | digits, a point and digits are read as their decimal value |
| Parsers.ItalianDecimal | src/shares/parsers.rs:142-164 | `1.234,56`-style text is read as its value, the dots grouping the whole part and the comma marking the fraction |
| Parsers.ItalianWhole | src/shares/parsers.rs:142-164 | an integer with dot separators, or bare digits, is read as its whole value |
| Parsers.SignsAndPercent | src/shares/parsers.rs:145-163 | leading `+` signs and trailing `%` signs are ignored, and any number of `-` signs after the `+` negates the value once |
| Parsers.Negative | src/shares/parsers.rs:151-163 | a leading `-` negates a number |
| Parsers.NegativeItalian | src/shares/parsers.rs:142-164 | `-1.234,56` is read as -1234.56 |
| Parsers.PercentItalian | src/shares/parsers.rs:145-149 | `+12,5%`-style text is read as its unsigned value |
| Parsers.ItalianThousandsExample | src/shares/parsers.rs:142-164 | `1.234,56` is read as 1234.56 |
| Parsers.ItalianPlainExample | src/shares/parsers.rs:142-164 | `1234,56` is read as 1234.56 |
| Parsers.ItalianCommaExample | src/shares/parsers.rs:142-164 | `1,234` is read as 1.234, the comma always marking the fraction |
| Parsers.NotItalian | src/shares/parsers.rs:155-159 | text the pattern rejects only loses its commas before it is read |
| Parsers.EnglishExample | src/shares/parsers.rs:142-164 | `1,234.56` is read as 1234.56 |
| Parsers.GroupedInt | src/shares/parsers.rs:138-140 | an integer with dot separators is read as its digits when the value fits a `u64`, and rejected otherwise |
| Parsers.UnsignedDigits | src/shares/parsers.rs:138-140 | bare digits are read as their value exactly when it is below the bound |
| Parsers.NoTextParsesNothing | src/shares/parsers.rs:138-164 | empty text is neither a float nor an integer |
| Parsers.ParseDatetimeRoundTrip | src/shares/parsers.rs:166-178 | a valid date-time written in either format is read back unchanged |
| Parsers.ParseDateRoundTrip | src/shares/parsers.rs:180-183 | a valid date written as `%d/%m/%y` is read back unchanged |
| Parsers.PriceDateSplit | src/shares/parsers.rs:43-54 | a blank-free price, `" - "`, and a date are each parsed on their own |
| Parsers.PriceDateRoundTrip | src/shares/parsers.rs:43-54 | an Italian price, `" - "` and a formatted date give back that value and that date |
| Parsers.MissingCells | src/shares/parsers.rs:43-82 | an element without text reads as `N/A`, which holds no separator, so no price reference is found and the default one is empty |
| Parsers.PriceDateTimeSplit | src/shares/parsers.rs:56-67 | a price without `-`, a `-` and a date-time are each trimmed and parsed on their own |
| Parsers.NegativePriceLost | src/shares/parsers.rs:56-67 | the split at the first `-` drops the price of a negative value |
| Parsers.DefaultNegativePrice | src/shares/parsers.rs:119-136 | the default reference then stores a negative price as 0 |
| Numbers.Float.Negate | src/shares/parsers.rs:163 | negation keeps a value finite, infinite or NaN, flips a finite value's sign and an infinity's direction |
| Numbers.DigitsValue | src/shares/parsers.rs:138-140 | a string of `n` digits denotes a value below 10^n |
| Numbers.DecimalString | scraper/src/shares/selectors.rs:5-32 | the rendering is non-empty, all digits, denotes the number, and has no leading zero |
| Numbers.FindExponentMark | src/shares/parsers.rs:161-162 | the position of the first `e` or `E`, and none exactly when there is no such letter |
| Numbers.RustParseUnsigned | scraper/src/shares/selectors.rs:54 | a parsed unsigned integer is below the type's bound |
| Numbers.JavaTrim | src/main/java/com/leo/scraper/Scraper.java:148 | the blank-stripping inside `Double.valueOf` never lengthens a string and leaves no character up to U+0020 at either end |
| Numbers.JavaIntegerValueOf | src/main/java/com/leo/scraper/Scraper.java:153-154 | a parsed `Integer` is within the 32-bit range |
| Numbers.GroupedIntegerMatches | src/shares/parsers.rs:143 | an integer with optional dots between groups of three, optionally followed by a comma and digits, matches the thousands pattern |
| Numbers.GroupedIntegerChars | src/shares/parsers.rs:143 | text matching the whole-number part of the pattern is made of digits and dots and starts and ends with a digit |
| Numbers.ScaleDecimal | src/shares/parsers.rs:161-162 | the mantissa and exponent read from `i.f` denote `i.f` exactly |
| Numbers.ParsePointedDigits | src/shares/parsers.rs:161-162 | digits, a point and digits are read as their exact decimal value |
| Numbers.ParseBlankAfterPoint | src/main/java/com/leo/scraper/Scraper.java:148 | digits, a point, then digits broken by a blank are not a number |
| Numbers.ParseDigits | src/shares/parsers.rs:161-162 | a run of digits is read as its value |
| Numbers.RustParseF64 | src/shares/parsers.rs:161-163 | no contract of its own; `ParseDigits`, `ParsePointedDigits` and `ScaleDecimal` state the values it reads |
| Numbers.JavaDoubleValueOf | src/main/java/com/leo/scraper/Scraper.java:148 | no contract of its own; `ParsePointedDigits`, `ParseBlankAfterPoint` and `JavaScraper.JavaItalianDecimal` state what it reads and rejects |
| Common.TrimStart | src/shares/parsers.rs:146 | only leading whitespace is removed, and the result does not start with whitespace |
| Common.TrimEnd | src/shares/parsers.rs:149 | only trailing whitespace is removed, and the result does not end with whitespace |
| Common.TrimStartMatches | src/shares/parsers.rs:147 | only leading copies of the character are removed, and none is left in front |
| Common.TrimEndMatches | src/shares/parsers.rs:148 | only trailing copies of the character are removed, and none is left behind |
| Common.RemoveChar | src/shares/parsers.rs:156 | the result is no longer and holds no copy of the character |
| Common.RemoveCharCounts | src/shares/parsers.rs:156 | every copy of the character is dropped and every other character kept as often as it occurs |
| Common.ReplaceChar | src/shares/parsers.rs:156 | same length, each occurrence of the character replaced and every other character kept in place |
| Common.FindFrom | src/shares/parsers.rs:47 | the first occurrence of the separator at or after the start, and none exactly when there is none |
| Common.SplitOnce | src/shares/parsers.rs:47 | splits exactly when the separator occurs, at its first occurrence, and the parts rejoin to the text |
| Common.SplitOnceFirst | src/shares/parsers.rs:60 | a text whose first part holds no first character of the separator splits right after that part |
| Common.LastSegment | scraper/src/isins/types.rs:67-68 | the text after the last separator, holding none, and the whole text when there is none |
| Common.FirstSegment | scraper/src/isins/types.rs:69 | the text before the first separator, holding none, and the whole text when there is none |
| Common.SplitAll | src/main/java/com/leo/scraper/share/parser/SpecialRows.java:55 | there is always a piece, and just one exactly when the separator does not occur |
| Common.DropTrailingEmpty | src/main/java/com/leo/scraper/share/parser/SpecialRows.java:55 | a prefix of the pieces that ends with a non-empty piece, everything dropped being empty |
| Common.JavaSplit | src/main/java/com/leo/scraper/share/parser/SpecialRows.java:47 | a text without the separator is one piece |
| Common.ToLowerChar | scraper/src/shares/property_selector.rs:67 | ASCII capitals go to their small letters and characters other than capitals are unchanged |
| Common.ToLower | scraper/src/shares/property_selector.rs:67 | same length, each character lower-cased on its own |
| Common.TrimVisible | src/shares/parsers.rs:145-149 | trimming text that starts and ends with a visible character changes nothing |
| Common.TrimTwice | src/shares/parsers.rs:145-149 | trimming is idempotent |
| Common.TrimStartMatchesRep | src/shares/parsers.rs:147 | any number of leading copies of the character are all removed |
| Common.TrimEndMatchesRep | src/shares/parsers.rs:148 | any number of trailing copies of the character are all removed |
| Dates.DaysInMonth | src/shares/parsers.rs:180-183 | every month has 28 to 31 days |
| Dates.LeadingDigits | src/shares/parsers.rs:166-183 | the run of leading digits a numeric field takes, at most its width, stopping at the first non-digit |
| Dates.ChronoScan | src/shares/parsers.rs:166-183 | a successful scan yields one number per numeric field of the format |
| Dates.ChronoParseDate | src/shares/parsers.rs:180-183 | a parsed `%d/%m/%y` date is always a valid calendar date |
| Dates.ChronoDateTimeOf | src/shares/parsers.rs:172-177 | the six scanned numbers give a date-time exactly when they form a valid date and a valid time |
| Dates.ChronoParseDateTime | src/shares/parsers.rs:172-177 | a parsed date-time is always a valid date and time |
| Dates.JavaScan | src/main/java/com/leo/scraper/Scraper.java:22-23 | a successful scan yields one number per numeric field of the pattern |
| Dates.JavaResolveDate | src/main/java/com/leo/scraper/Scraper.java:158 | a date is resolved exactly when month is 1-12 and day 1-31; a day past the month's end is clamped to its last day |
| Dates.JavaParseDate | src/main/java/com/leo/scraper/Scraper.java:158 | a parsed `dd/MM/yy` date is always a valid calendar date |
| Dates.JavaDateTimeOf | src/main/java/com/leo/scraper/Scraper.java:160 | a resolved date-time is always a valid date and a valid Java time; below hour 24 it is the resolved date at the time read; `24.00.00` becomes midnight of the next day; hour 24 with other minutes or seconds, and hours past 24, are rejected |
| Dates.NextDay | src/main/java/com/leo/scraper/Scraper.java:160 | the day after a valid date: the next day of the month, the first of the next month, or the first of January of the next year; none only after 31/12/99, the last day two-digit years can hold |
| Dates.JavaEndOfDay | src/main/java/com/leo/scraper/Scraper.java:160 | hour 24 with zero minutes and seconds resolves to midnight of the next day; with any other minutes or seconds it is rejected |
| Dates.JavaEndOfDayRoundTrip | src/main/java/com/leo/scraper/Scraper.java:22 | the text `dd/MM/yy - 24.00.00` of a date is parsed as midnight of the day after |
| Dates.JavaParseDateTime | src/main/java/com/leo/scraper/Scraper.java:160 | a parsed `dd/MM/yy - H.mm.ss` date-time is always valid, `24.00.00` included, which the resolver has already rolled over to the next day |
| Dates.Pad2 | src/shares/parsers.rs:166-183 | two digits denoting the number |
| Dates.ChronoRoundTrip | src/shares/parsers.rs:166-183 | chrono reads back every list of numbers written into a readable format |
| Dates.JavaRoundTrip | src/main/java/com/leo/scraper/Scraper.java:22-23 | Java reads back every list of numbers written into a readable pattern |
| Dates.ChronoFormatsReadable | src/shares/parsers.rs:166-183 | all three chrono formats are readable |
| Dates.JavaFormatsReadable | src/main/java/com/leo/scraper/Scraper.java:22-23 | both Java patterns are readable |
| Dates.ChronoDateRoundTrip | src/shares/parsers.rs:180-183 | every valid date is read back from its `dd/mm/yy` form |
| Dates.ChronoDateTimeRoundTrip | src/shares/parsers.rs:166-178 | every valid date-time is read back from its spaced and from its dashed form |
| Dates.FormatDate | src/shares/parsers.rs:180-183 | no contract of its own; the `dd/mm/yy` form that `ChronoDateRoundTrip` and `JavaDateRoundTrip` read back |
| Dates.FormatDateTime | src/shares/parsers.rs:166-178 | no contract of its own; the spaced and dashed forms that `ChronoDateTimeRoundTrip` and `JavaDateTimeRoundTrip` read back |
| Dates.ChronoRejectsOverflowDay | src/shares/parsers.rs:180-183 | chrono rejects a day past the end of its month |
| Dates.JavaDashedIsChronoDashed | src/main/java/com/leo/scraper/Scraper.java:22 | Java's date-time pattern and chrono's dashed format write the same text |
| Dates.JavaDateRoundTrip | src/main/java/com/leo/scraper/Scraper.java:23 | a valid date is read back; a day past the month's end comes back clamped to its last day |
| Dates.JavaDateIsChronoDate | src/main/java/com/leo/scraper/Scraper.java:23 | Java's date pattern and chrono's date format write the same text |
| Dates.JavaDateTimeRoundTrip | src/main/java/com/leo/scraper/Scraper.java:22 | Java reads every valid date-time back from its dashed form |
| Dates.ChronoScanAppend | src/shares/parsers.rs:166-178 | a readable format followed by more fields reads its own rendering, then goes on with the rest |
| Dates.SpacedRejectsDashed | src/shares/parsers.rs:172-177 | the spaced format never reads a dashed date-time, so `parse_datetime` reaches its second format |
| Dates.DashedNotSpaced | src/shares/parsers.rs:168-170 | after a date, a format wanting a number right after a blank rejects a rendered `" - "` |
| Dates.SpacedShape | src/shares/parsers.rs:167-168 | `dd/MM/yy HH.MM.SS` is the date, a blank and the time of day |
| Dates.SpacedBlank | src/main/java/com/leo/scraper/share/parser/SpecialRows.java:65 | a spaced date-time contains a blank and no `" - "` |
| Dates.FormatDateBlankFree | src/main/java/com/leo/scraper/share/parser/SpecialRows.java:65-70 | a formatted date holds neither a blank nor `" - "` |
| Dates.SpacedExample | src/shares/parsers.rs:167 | 4 November 24 at 17:45:00 is written `04/11/24 17.45.00` |
| ShareProps.Puts | src/main/java/com/leo/scraper/share/ShareProps.java:9-41 | the map filled by the `put` calls has exactly the keys that were put |
| ShareProps.PutsLookup | src/main/java/com/leo/scraper/share/ShareProps.java:9-41 | a key maps to the value of its last `put` |
| ShareProps.PlaceIndex | src/main/java/com/leo/scraper/share/ShareProps.java:11-39 | each place of the page has its `put` call, at the place's side and row |
| ShareProps.KeyTable | src/main/java/com/leo/scraper/share/ShareProps.java:11-39 | the 28 `put` calls of `rowToProp` are keyed by the places in order, `left_1` to `left_16` then `right_1` to `right_12` |
| ShareProps.RowToPropKeys | src/main/java/com/leo/scraper/share/ShareProps.java:9-41 | `rowToProp` has an entry for `side + "_" + row` exactly when that is one of the page's places |
| ShareProps.PlaceHasKey | src/main/java/com/leo/scraper/share/ShareProps.java:9-41 | every place of the page has an entry |
| ShareProps.KeyHasPlace | src/main/java/com/leo/scraper/share/ShareProps.java:9-41 | only places of the page have an entry |
| ShareProps.RowKey | src/main/java/com/leo/scraper/share/parser/SpecialRows.java:47 | no contract of its own; `RowToPropKeys` and `KeyParts` state which keys it forms |
| ShareProps.IsPlace | src/main/java/com/leo/scraper/share/ShareProps.java:9-41 | no contract of its own; `RowToPropKeys`, `PlaceHasKey` and `KeyHasPlace` state that it gives the keys of `rowToProp` |
| ShareProps.RowToPropOnlyPlaces | src/main/java/com/leo/scraper/share/ShareProps.java:9-41 | every key of `rowToProp` is the key of a place |
| ShareProps.RowKeysDistinct | src/main/java/com/leo/scraper/share/ShareProps.java:11-39 | no two `put` calls of `rowToProp` share a key |
| ShareProps.RowToPropValue | src/main/java/com/leo/scraper/share/ShareProps.java:9-41 | the entry of a place is the text of its own `put` call |
| ShareProps.KeyParts | src/main/java/com/leo/scraper/share/ShareProps.java:11-39 | a key determines its side and its row |
| ShareProps.IntStringDecimal | src/main/java/com/leo/scraper/share/ShareProps.java:11-39 | an `int` whose rendering is that of `n` is `n` |
| ShareProps.SplitAtMark | src/main/java/com/leo/scraper/share/ShareProps.java:11-39 | text with one `_` before a part without `_` splits back into its two parts |
| ShareProps.LastMark | src/main/java/com/leo/scraper/share/ShareProps.java:11-39 | in `x_y` with no `_` in `y`, the last `_` is the one after `x` |
| ShareProps.Entries | src/main/java/com/leo/scraper/share/ShareProps.java:11-39 | every entry names one property, except those of the four price-and-date places, which name two separated by a comma |
| ShareProps.ReferenceEntry | src/main/java/com/leo/scraper/share/ShareProps.java:34 | `right_7` splits at its comma into the reference price and its date-time |
| ShareProps.OfficialEntry | src/main/java/com/leo/scraper/share/ShareProps.java:35 | `right_8` splits at its comma into the official price and its date |
| ShareProps.SplitPair | src/main/java/com/leo/scraper/share/ShareProps.java:30-35 | two comma-free names joined by a comma split back into the two |
| ShareProps.EntryProps | src/main/java/com/leo/scraper/share/ShareProps.java:9-41 | the entry of every place names one property, or two at the price-and-date places |
| ShareProps.CountType | src/main/java/com/leo/scraper/share/ShareProps.java:61 | `numeroContratti` is read as an `Integer` |
| ShareProps.DateTimeTypes | src/main/java/com/leo/scraper/share/ShareProps.java:43-80 | the properties that carry a time of day are read as date-times |
| ShareProps.DateTypes | src/main/java/com/leo/scraper/share/ShareProps.java:43-80 | the other date properties are read as dates |
| SpecialRows.PriceDateRows | src/main/java/com/leo/scraper/share/parser/SpecialRows.java:24-38 | the price-date rows are exactly right rows 3, 5, 7 and 8, which are exactly the places whose entry names two properties |
| SpecialRows.PerformanceRows | src/main/java/com/leo/scraper/share/parser/SpecialRows.java:40-42 | the performance rows are exactly right rows 10 to 12, places of the page with one property each and never price-date rows |
| SpecialRows.IsPriceDateReferenceRow | src/main/java/com/leo/scraper/share/parser/SpecialRows.java:24-26 | no contract of its own; `PriceDateRows` states the rows it accepts |
| SpecialRows.IsYearRow | src/main/java/com/leo/scraper/share/parser/SpecialRows.java:28-30 | no contract of its own; `PriceDateRows` states the rows it accepts |
| SpecialRows.IsReferencePriceRow | src/main/java/com/leo/scraper/share/parser/SpecialRows.java:32-34 | no contract of its own; `PriceDateRows` states the row it accepts |
| SpecialRows.IsUfficialPriceRow | src/main/java/com/leo/scraper/share/parser/SpecialRows.java:36-38 | no contract of its own; `PriceDateRows` states the row it accepts |
| SpecialRows.IsPerformanceRow | src/main/java/com/leo/scraper/share/parser/SpecialRows.java:40-42 | no contract of its own; `PerformanceRows` states the rows it accepts |
| SpecialRows.Share.constructor | src/main/java/com/leo/scraper/share/Share.java:11 | a new share has no properties |
| SpecialRows.Share.GetProperty | src/main/java/com/leo/scraper/share/Share.java:18-20 | the value stored under the key, `null` for a key never set |
| SpecialRows.Share.SetProperty | src/main/java/com/leo/scraper/share/Share.java:22-24 | in place: the key now maps to the value and every other key is unchanged |
| SpecialRows.StringContent | src/main/java/com/leo/scraper/Scraper.java:236-238 | the element's text, `null` when there is no element |
| SpecialRows.TextWrites | src/main/java/com/leo/scraper/share/parser/SpecialRows.java:51-71 | the text writes nothing, or the value property then the date property |
| SpecialRows.InsertPriceDateReference | src/main/java/com/leo/scraper/share/parser/SpecialRows.java:44-73 | in place: the share receives exactly the writes the specification function gives, in order, and is unchanged when the call throws |
| SpecialRows.InsertText | src/main/java/com/leo/scraper/share/parser/SpecialRows.java:51-71 | in place: the writes of the text are applied, or the fault is reported and the share kept |
| SpecialRows.ApplyTwo | src/main/java/com/leo/scraper/share/Share.java:22-24 | two writes in a row are two map updates in that order |
| SpecialRows.EntryParts | src/main/java/com/leo/scraper/share/parser/SpecialRows.java:47-49 | the entry of a place splits into two names on a price-date row and one elsewhere |
| SpecialRows.PriceDateNoEntry | src/main/java/com/leo/scraper/share/parser/SpecialRows.java:45-47 | before the scraper exists the call throws `IllegalStateException`; a row outside the page throws `NullPointerException` |
| SpecialRows.PriceDateSingleName | src/main/java/com/leo/scraper/share/parser/SpecialRows.java:49 | a page row with a single property has no second name, and the call throws `ArrayIndexOutOfBoundsException` |
| SpecialRows.PairNames | src/main/java/com/leo/scraper/share/parser/SpecialRows.java:47-49 | on a price-date row the two names are the parts of its entry, which `strip` keeps |
| SpecialRows.PriceDateRow | src/main/java/com/leo/scraper/share/parser/SpecialRows.java:44-73 | on a price-date row the names are found and the text alone decides the writes |
| SpecialRows.RowProps | src/main/java/com/leo/scraper/share/parser/SpecialRows.java:47-49 | no contract of its own; `PriceDateRow`, `OfficialNames` and `ReferenceNames` state the names it finds |
| SpecialRows.ReadNames | src/main/java/com/leo/scraper/share/parser/SpecialRows.java:47-49 | the method computes `RowProps`: the two stripped names, a `NullPointerException` for a place without an entry and an index error for an entry with one part |
| SpecialRows.PriceDateWrites | src/main/java/com/leo/scraper/share/parser/SpecialRows.java:44-73 | no contract of its own; `InsertPriceDateReference` is proved to perform it, and `PriceDateRow` and `PriceDateNoEntry` state its results |
| SpecialRows.TextFaults | src/main/java/com/leo/scraper/share/parser/SpecialRows.java:51-56 | the text throws only when it is non-empty, not `-`, and splits into no part at all, and then it is an index fault |
| SpecialRows.NoText | src/main/java/com/leo/scraper/share/parser/SpecialRows.java:51-53 | a missing element, an empty text or `-` leaves the share unchanged |
| SpecialRows.NoDate | src/main/java/com/leo/scraper/share/parser/SpecialRows.java:55-63 | a text without `" - "` is read as a `Double` and the date property is set to `null` |
| SpecialRows.SecondPart | src/main/java/com/leo/scraper/share/parser/SpecialRows.java:55-71 | the price is read as a `Double`; the second part as a date-time when it holds a blank, otherwise as a date |
| SpecialRows.NeverDateTime | src/main/java/com/leo/scraper/share/parser/SpecialRows.java:65-67 | the date-time branch never stores a date-time, because the split pieces hold no `" - "` and the date-time pattern needs one |
| SpecialRows.PriceWithDate | src/main/java/com/leo/scraper/share/parser/SpecialRows.java:55-71 | a blank-free price with a valid `dd/MM/yy` date stores both |
| SpecialRows.PriceWithSpacedDateTime | src/main/java/com/leo/scraper/share/parser/SpecialRows.java:65-67 | a price followed by `dd/MM/yy HH.mm.ss` stores the price and a `null` date-time |
| SpecialRows.OfficialPriceExample | src/main/java/com/leo/scraper/share/parser/SpecialRows.java:44-73 | `1234,56 - 04/11/24` at right row 8 stores 1234.56 and 4 November '24 |
| SpecialRows.ReferencePriceExample | src/main/java/com/leo/scraper/share/parser/SpecialRows.java:44-73 | `1234,56 - 04/11/24 17.45.00` at right row 7 stores 1234.56 and a `null` date-time |
| SpecialRows.DashOnlyFaults | src/main/java/com/leo/scraper/share/parser/SpecialRows.java:55-56 | `" - "` alone splits into nothing, and reading its first part throws |
| SpecialRows.OfficialNames | src/main/java/com/leo/scraper/share/parser/SpecialRows.java:47-49 | right row 8 names the official price and its date |
| SpecialRows.ReferenceNames | src/main/java/com/leo/scraper/share/parser/SpecialRows.java:47-49 | right row 7 names the reference price and its date-time |
| SpecialRows.SplitAtFirstDash | src/main/java/com/leo/scraper/share/parser/SpecialRows.java:55 | `v - w` splits into `v` and `w` when `v` has no blank and `w` no `" - "` |
| SpecialRows.JavaSplitPieces | src/main/java/com/leo/scraper/share/parser/SpecialRows.java:55 | no piece of `split(sep)` holds the separator |
| SpecialRows.PerformanceText | src/main/java/com/leo/scraper/share/parser/SpecialRows.java:83 | the rewritten text holds no comma and no percent sign |
| SpecialRows.InsertPerformanceInfo | src/main/java/com/leo/scraper/share/parser/SpecialRows.java:75-87 | in place: the share receives exactly the writes the specification function gives, and is unchanged when the call throws |
| SpecialRows.PerformanceNullKey | src/main/java/com/leo/scraper/share/parser/SpecialRows.java:78 | a row outside the page writes under the `null` key |
| SpecialRows.PerformancePut | src/main/java/com/leo/scraper/share/parser/SpecialRows.java:80-86 | a non-empty text writes exactly one value, a `Double` or `null`, under the row's name; a missing or empty text writes nothing |
| SpecialRows.PerformanceNames | src/main/java/com/leo/scraper/share/parser/SpecialRows.java:78 | right rows 10, 11 and 12 write the 1-month, 6-month and 1-year performance |
| SpecialRows.PerformanceProp | src/main/java/com/leo/scraper/share/parser/SpecialRows.java:78 | no contract of its own; `PerformanceNullKey` and `PerformanceNames` state the names |
| SpecialRows.PerformanceWrites | src/main/java/com/leo/scraper/share/parser/SpecialRows.java:75-87 | no contract of its own; `InsertPerformanceInfo` is proved to perform it, and `PerformancePut` states its results |
| SpecialRows.PerformanceTextItalian | src/main/java/com/leo/scraper/share/parser/SpecialRows.java:83 | an Italian percentage `x,f%` is rewritten to `x.f` |
| SpecialRows.PerformanceTextDot | src/main/java/com/leo/scraper/share/parser/SpecialRows.java:83 | `x.y%` loses its dot and its percent sign |
| SpecialRows.PerformanceItalian | src/main/java/com/leo/scraper/share/parser/SpecialRows.java:83-86 | an Italian percentage with one or two decimals is stored as its value |
| SpecialRows.PerformanceItalianExample | src/main/java/com/leo/scraper/share/parser/SpecialRows.java:83-86 | `10,5%` at right row 10 stores 10.5 |
| SpecialRows.PerformanceDot | src/main/java/com/leo/scraper/share/parser/SpecialRows.java:83-86 | the dots are dropped before the comma becomes a point, so `x.y%` is stored as the integer `xy` |
| SpecialRows.PerformanceDotExample | src/main/java/com/leo/scraper/share/parser/SpecialRows.java:83-86 | `10.5%` at right row 10 stores 105 |
| SpecialRows.PerformanceThreeDecimalsExample | src/main/java/com/leo/scraper/share/parser/SpecialRows.java:83-86 | `1,234%` becomes `1.234`, which the `Double` conversion reads with a thousands separator: 1234 |
| JavaScraper.ConvertInteger | src/main/java/com/leo/scraper/Scraper.java:149-154 | a converted `Integer` is within the 32-bit range |
| JavaScraper.ConvertTextToType | src/main/java/com/leo/scraper/Scraper.java:137-166 | a converted value has the class asked for; a `String` is the text itself; an `Integer` is in range; dates and date-times are valid |
| JavaScraper.GetContentOrFallback | src/main/java/com/leo/scraper/Scraper.java:120-126 | the fallback without an element or when the conversion fails, otherwise the converted value, which has the class asked for |
| JavaScraper.JavaReadPointed | src/main/java/com/leo/scraper/Scraper.java:148 | digits, a point and digits are read as their decimal value |
| JavaScraper.JavaItalianDecimal | src/main/java/com/leo/scraper/Scraper.java:140-148 | `1.234,56`-style text is read as its value |
| JavaScraper.JavaAgreesWithRust | src/main/java/com/leo/scraper/Scraper.java:140-148 | the Java conversion and the Rust `parse_float` read Italian decimals alike |
| JavaScraper.ConvertDouble | src/main/java/com/leo/scraper/Scraper.java:140-148 | no contract of its own; `JavaItalianDecimal` and `JavaAgreesWithRust` state the values it reads |
| JavaScraper.JavaThousandsExample | src/main/java/com/leo/scraper/Scraper.java:140-148 | `1.234,56` is read as 1234.56 |
| JavaScraper.JavaBlankRejected | src/main/java/com/leo/scraper/Scraper.java:140-148 | `1.234 56` is not a number: the blank is neither dropped nor read |
| JavaScraper.JavaBlankAfterPoint | src/main/java/com/leo/scraper/Scraper.java:148 | digits, a point, then digits broken by a blank are refused |
| JavaScraper.JavaGroupedInteger | src/main/java/com/leo/scraper/Scraper.java:149-154 | an integer with dot separators is read as its digits when it fits in an `int` |
| JavaScraper.JavaIntegerFromDecimal | src/main/java/com/leo/scraper/Scraper.java:150-154 | commas are removed too, so `1.234,5` is read as the integer 12345 |
| JavaScraper.DropMarks | src/main/java/com/leo/scraper/Scraper.java:153 | removing the dots and then the commas of `x.y,z` leaves the digits `xyz` |
| JavaScraper.JavaDigitsInteger | src/main/java/com/leo/scraper/Scraper.java:154 | a run of digits within range is read as its value |
| JavaScraper.JavaDateConverts | src/main/java/com/leo/scraper/Scraper.java:157-158 | a valid date written `dd/MM/yy` is read back |
| JavaScraper.JavaDateTimeConverts | src/main/java/com/leo/scraper/Scraper.java:159-160 | a valid date-time written `dd/MM/yy - HH.mm.ss` is read back |
| JavaScraper.DateTimeNeedsDash | src/main/java/com/leo/scraper/Scraper.java:22 | text without `" - "` is never a date-time |
| JavaScraper.DashedShapeOf | src/main/java/com/leo/scraper/Scraper.java:22 | text the date-time pattern reads holds `" - "` right after the date |
| JavaScraper.WaitRange | src/main/java/com/leo/scraper/Scraper.java:101 | the delays after a run of calls, the i-th being `2^i * 1000` ms |
| JavaScraper.ExponentialBackoff | src/main/java/com/leo/scraper/Scraper.java:92-118 | the loop's result, delays and number of calls are those of the specified run, and there are never more than fifteen calls |
| JavaScraper.AttemptUnfold | src/main/java/com/leo/scraper/Scraper.java:96-114 | one call: a value returns it, a rejected exception fails at once with `Not retryable`, an accepted one sleeps and tries again |
| JavaScraper.AttemptBounds | src/main/java/com/leo/scraper/Scraper.java:96-117 | every run makes at most fifteen calls and the i-th delay is `2^i * 1000` ms, each after an accepted failure |
| JavaScraper.Attempt | src/main/java/com/leo/scraper/Scraper.java:92-118 | no contract of its own; `ExponentialBackoff` is proved equal to it, and `AttemptBounds` and `JavaFirstReturnWins` state its results |
| JavaScraper.RetryCondition | src/main/java/com/leo/scraper/Scraper.java:42 | no contract of its own; `RetryOnTooManyRequests` states which messages it accepts |
| JavaScraper.JavaWait | src/main/java/com/leo/scraper/Scraper.java:101 | no contract of its own; `WaitRange` and `LastJavaWait` state the delays |
| JavaScraper.AttemptPrefix | src/main/java/com/leo/scraper/Scraper.java:96-114 | accepted failures only add their delays before the rest of the run |
| JavaScraper.JavaFirstReturnWins | src/main/java/com/leo/scraper/Scraper.java:96-98 | the first value returned is the result, after the delays of the accepted failures before it |
| JavaScraper.RetryOnTooManyRequests | src/main/java/com/leo/scraper/Scraper.java:42 | a `Status=429` message is retried and a `Status=503` message is not |
| JavaScraper.NotRetryableFailsAtOnce | src/main/java/com/leo/scraper/Scraper.java:111-112 | a failure the condition rejects ends the run at once, with no further delay |
| JavaScraper.RetriesExceeded | src/main/java/com/leo/scraper/Scraper.java:96-117 | fifteen accepted failures give up with `Retries exceeded` after fifteen delays, the last of 16384 s |
| JavaScraper.LastJavaWait | src/main/java/com/leo/scraper/Scraper.java:101 | the delay after the fifteenth failure is 16384000 ms |
| JavaScraper.Loaded | src/main/java/com/leo/scraper/Scraper.java:69-78 | the page a successful backoff returns, or the previous page when it fails |
| JavaScraper.Scraper.constructor | src/main/java/com/leo/scraper/Scraper.java:44-47 | records the URL and loads it |
| JavaScraper.Scraper.LoadDocument | src/main/java/com/leo/scraper/Scraper.java:69-78 | in place: the URL stays and the page is the one loaded, or the previous one on failure |
| JavaScraper.Scraper.UpdateScrapeUrl | src/main/java/com/leo/scraper/Scraper.java:63-67 | in place: the new URL is recorded and loaded |
| JavaScraper.Scraper.GetElement | src/main/java/com/leo/scraper/Scraper.java:86-90 | throws `IllegalStateException` without a page, otherwise the first element the selector finds |
| JavaScraper.ScraperHolder.constructor | src/main/java/com/leo/scraper/Scraper.java:25 | the static instance starts out `null` |
| JavaScraper.ScraperHolder.GetInstance | src/main/java/com/leo/scraper/Scraper.java:49-54 | the first call creates the one instance, later calls reuse it; the URL is the one given; the first call loads the page twice, once in the constructor and once in `updateScrapeUrl`, each over its own connection attempts; a later call loads it once more |
| JavaScraper.ScraperHolder.CurrentInstance | src/main/java/com/leo/scraper/Scraper.java:56-61 | throws `IllegalStateException` before the instance exists, otherwise returns it |
| JavaScraper.FirstInstancePage | src/main/java/com/leo/scraper/Scraper.java:44-78 | the first `getInstance` loads twice, each load a new connection: it ends with the second load's page if that one succeeded, else the first load's page, else no page |
| JavaScraper.Thousand234 | src/main/java/com/leo/scraper/Scraper.java:140-148 | `1.234` is read as the whole number 1234 |
| JavaScraper.JavaWhole | src/main/java/com/leo/scraper/Scraper.java:140-148 | an integer with dot separators is read as the integer it spells |
| JavaScraper.DigitsWhole | src/main/java/com/leo/scraper/Scraper.java:140-148 | a run of digits is read as the integer it spells |
| JavaScraper.ShortFraction | src/main/java/com/leo/scraper/Scraper.java:140-148 | `x.f` with one or two decimals does not match the thousands pattern and is read as the decimal it is |
| JavaScraper.NotThousands | src/main/java/com/leo/scraper/Scraper.java:140 | `x.f` with one or two decimals does not match the thousands pattern |
| LegacyShares.FloatField | src/shares/types.rs:162-164 | a number field reads the element's float, 0 when the element is missing or unreadable |
| LegacyShares.StringField | src/shares/types.rs:166-168 | a text field is `""` without an element, `N/A` for an element without text, and the text otherwise |
| LegacyShares.DateTimeField | src/shares/types.rs:265-267 | a date-time field reads the element's date-time, the default one when missing or unreadable |
| LegacyShares.CountField | src/shares/types.rs:277-279 | the contract count fits a `u64` and is 0 when missing or unreadable |
| LegacyShares.PriceDateFromElement | src/shares/types.rs:378-389 | a reference is found exactly when the text (or `N/A`) holds `" - "` |
| LegacyShares.PriceDateTimeFromElement | src/shares/types.rs:397-408 | a reference is found exactly when the text (or `N/A`) holds `-` |
| LegacyShares.CompositesAgree | src/shares/types.rs:378-408 | the older composite parsers split exactly where the newer ones do and give their parts with 0 and the default date filled in |
| LegacyShares.PriceDateField | src/shares/types.rs:289-291 | a composite field is the reference read from its element, or the default one when the element is missing or holds no `" - "` |
| LegacyShares.PriceDateTimeField | src/shares/types.rs:305-307 | a composite date-time field is the reference read from its element, or the default one when the element is missing or holds no `-` |
| LegacyShares.ShareDetailsFromElement | src/shares/types.rs:160-176 | always found, carrying the share's ISIN string |
| LegacyShares.MarketInformationFromElement | src/shares/types.rs:190-216 | always found, carrying the share's ISIN string |
| LegacyShares.PriceDataFromElement | src/shares/types.rs:243-339 | always found, carrying the share's ISIN string |
| LegacyShares.PerformanceMetricsFromElement | src/shares/types.rs:349-370 | always found, carrying the share's ISIN string |
| LegacyShares.ShareFromElement | src/shares/types.rs:25-41 | the share keeps its identity and all four sub-records carry its ISIN string |
| LegacyShares.EmptyTable | src/shares/types.rs:25-41 | a table with no elements gives every number 0, every string `""` and every date and reference its default, not the `N/A` of the records' derived defaults |
| LegacyShares.ShareFromFullInfo | src/shares/types.rs:89-149 | fails exactly when `Isin::new` panics; otherwise the records carry the row's ISIN string, the identity defaults a missing name and an invalid code, and a missing contract count is 0 |
| LegacyShares.FullInfoAgrees | src/shares/types.rs:89-149 | the older conversion is the newer one with each missing field replaced by its type's default |
| LegacyShares.FullInfoAllMissing | src/shares/types.rs:89-149 | a row with every optional column missing converts to the whole default share: an empty name, zeros, empty strings, default dates and references |

## Left out

- Concurrency: `FuturesUnordered`, spawning and the tokio `timeout` race are not modelled. A drain loop receives its tasks' results as a sequence in arrival order, which may be any permutation of the per-task results; a task that panics is seen by the drain when its result arrives, and the panic then ends the run. The time a task took is a given parameter, compared with the five-minute limit.
- Clocks: the `updated_at` timestamps, `Utc::now` and the elapsed times printed by the older driver's `debug` mode are not modelled.
- Sleeping: each backoff driver returns the delays it would sleep. The Java driver's handling of an `InterruptedException` during the sleep is not modelled.
- Network: each request's outcome is given as a stream (`attempts(i)` for the i-th request), and each task of a run makes its own requests. Each Java page load is given its own stream of connection attempts, so the two loads of the first `getInstance` are independent.
- HTML and CSS engines (the `scraper` crate, Jsoup): a page is given as tables of rows, and an element as its first text node. CSS selectors are given functions: the older crate's `select_for_prop` lookup in `src/shares/selectors.rs`, `selectFirst` and `Element.text()`. The older `select_for_prop` is not part of this model.
- Logging and tracing, including the Java log file, are not modelled. The older driver's debug messages are kept as a returned log without their times.
- Floating point: numbers are exact reals, with infinities and NaN as separate cases. Rounding to a binary `f64` or `double` is not modelled. Neither are hexadecimal float literals or Java's `0x`/`p` syntaxes.
- Dates keep their two-digit year; the century mapping (chrono: 1970-2069, Java: 2000-2099) is not modelled. The leap-year rule used is "last two digits divisible by four", which the two mappings agree on.
- Java's `DateTimeFormatter` is modelled for the two patterns the scraper uses, with the default SMART resolver: a day past the end of its month becomes the month's last day, and `24.00.00` becomes midnight of the next day. Other resolver styles are not modelled.
- JavaDateTimeOf: `31/12/99 - 24.00.00` gives no value, where Java gives 2100-01-01T00:00, because the model's dates keep a two-digit year and that day has no successor among them.
- JavaParseDateTime: inherits the case above: `31/12/99 - 24.00.00` is not parsed.
- JavaIntegerValueOf: only the ASCII digits `0`-`9` are read. Java's `Integer.valueOf` reads digits with `Character.digit`, which also accepts every other Unicode decimal digit (Arabic-Indic, fullwidth and so on); such text gives no value here. `Double.valueOf` and the `\d` of the Java patterns are ASCII-only, so the `Double` reading is unaffected.
- ConvertInteger: reads through `JavaIntegerValueOf`, so an `Integer` in non-ASCII Unicode digits gives no value here.
- ConvertTextToType: inherits the `Integer` gap above: an `Integer` written in non-ASCII Unicode digits is converted by Java but gives `null` here.
- RetryCondition: a connection failure is modelled as a thrown exception with a message. An exception whose message is `null` makes `RETRY_CONDITION` throw a `NullPointerException`, which `loadDocument` does not catch (it catches only `IOException`); that escaping exception is not modelled.
- Lower-casing (`to_lowercase` in `PropertySelector::new`): only ASCII and the Latin-1 capitals are mapped. Other Unicode case pairs are left unchanged.
- Java's `trim` (inside `Double.valueOf`) strips every character up to U+0020. `strip` in `insertPriceDateReference` is applied only to the constant `rowToProp` entries, which hold no blanks, so the model keeps them as they are.
- Java string `==` on the side names is modelled as equality; it holds for the interned literals the code compares.
- Metrics.WithMetrics.Unmetric: requires a stored result, because `unmetric` unwraps the option and panics on `None`.
- Backoff.ExponentialBackoff: `scraper/src/exponential_backoff.rs` returns an `Option`, but `scraper/src/errors.rs` and `scraper/src/lib.rs` are written against a driver that returns `Err(BackoffError)`. The method returns the `Option`; the specification function `Backoff.Run` gives the `Result` that `PageFetch` uses. `BackoffError` is not defined in the source.
- Isin::to_string, used by `gen_macro.rs` to fill each record's ISIN, is taken to be `get_str`. Only `get_str` appears in the source.
- IsinsScrape.ScrapeIsins: `?` applied to the page fetch inside an `Option`-returning function is read as "a failed fetch gives `None`".
- The `*_or_default` helpers that `src/shares/types.rs` imports are not in `src/shares/parsers.rs`. They are taken to be that file's `DefaultParse` impls.
- Models.ShareDetailsFromSelector, Models.MarketInformationFromSelector, Models.PriceDataFromSelector, Models.PerformanceMetricsFromSelector: `scraper/src/gen_macro.rs` imports `SafeParse` from `scraper/src/shares/parsers.rs`, which is not part of this model. The records' fields are read with the `SafeParse` impls of the older `src/shares/parsers.rs` instead.
- LegacyShares.ShareFromFullInfo: `src/shares/types.rs` builds a `ShareIsin` with a `share_name` field and `Isin::new(..).unwrap_or_default()`. The older `src/isins/types.rs` names that field `name` and gives `Isin` no default. The conversion uses the newer crate's `Isins.New` and its default ISIN.
- Database code (`db/`, `src/db/`), the HTTP server, the binaries' `main` functions, `scraper_utils`, the utility copies and the older `src/isins/mod.rs` and `src/shares/mod.rs` runs are not part of this model.
- Java I/O, reflection and boilerplate are not part of this model: `ShareParser`, `IsinScraper`, the ISIN file and store classes, `Main`, `ExecuteWithDuration`, the URL and selector constant classes, and `Share`'s constructor and `toString`. `Share.java`'s property map, with `getProperty` and `setProperty`, is modelled.
- Integer widths are explicit where the source relies on them. The metrics counters are `i32` and wrap around as in a release build. `as u64` on an `i32` wraps negative values. `parse_row_str` computes `N - 1` in `usize`, so `left_0` wraps and finds no cell. Java's `Integer.valueOf` range is 32 bits.
