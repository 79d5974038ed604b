# Load-test metrics and request handler, modelled in Dafny

The repository is a small HTTP load test. A client (`src/LoadTestClient.java`)
runs a pool of workers against a server for a fixed time, and each worker
records what it observed into a shared metrics store. When the run ends, the
client derives a report from that store: counts, success rate, and average,
minimum, maximum and median latency. The server's handler
(`src/RequestHandler.java`) answers GET with a health body. It answers a POST
whose body mentions `"message"` by echoing the body back with its quotes
escaped, rejects any other POST with 400, and answers every other method with
405.

The project has four files:

- `wrappers.dfy` defines `Option`.
- `metrics.dfy` models the metrics store.
  - `Outcome` is what one worker iteration observed.
  - `Stats` holds the store's fields.
  - `Step` applies one iteration's update, and `Fold(os)` applies a whole sequence of them.
  - Reference definitions state the aggregates directly on the outcome sequence: `Total`, `Samples`, `Sum`, `MinOf` and `MaxOf`.
  - The class `MetricsStore` holds the fields and is updated in place by `RecordSample` (the `synchronized` block), `RecordResponse` and `RecordFailure`. Its ghost `history` of outcomes ties the fields to `Fold(history)`.
  - `RunWorker` is one worker's loop.
  - Concurrency: each recording is one atomic step, so several workers amount to one merged sequence of recordings in some order. `FoldOrderIndependent` shows that the order changes none of the aggregates.
- `report.dfy` models `printResults`.
  - `SortAscending` sorts the samples (insertion sort).
  - `Median`, `SuccessRate`, `AverageResponseTime` and `Throughput` compute the report's figures.
  - The minimum comes in two forms: `ReportedMinAsWritten` is line 174 as written, and `ReportedMin` is the corrected one. See "## Findings".
  - `MakeReport` builds the whole summary as a value. It reports the corrected minimum (`ReportedMin`), not line 174's: after a run whose requests all failed it gives 0 where the source prints 2^63 ns.
- `handler.dfy` models the handler as a total function from method, body and timestamp to status and body.
  - Java's `String.contains`, `String.trim` and the quote escaping are defined over `seq<char>`, and so is the `%d` rendering of the timestamp.
  - A parser for the success body shows that the body and the timestamp can be read back out of what the handler sends.

One might expect `responseTimes` to hold one sample per request counted in
`totalRequests`. The code does not keep that invariant, and the model follows
the code: a response of any status records a sample, and a thrown exception
records none (lines 83-88 and 99-103 of `src/LoadTestClient.java`). The
invariant the model states instead is `|responseTimes| + (number of failures)
== totalRequests`.

Units and number types:

- Latencies are `nat` nanoseconds, as the `long` differences of `System.nanoTime()`
  are before the source casts them to `double`.
- The median, the success rate, the average and the throughput are `real`.
- The report stays in nanoseconds. The millisecond conversion is not modelled.

## Model

| member | source | states |
|---|---|---|
| `Metrics.MinOf` | src/LoadTestClient.java:85 | minimum of a sample list: none exactly for the empty list; otherwise a sample at most every sample |
| `Metrics.MaxOf` | src/LoadTestClient.java:86 | maximum of a sample list: 0 for the empty list (the field's start value, line 25); otherwise a sample at least every sample |
| `Metrics.StepEffect` | src/LoadTestClient.java:83-103 | one iteration (`Step`) adds one request, counted as a success exactly for a 200 response and as an error otherwise; a response appends its latency as a sample and leaves it within the new minimum and maximum; a failure leaves sum, minimum, maximum and samples alone |
| `Metrics.StepPreservesConsistent` | src/LoadTestClient.java:83-103 | one iteration's update keeps the store invariant: total = successes + errors, sum = sum of samples, at most `total` samples, min and max are samples and bound every sample |
| `Metrics.FoldInvariants` | src/LoadTestClient.java:64-104 | after any sequence of recorded outcomes the invariant holds, `totalRequests` is the number of outcomes, and samples plus failures make up all requests |
| `Metrics.FoldCounters` | src/LoadTestClient.java:84-101 | after any sequence, `successCount` counts the 200 responses, `errorCount` the other responses and the failures, `totalRequests` all outcomes, `totalResponseTime` the sum of the received latencies |
| `Metrics.FoldSamples` | src/LoadTestClient.java:85-87 | after any sequence the sample list is the received latencies in recording order, and min and max are the true minimum and maximum of that list |
| `Metrics.FoldCharacterization` | src/LoadTestClient.java:64-104 | the step-by-step store equals the reference aggregates computed on the whole outcome sequence |
| `Metrics.TotalPermutation` | src/LoadTestClient.java:90-101 | reordering the outcomes changes no counter or sum |
| `Metrics.SamplesPermutation` | src/LoadTestClient.java:87 | reordering the outcomes only reorders the samples |
| `Metrics.MinMaxByElements` | src/LoadTestClient.java:85-86 | min and max depend only on which values were sampled |
| `Metrics.FoldOrderIndependent` | src/LoadTestClient.java:83-103 | any two interleavings of the same outcomes give equal counters, sum, min and max, and the same multiset of samples |
| `Metrics.AllFailuresRun` | src/LoadTestClient.java:99-103 | against a target that never answers: no successes, errors = total = number of attempts, no samples, no minimum |
| `Metrics.MetricsStore.constructor` | src/LoadTestClient.java:20-27 | the store starts with zero counters, zero sum and maximum, no minimum, no samples, and empty history |
| `Metrics.MetricsStore.ValidIsConsistent` | src/LoadTestClient.java:20-27 | every reachable state of the store satisfies the store invariant, with `totalRequests` equal to the number of recordings |
| `Metrics.MetricsStore.RecordSample` | src/LoadTestClient.java:83-88 | the `synchronized` block adds the latency to the sum, lowers the minimum and raises the maximum where needed, appends the sample, and touches nothing else |
| `Metrics.MetricsStore.RecordResponse` | src/LoadTestClient.java:83-98 | a received response is one `Step`: status 200 adds a success and leaves errors alone, any other status the reverse; the sample is appended; the store stays valid |
| `Metrics.MetricsStore.RecordFailure` | src/LoadTestClient.java:99-103 | a thrown request adds one error and one request, and leaves successes, sum, min, max and samples unchanged; the store stays valid |
| `Metrics.RunWorker` | src/LoadTestClient.java:66-104 | one worker's loop records each observed outcome in turn: the store ends as the fold of its old history followed by the observations |
| `Report.SortAscending` | src/LoadTestClient.java:151-152 | the sorted stream is ascending and a permutation of the samples |
| `Report.SortedUnique` | src/LoadTestClient.java:151-152 | the ascending arrangement of a set of samples is unique |
| `Report.Median` | src/LoadTestClient.java:149-159 | the median is 0 for no samples; otherwise it lies between the smallest and largest sample |
| `Report.MedianOfSortedArrangement` | src/LoadTestClient.java:153-157 | the median is the middle element of any ascending arrangement of the samples for an odd count, and the mean of the two middle ones for an even count |
| `Report.MiddleOf` | src/LoadTestClient.java:154-157 | the middle element, or mean of the two middle ones, of an ascending list lies between its first and last element |
| `Report.MedianOfFour` | src/LoadTestClient.java:154-156 | four ascending samples have as median the mean of the second and third |
| `Report.MedianOfThree` | src/LoadTestClient.java:154-157 | three ascending samples have as median the second |
| `Report.MedianOrderIndependent` | src/LoadTestClient.java:149-159 | the median depends only on which samples were taken, not on their recording order |
| `Report.MedianExampleEven` | src/LoadTestClient.java:154-156 | the median of [10, 20, 30, 40] is 25 |
| `Report.MedianExampleOdd` | src/LoadTestClient.java:154-157 | the median of [10, 20, 30] is 20 |
| `Report.MedianExampleUnsorted` | src/LoadTestClient.java:151-157 | the median of [40, 10, 30, 20] is 25: the samples are sorted first |
| `Report.SuccessRate` | src/LoadTestClient.java:170 | the rate is 0 without requests; otherwise rate * total = successes * 100, and it lies in [0, 100] when successes do not exceed the total |
| `Report.AverageResponseTime` | src/LoadTestClient.java:172-173 | an average exists exactly when there was a request, and average * totalRequests = total latency (the divisor counts failed requests too) |
| `Report.AverageAtMostMax` | src/LoadTestClient.java:172-175 | on any consistent store with requests, the average lies between 0 and the maximum |
| `Report.SentinelMin` | src/LoadTestClient.java:24 | the source's minimum field starts at `(double) Long.MAX_VALUE` = 2^63 and ends as the smaller of that and the true minimum |
| `Report.ReportedMinAsWritten` | src/LoadTestClient.java:174 | line 174 as written, on the field the samples leave: without samples it yields the sentinel 2^63, and otherwise the smallest sample when that is at most 2^63 |
| `Report.ReportedMin` | src/LoadTestClient.java:174 | the corrected minimum: on a consistent store, 0 without samples, otherwise a sample at most every sample |
| `Report.ReportedMinAsWrittenLeaksSentinel` | src/LoadTestClient.java:174 | after a run of one failed request the latency lines are printed, and line 174 as written reports 2^63 ns as the minimum where the corrected report gives 0 |
| `Report.ReportedMinIsSampleMinimum` | src/LoadTestClient.java:174 | after any run the corrected minimum is 0 without samples, else the smallest sample; it agrees with line 174 whenever the smallest sample is at most 2^63 ns |
| `Report.Throughput` | src/LoadTestClient.java:181 | requests per second exist exactly when the duration is positive, and throughput * seconds = requests |
| `Report.MakeReport` | src/LoadTestClient.java:161-181 | the summary carries the duration, the store's counts, `SuccessRate` and `Throughput`; latency lines exist exactly when there was a request (otherwise "N/A") and hold `AverageResponseTime`, the corrected minimum `ReportedMin` (not line 174's, see "## Findings"), the stored maximum and `Median` of the samples |
| `Report.ReportOfRun` | src/LoadTestClient.java:144-181 | for any run, of the corrected report: total = outcomes, successes + errors = total, rate in [0, 100], latency present iff a request was made, 0 <= average <= max and min <= median <= max (the min <= median part needs the corrected minimum: line 174 as written prints 2^63 ns above a median and maximum of 0 when every request failed) |
| `Report.AverageBelowMinimumExample` | src/LoadTestClient.java:172-174 | the average divides by all requests, failed ones included: one 100 ns response and one failure give an average of 50 ns, below the reported minimum of 100 ns |
| `Handler.Contains` | src/RequestHandler.java:45 | `contains` holds exactly when the key occurs at some position of the body |
| `Handler.TrimLeading` | src/RequestHandler.java:45 | `trim` drops exactly the leading characters up to U+0020 |
| `Handler.TrimTrailing` | src/RequestHandler.java:45 | `trim` drops exactly the trailing characters up to U+0020 |
| `Handler.Trim` | src/RequestHandler.java:45 | `trim` returns nothing longer than the body, and its result neither starts nor ends with a character up to U+0020 |
| `Handler.TrimIsSlice` | src/RequestHandler.java:45 | `trim` returns the slice of the body between a leading and a trailing run of characters up to U+0020 |
| `Handler.TrimEmptyIffBlank` | src/RequestHandler.java:45 | `trim().isEmpty()` holds exactly of bodies made only of characters up to U+0020 |
| `Handler.KeyMakesNonBlank` | src/RequestHandler.java:45 | a body that contains `"message"` never trims to empty, so acceptance rests on the substring alone |
| `Handler.Escape` | src/RequestHandler.java:49 | escaping lengthens the body by its number of quotes, and every quote in the result is directly preceded by a backslash |
| `Handler.UnescapeEscape` | src/RequestHandler.java:49 | dropping the inserted backslashes recovers the body |
| `Handler.NatToString` | src/RequestHandler.java:48 | a non-negative number renders as nonempty digits with no leading zero, "0" for zero |
| `Handler.IntToString` | src/RequestHandler.java:48 | `%d` renders one leading minus sign exactly for a negative number, then digits only, with no leading zero unless the digits are "0" |
| `Handler.IntToStringRoundTrip` | src/RequestHandler.java:48-50 | the rendered timestamp parses back to itself |
| `Handler.SuccessBody` | src/RequestHandler.java:47-51 | the success template starts with `{"status":"success","received":"`, ends with `}`, and is as long as that prefix, the escaped body, the timestamp key, the rendered timestamp and the brace together |
| `Handler.SuccessBodyRoundTrip` | src/RequestHandler.java:47-51 | the success template body can be split back into the original request body and the timestamp |
| `Handler.HandlePost` | src/RequestHandler.java:39-67 | a POST is accepted with 200 exactly when the body contains `"message"`, with the success template as body, from which body and timestamp read back; otherwise 400 with the fixed error body |
| `Handler.HealthCheck` | src/RequestHandler.java:69-76 | the health response is 200 with `{"status":"ok"}` |
| `Handler.Handle` | src/RequestHandler.java:10-26 | GET gives 200 with `{"status":"ok"}`, a method other than POST and GET gives 405 with `{"error":"Method not allowed"}`, POST gives exactly `HandlePost`'s response (200 with the success template iff the body contains `"message"`, else 400), and the status is always 200, 400 or 405 |

## Left out

- The thread pool, the `running` flag, `Thread.sleep`, and `shutdown`/`awaitTermination`/`shutdownNow` (src/LoadTestClient.java:26, 62-64, 110-119) are concurrency and wall-clock timing. Each recording is one atomic step. `RunWorker` stops when its given outcomes run out, in place of the stop flag.
- The source updates the three atomic counters outside the `synchronized` block, so other threads can observe states between the steps of one recording. The model has no such intermediate states. Only the quiescent state, after all workers are done, is stated and read by the report.
- The HTTP client, request building and `client.send` (lines 65-77) are network I/O. Each iteration's outcome is an input to `RunWorker`. The latency comes from `System.nanoTime()`, which is a clock, so it is a parameter.
- `checkServerRunning` and the embedded-server bootstrap with its retry loop (lines 35-59, 129-142) are network I/O.
- CPU and memory sampling (lines 112-113, 147) are foreign calls into the JVM.
- `nanoToMs`, `String.format` rendering and printing, and all floating-point rounding (lines 125-127, 161-187) are left out. Figures stay exact in nanoseconds as `real`s. `Metrics.Outcome` carries latencies as exact `nat`s; the source's `double` loses precision above 2^53 ns.
- `Metrics.FoldCounters`: the counters are unbounded `nat`s. The source's `successCount`, `errorCount` and `totalRequests` are `AtomicInteger`s and `totalReqs` is an `int` (src/LoadTestClient.java:20-22, 146); they wrap to negative values past 2^31 - 1 requests. So `totalRequests == |os|` (here and in `Metrics.FoldInvariants`) holds for the source only below 2^31 requests.
- The per-outcome console logging, `System.out.println` of a non-200 status and body and of a failed request's message (src/LoadTestClient.java:97, 102), is output only and is left out.
- `Handler.IntToString`: `String.format` uses the default locale (src/RequestHandler.java:47-51), and a locale with other digits can change what `%d` prints. The model always renders ASCII digits.
- `Report.Throughput`: for a zero duration the source divides by 0.0 and prints Infinity or NaN. The model returns `None` in that case. The duration is a difference of two `System.currentTimeMillis()` readings (src/LoadTestClient.java:60, 145), a wall clock that can be set back and give a negative duration; the model's `durationMillis` is a `nat` and cannot express that.
- The stream reading and writing of `HttpExchange` and the response headers (src/RequestHandler.java:41-43, 53-57, 21-25, 61-65, 71-75) are I/O. The content length that `sendResponseHeaders` sends (a count of UTF-16 units) can differ from the number of bytes `getBytes()` writes. That mismatch depends on the platform encoding and is not modelled.
- The catch-all 500 path (src/RequestHandler.java:27-36) is reached only through I/O exceptions, which the model does not have.
- The escaping turns `"` into `\"` but leaves backslashes alone, as the source does. A body ending in a backslash therefore produces a success body that a JSON reader would misread. The model reproduces this, and `Handler.Unescape` inverts only this escaping, not JSON decoding.
- `src/Server.java` only wires the handler and an executor onto `HttpServer` and keeps a flag. It is not part of this model.

## Findings

| source | as written | input that shows it | evidently intended | confidence | as-written member | corrected member |
|---|---|---|---|---|---|---|
| src/LoadTestClient.java:174 | the minimum field starts at `(double) Long.MAX_VALUE` (line 24) but line 174 tests it against `Double.MAX_VALUE`, so the "no sample" case is never recognised | a run with requests that all throw (e.g. one failed request): `totalReqs > 0`, no sample, and the minimum printed is 2^63 ns | print 0 as the minimum when no response was received | high, not executed | `Report.ReportedMinAsWritten` / `Report.ReportedMinAsWrittenLeaksSentinel` | `Report.ReportedMin` / `Report.ReportedMinIsSampleMinimum` |
