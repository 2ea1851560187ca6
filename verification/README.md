# Wanted job-alert run, modelled in Dafny

A model of `send_email.py`, a script run on a schedule. It pages through the Wanted
job-listing API, keeps the listings that match the locations, title keywords and minimum
years in `config.json`, mails them, and after a successful send prepends a text report
to the history file `last_run.txt`. The model covers the script's sequential logic:

- the job filter `filter_jobs`, as a loop proved against a stable-filter function;
- the text report `format_jobs_for_txt`, with the clock reading passed in;
- the history file as an optional string: `load_last_run_time`, and the content that
  `save_last_run_time` writes;
- the pagination loop `fetch_all_jobs`, over an abstract page oracle that maps an offset
  to a failure or to a page of listings;
- the control flow of `send_automated_email`, with the configuration, password, mail
  delivery and file I/O outcomes as inputs.

Modules: `Wrappers` (Option), `Text` (Python's substring test, `lower`, `strip`,
`readline`, `join`, integer formatting), `Listing` (listings, criteria, filter), `Report`
(text report), `History` (history file), `Fetch` (pagination) and `Run` (one run).

Behaviour of the code that a reader might not expect, which the model follows:

- The filter has no maximum-years test and no expiry-date test; it has only the three tests below.
- An empty `locations` or `jobs` list rejects every listing, because `any` over an empty list is false.
- A save keeps the old file without its first line, so the previous run's time line is
  dropped; the old file is not kept whole.
- The fetch stops once the offset reaches `max_pages * 100`, after the page at that
  offset has been read. That makes up to `max_pages + 1` requests.
- The history is written only after a successful send of a non-empty, renderable match
  list, and only if the file I/O succeeds.

## Model

| member | source | states |
|---|---|---|
| `Listing.FilterJobs` | send_email.py:123-137 | the loop's result is the stable filter of the input by the three tests |
| `Listing.FilteredIsSubsequence` | send_email.py:123-137 | the result is an order-preserving subsequence of the input, never longer |
| `Listing.FilteredMembership` | send_email.py:126-136 | a listing is in the result iff it is in the input and: some location occurs in its location, some lower-cased keyword occurs in its lower-cased title, and its `annual_from` (default 0) is at least `years` (default 0) |
| `Listing.FilteredExact` | send_email.py:133-136 | every result passes the tests, and every input listing that passes is in the result |
| `Listing.FilteredAppend` | send_email.py:125-136 | each listing is judged on its own: the filter of a concatenation is the concatenation of the filters |
| `Listing.EmptyCriteriaRejectAll` | send_email.py:133-134 | with no locations or no keywords configured (or the key missing), nothing passes |
| `Listing.EmptyLocationMatchesAll` | send_email.py:133 | an empty configured location occurs in every location, even an empty one |
| `Listing.NoLocationNeedsEmptyCriterion` | send_email.py:126-133 | a listing with no usable address passes the location test iff `""` is a configured location |
| `Listing.Location` | send_email.py:126-128 | the tested location is `full_location` of an address object, else `""`; this is the corrected guard of the finding below |
| `Listing.LocationAsWritten` | send_email.py:126-128 | as written, computing the location raises exactly when the address is present but not an object; otherwise it agrees with `Location` |
| `Listing.FilterAsWrittenAgrees` | send_email.py:123-137 | the filter as written raises iff some listing's address is not an object, and otherwise returns the corrected filter's result |
| `Listing.NullAddressRaises` | send_email.py:126-128 | a listing with a null address and criteria `[""]`: the code raises, the guarded filter keeps it |
| `Listing.SeoulEngineerExample` | send_email.py:133-135 | Seoul / "Backend Engineer" / 3 years passes criteria Seoul / engineer / 2; with 1 year it fails |
| `Text.Lower` | send_email.py:130 | lower-casing keeps the length and maps each ASCII capital to its small letter |
| `Text.EmptyIsSubstring` | send_email.py:133-134 | the empty string occurs in every string, as Python's `in` has it |
| `Text.Strip` | send_email.py:35 | the result has no space at either end and is a slice of the input with only spaces before it and only spaces after it |
| `Text.StripUnique` | send_email.py:35 | any such slice is the stripped string: the contract of `Strip` leaves exactly one result |
| `Text.StripLineBreak` | send_email.py:35 | a non-empty trimmed line read back with its line break strips to itself |
| `Text.DropFirstLine` | send_email.py:76-77 | what `read()` returns after one `readline()`: the first line and the rest make up the input |
| `Text.SplitAfterLine` | send_email.py:35 | `readline` on `t + "\n" + u`, with no break in `t`, returns `t + "\n"` and leaves `u` |
| `Text.DecimalRoundTrip` | send_email.py:47 | integer rendering is decimal: the digits read back to the number |
| `Text.Pad2Value` | send_email.py:51 | `{idx:02d}` is at least two digits, reads back to `idx`, and is injective |
| `Report.FormatJobsForTxt` | send_email.py:42-61 | the loop returns the no-match text for no listings, else the banner and every record joined by line breaks |
| `Report.FlattenSevens` | send_email.py:49-59 | after extending with seven-line blocks, block `k` sits at lines `7k .. 7k+7` |
| `Report.ReportLayout` | send_email.py:47-61 | for `n > 0` listings the report joins `3 + 7n` lines, and lines `3+7(k-1) .. 3+7k` are the `k`-th listing's record numbered `k` |
| `Report.HeaderAt` | send_email.py:49-51 | the header of record `k` (from 1), numbered `k` zero-padded, is line `3 + 7(k-1)`, in input order |
| `Report.HeadersDistinct` | send_email.py:51 | different indices give different record headers |
| `Report.NoMatchTextIffEmpty` | send_email.py:44-47 | the report is the fixed no-match text iff there are no listings |
| `History.LoadLastRunTime` | send_email.py:31-39 | a missing file shows one placeholder, a blank first line the other, otherwise the stripped first line; never the empty string |
| `History.CarriedOver` | send_email.py:73-79 | a save keeps the old file minus its first line, or nothing when there was no file |
| `History.SaveLastRunTime` | send_email.py:64-89 | on success the file becomes time, line break, report, blank line, then the old file minus its first line; on an I/O error it is unchanged |
| `History.LoadAfterSave` | send_email.py:35-37 | a non-empty time with no line break and no surrounding space, once saved, is what the next load shows |
| `History.TimestampRoundTrip` | send_email.py:66-69 | every `%Y-%m-%d %H:%M:%S` time survives the trip through the file |
| `History.SaveDropsOldTime` | send_email.py:69-84 | after a save the first line is the new time, and the rest is the new report followed by the old file minus its time line |
| `History.TwoSaves` | send_email.py:69-84 | two saves in a row leave the second time, the second report, the first report, then the older history; the first time is gone |
| `History.SaveChangesFile` | send_email.py:69-84 | a successful save always changes the file |
| `History.PlaceholdersAreNotTimes` | send_email.py:37-39 | the two placeholders differ from each other and from every recorded time |
| `Fetch.RequestsFrom` | send_email.py:96-116 | the request count, counted on from a later offset, always includes the current request |
| `Fetch.FetchAllJobs` | send_email.py:93-120 | the loop requests offsets 0, 100, 200, ... in order, makes exactly `Requests` requests, and returns those pages concatenated in order |
| `Fetch.RequestBounds` | send_email.py:109-115 | between 1 and `max_pages + 1` requests; each request but the last returned a full page below the bound, and the last failed, was empty or short, or reached the bound |
| `Fetch.FetchedLowerBound` | send_email.py:111-116 | every continuing request contributed at least 100 listings |
| `Fetch.FailureKeepsPartialResult` | send_email.py:98-106 | after a failed request, the pages received before it are returned |
| `Fetch.FullPagesReachBound` | send_email.py:114-116 | when every page is full, exactly `max_pages + 1` requests are made |
| `Run.SendAutomatedEmail` | send_email.py:175-236 | a run stops without mail for a missing config, a missing password or no matches; crashes when the filter as written raises on a fetched listing, or on an unrenderable match; a send is reported with the previous run time; the history changes iff config, password, a filter that does not raise, non-empty renderable matches, delivery and the file I/O all succeed |

## Findings

| source | as written | input that shows it | evidently intended | confidence | as-written member | corrected member |
|---|---|---|---|---|---|---|
| send_email.py:126-128 | `j.get("address", {}).get("full_location", "")` runs before the `isinstance` guard, so an address that is present but not an object raises `AttributeError` there, and the guard never takes effect | a listing with `"address": null` | such a listing gets the location `""`, as the guard sets | high; not executed | `Listing.FilterAsWrittenAgrees` | `Listing.Location` |

The filter loop `Listing.FilterJobs`, the report and the history use the guarded location
(`Listing.Location`). The run `Run.SendAutomatedEmail` follows the code as written: when any
fetched listing has such an address, it ends in `Crashed` with no mail and no history write,
whether or not that listing would have matched.

## Left out

- HTTP requests, status codes, JSON decoding and `time.sleep` between pages: a page is an abstract `Fetch.PageResult`. A payload that is not a JSON object, or a decode error that the installed `requests` does not class as a request error, raises in the code. The model counts both as a failed request.
- SMTP over SSL, login, and MIME message assembly: the delivery is the `sendOk` input of `Run.SendAutomatedEmail`.
- Reading `config.json` and the `EMAIL_PASSWORD` environment variable: both are `Option` inputs. A missing file, malformed JSON, and an empty (falsy) configuration all appear as `None`.
- `datetime.now()`: the save time and the report's banner time are two separate string inputs, because the code reads the clock twice.
- The HTML markup of `build_email_content` and the plain-text mail part. Only the exception it raises on an unrenderable listing is modelled, as `Run.Outcome.Crashed`.
- `print` logging.
- Text.Lower: folds only ASCII capitals. Python's `lower()` also folds other Unicode letters.
- Text.Strip: removes ASCII white space and the four ASCII separators. Python's `strip()` also removes other Unicode spaces.
- Text.FirstLine: breaks only at `\n`. The translation of `\r` and `\r\n` in text-mode reads is not modelled, and neither are file encodings.
- History.SaveLastRunTime: an I/O failure leaves the file unchanged. A write that fails after the file was truncated, leaving it partly written, is not modelled.
- JSON `null` or non-string values inside the fields the code reads without checking: `full_location`, `annual_from`, `position`, the configured lists and `years`. The code may raise on these, depending on which tests run first; the model has no such values.
- Concurrent runs sharing the history file are not modelled.
