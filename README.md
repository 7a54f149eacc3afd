# Search digest pipeline, modelled in Dafny

The modelled service takes a search keyword, asks a search provider for
results, keeps one result URL per host, fetches and extracts each page, and
returns one text digest. All of it lives in `main.py`. This project models
the deterministic logic in that file once the I/O is taken out:

- `clean_text`: each non-ASCII character becomes one space, then ASCII
  whitespace is stripped from both ends (module `Sanitizer`).
- Result shaping in `fetch_and_parse_article`. The HTTP exchange and the
  article extractor become an input value (`Extract.FetchOutcome`). The
  output is either a cleaned `{title, text}` or a `{url, error}` record
  (module `Extract`).
- The host of a URL as `urlparse(url).netloc` finds it, in a simplified
  form (module `Urls`).
- The domain deduplication loop in `get_material` (module `Deduplication`).
- The `gather` result and the formatting loop (module `Digest`).
- The retry loop of `get_material`, with the empty-result shortcut and the
  fan-out (module `Pipeline`). Each attempt's search outcome is an input
  (`search(a)`), and so is each jitter draw (`jitter(a)`, between 0 and 1)
  and each page fetch (`fetch(u)`). The method reports the result, the
  number of search calls made and the delays it would sleep.

The loops (deduplication, formatting, retry) are methods. Each is proved
equal to a pure specification function (`Dedup`, `Format`, `Conclude` /
`Respond`). The properties of the source are proved as lemmas about those
functions. `max_retries <= 0` ends with `Pipeline.NoValue`, Python's
implicit `None`.

## Model

| member | source | states |
|---|---|---|
| `Sanitizer.CleanText` | main.py:23-26 | `None` and `""` give `""`; the result is never longer than the input; every character is ASCII; it neither starts nor ends with a character `strip()` removes |
| `Sanitizer.ReplaceNonAscii` | main.py:26 | the generator expression maps one-for-one: same length, ASCII characters unchanged, every other character becomes exactly one space, so the output is all ASCII |
| `Sanitizer.IsSpace` | main.py:26 | the characters `strip()` can meet after the mapping and removes: exactly tab, line feed, vertical tab, form feed, carriage return, the four separators `\x1c`-`\x1f` and the space |
| `Sanitizer.LeadingSpaces` | main.py:26 | the count of leading whitespace: all of it whitespace, and the next character (if any) is not |
| `Sanitizer.TrailingSpaces` | main.py:26 | the count of trailing whitespace: all of it whitespace, and the character before it (if any) is not |
| `Sanitizer.StripBounds` | main.py:26 | what `strip()` keeps is bounded by whitespace only, and the kept part starts and ends with non-whitespace |
| `Sanitizer.Strip` | main.py:26 | `str.strip()`: never longer than its input, no whitespace at either end of the result, and empty exactly when the input is all whitespace |
| `Sanitizer.StripUnique` | main.py:26 | any slice with only whitespace outside it and non-whitespace ends is the stripped string, so `Strip` is exactly Python's `strip()` on ASCII text |
| `Sanitizer.CleanTextIsSlice` | main.py:26 | the cleaned text is a contiguous slice of the mapped text, with only whitespace cut off on each side |
| `Sanitizer.CleanTextKeepsCleanText` | main.py:23-26 | ASCII text without surrounding whitespace is returned unchanged |
| `Sanitizer.CleanTextIdempotent` | main.py:23-26 | cleaning a cleaned text changes nothing |
| `Extract.Truncate` | main.py:41 | `text[:10000]`: a prefix of the text, of length `min(len, 10000)` |
| `Extract.NatToDecimal` | main.py:33 | the status renders as a non-empty run of decimal digits with no leading zero |
| `Extract.IntToDecimal` | main.py:33 | the status as an f-string renders it: a `-` exactly for a negative status, then a non-empty run of digits with no leading zero |
| `Extract.NatToDecimalRoundTrip` | main.py:33 | reading back the decimal text of a natural number gives the number |
| `Extract.IntToDecimalRoundTrip` | main.py:33 | reading back the (possibly signed) decimal text of a status gives the status |
| `Extract.FetchAndParse` | main.py:28-44 | a success exactly when the status is 200 and the page was parsed; every failure names the URL; a success's text is at most 10000 characters |
| `Extract.HttpErrorNamesStatus` | main.py:32-33 | a status other than 200 gives exactly `{url, "HTTP " + str(status)}` whatever the body is (no parsing), and the status can be read back from the message |
| `Extract.ExceptionsBecomeRecords` | main.py:43-44 | an exception during the request or during reading and parsing becomes `{url, str(e)}`, so the worker never raises |
| `Extract.SuccessIsCleaned` | main.py:39-42 | a success holds `clean_text(title)` and `clean_text(text[:10000])`, both ASCII, the text at most 10000 characters |
| `Extract.TitleNotTruncated` | main.py:40-41 | the title is cleaned but not cut, whatever its length, while the text is cut to 10000 characters |
| `Urls.Host` | main.py:67 | the network location contains no `/`, `?` or `#` |
| `Urls.AfterScheme` | main.py:67 | the scheme split of `urlsplit`: never longer than the URL |
| `Urls.AfterSchemeSplits` | main.py:67 | the scheme split removes either nothing or exactly a valid scheme up to the first `:` together with that `:` |
| `Urls.AuthorityLength` | main.py:67 | the network-location split: the position of the first `/`, `?` or `#`, none before it, or the whole length when there is none |
| `Urls.HostOfAbsoluteUrl` | main.py:67 | for `scheme://host` followed by nothing, a path, a query or a fragment, the network location is `host` |
| `Urls.AfterSchemeOf` | main.py:67 | a URL that starts with a valid scheme and `:` loses exactly that prefix before the network location is looked for |
| `Urls.AuthorityLengthOf` | main.py:67 | the network location runs up to the first `/`, `?` or `#` after `//` and no further |
| `Urls.NoHostWithoutSlashes` | main.py:67 | without `//` after the scheme the network location is empty |
| `Deduplication.HasUrl` | main.py:63-65 | `if not url: continue` passes a result only when its `href` is present and non-empty |
| `Deduplication.Dedup` | main.py:60-71 | the kept URLs are no more than the results, none of them is empty, and no two share a host |
| `Deduplication.DedupUrls` | main.py:60-71 | the loop with `seen_domains` and `urls` returns exactly `Dedup` of the results |
| `Deduplication.DedupCoversHosts` | main.py:60-71 | the hosts of the output are exactly the hosts of the results that carry a URL |
| `Deduplication.DedupKeepsFirstOfEachHost` | main.py:60-71 | the output equals the independent reference definition: the URLs of the results that are first on their host, in input order |
| `Deduplication.DedupIsSubsequence` | main.py:60-71 | the output is a subsequence of the input: each URL comes from a result at strictly increasing positions, and that result is the first with a URL on its host |
| `Deduplication.DedupKeepsDistinct` | main.py:60-71 | a list of non-empty URLs on distinct hosts passes through unchanged |
| `Deduplication.DedupIdempotent` | main.py:60-71 | deduplicating the output again changes nothing |
| `Digest.IsSuccess` | main.py:82 | an entry is used exactly when it is a record (not an exception) and a success (no `"error"` key) |
| `Digest.Lines` | main.py:80-85 | `formatted_results` after the loop: the three lines of each success in order (its shape is proved in `Digest.LinesLayout`) |
| `Digest.Join` | main.py:87 | `sep.join(lines)`: the lines with one separator between neighbours (emptiness proved in `Digest.JoinEmpty`) |
| `Digest.Format` | main.py:80-87 | the digest: the lines joined by `"\n"` (proved against the loop in `Digest.FormatResults`) |
| `Digest.Successes` | main.py:82 | the extracts kept by the formatter are all successes, and there are no more of them than entries |
| `Digest.NoSuccesses` | main.py:82 | no extract is kept exactly when no entry is a dictionary without `"error"` |
| `Digest.FormatResults` | main.py:80-87 | the formatting loop returns `Format` of the `gather` result: its lines joined by `"\n"` |
| `Digest.LinesLayout` | main.py:81-85 | exactly three lines per successful extract, in order: `Title: <title>`, `Text: <text>`, `-----` |
| `Digest.FailureLeavesNoTrace` | main.py:82 | removing an error record or a raised exception from the `gather` result leaves the digest unchanged |
| `Digest.JoinEmpty` | main.py:87 | a newline join of non-empty lines is empty only when there are no lines |
| `Digest.FormatEmptyIffNoSuccess` | main.py:80-87 | the digest is `""` exactly when no extract succeeded |
| `Pipeline.IsRetryable` | main.py:89 | the rate-limit and provider exceptions are retried; any other exception is not |
| `Pipeline.Worker` | main.py:76 | one task: `fetch_and_parse_article` on the URL's fetch outcome, reported as a completed record |
| `Pipeline.Respond` | main.py:57-87 | what an attempt that found results returns: `""` for no results, otherwise the digest of the fan-out over the deduplicated URLs |
| `Pipeline.Conclude` | main.py:54-97 | how an attempt that ends the call ends it: with `Respond` when the search returned, with the search's exception otherwise |
| `Pipeline.FanOut` | main.py:74-79 | one result per URL, index-aligned with the URLs whatever order the workers finish in, each depending only on its own URL |
| `Pipeline.FanOutWithout` | main.py:74-79 | dropping one URL drops exactly its entry from the fan-out |
| `Pipeline.SuccessesOfFanOut` | main.py:79-85 | no extract succeeds exactly when no URL's fetch returned status 200 with a parsed page |
| `Pipeline.EmptyShortcutAgrees` | main.py:57-58 | the `if not results: return ""` shortcut returns what deduplication, fan-out and formatting would give |
| `Pipeline.RespondEmptyIffNoPage` | main.py:57-87 | an attempt that found results returns `""` exactly when no deduplicated URL could be fetched and parsed |
| `Pipeline.FailedFetchIsIsolated` | main.py:73-87 | a URL whose fetch fails leaves the digest the other URLs give on their own, in their order |
| `Pipeline.Settle` | main.py:54-97 | an attempt whose search returned ends with its digest; one whose search raised ends by re-raising that exception |
| `Pipeline.BuildDigest` | main.py:57-87 | the body of the `try` after the search returned computes `Respond`: the shortcut, the dedup loop, the fan-out and the formatting loop |
| `Pipeline.Pow2` | main.py:93 | `2 ** attempt` is at least 1 |
| `Pipeline.Backoff` | main.py:93 | `initial_delay * (2 ** attempt) + random.uniform(0, 1)` with the draw given |
| `Pipeline.BackoffWithinWindow` | main.py:93 | with a draw in `[0, 1]` the delay lies in `[initial_delay * 2^a, initial_delay * 2^a + 1]` |
| `Pipeline.GetMaterial` | main.py:53-97 | with `max_retries <= 0` no search is made and the result is `None`; otherwise between 1 and `max_retries` searches; every attempt but the last failed with a retryable error and was followed by the backoff delay of its index; the last attempt decides the result (digest on success, its error re-raised otherwise); a retryable error ends the call only on attempt `max_retries` |
| `Pipeline.GetMaterialByDefault` | main.py:46-97 | `get_material(keyword)` with `max_retries=5, initial_delay=1`: between 1 and 5 searches, the delay after attempt `a` within `[2^a, 2^a + 1]` seconds, and when every search raises a retryable error, five searches and the fifth error re-raised |

## Left out

- The web API (`FastAPI` app, `GET /`, `POST /search`, `SearchRequest`, the mapping of exceptions to a 500 response): request routing around the pipeline.
- Logging setup: process-wide diagnostics with no effect on results.
- The HTTP session, the GET with its 10-second timeout, the request headers and `response.text()`: network I/O. The status and what followed it are the input `Extract.FetchOutcome`.
- `newspaper`'s `Article` parsing: an external HTML extractor. The title and text it finds are opaque inputs. They are modelled as strings, not `None`; `clean_text` of `None` is covered separately.
- The search provider call (keyword, `max_results=15`, headers): the outcome of each attempt is the input `search(a)`. A `None` result list is modelled as the empty list, which the source treats the same way.
- `asyncio.gather` concurrency and scheduling: modelled as an order-preserving map (`Pipeline.FanOut`). The exception variant of its result (`Digest.Threw`) is accepted by the formatter, but the pipeline never produces it, because the worker catches every `Exception`.
- `asyncio.sleep` and `random.uniform`: the sleeps are reported as the returned `delays`, and each draw is the input `jitter(a)`.
- `Urls.Host`: a simplification of `urlparse(...).netloc`. It leaves out the removal of leading control characters and spaces, the removal of tab and newline characters, the bracket check that raises `ValueError` for a malformed IPv6 host, and `_checknetloc`, which raises `ValueError` for a non-ASCII network location that NFKC normalisation turns into one containing `/`, `?`, `#`, `@` or `:`. In the source such a `ValueError` would escape the retry loop as a non-retryable error; here `Host` never fails.
- `Pipeline.GetMaterial`: its contract gives each delay as `Backoff(initial_delay, a, jitter(a))` but does not restate the window of that delay; the window is proved once, in `Pipeline.BackoffWithinWindow`, to keep the real arithmetic out of the loop proof.
- `Pipeline.GetMaterial`: exceptions raised inside the `try` by code other than the search call are not modelled. The only such code is URL parsing and opening the HTTP session.
- Characters: Dafny's `char` is a Unicode scalar value, so Python strings holding lone surrogates are not representable. `clean_text` would turn them into spaces like any other non-ASCII character.
