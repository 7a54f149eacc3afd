/**
 * `get_material`: the retry loop around the search call, and what one
 * successful search leads to (empty-result shortcut, deduplication, one
 * worker per URL, formatting). The search provider, the jitter source and
 * the page fetches are inputs: `search(a)` is what the provider does on
 * attempt `a`, `jitter(a)` the draw of `random.uniform(0, 1)` after it, and
 * `fetch(u)` what the GET of `u` produced.
 */
module Pipeline {
  import opened Extract
  import opened Deduplication
  import opened Digest

  /** The exceptions the search call can raise. */
  datatype SearchError =
    | RateLimited(message: string)
    | ProviderFailed(message: string)
    | Unexpected(message: string)

  /** `RatelimitException` and `DuckDuckGoSearchException` are retried; the rest are not. */
  predicate IsRetryable(e: SearchError) {
    e.RateLimited? || e.ProviderFailed?
  }

  /** What one search attempt did. */
  datatype SearchOutcome =
    | Found(results: seq<SearchResult>)
    | Failed(error: SearchError)

  /** How `get_material` ends: a digest, the implicit `None`, or a raised error. */
  datatype Material =
    | Text(digest: string)
    | NoValue
    | Raised(error: SearchError)

  function Pow2(n: nat): (r: nat)
    ensures r >= 1
  {
    if n == 0 then 1 else 2 * Pow2(n - 1)
  }

  /** `initial_delay * (2 ** attempt) + random.uniform(0, 1)` with the draw given. */
  function Backoff(initialDelay: real, attempt: nat, jitter: real): real {
    initialDelay * Pow2(attempt) as real + jitter
  }

  /**
   * With a draw between 0 and 1, the delay after attempt `a` lies between
   * `initial_delay * 2^a` and one second more.
   */
  lemma BackoffWithinWindow(initialDelay: real, attempt: nat, jitter: real)
    requires 0.0 <= jitter <= 1.0
    ensures initialDelay * Pow2(attempt) as real <= Backoff(initialDelay, attempt, jitter)
    ensures Backoff(initialDelay, attempt, jitter) <= initialDelay * Pow2(attempt) as real + 1.0
  {
    var base := initialDelay * Pow2(attempt) as real;
    assert Backoff(initialDelay, attempt, jitter) == base + jitter;
  }

  /** One worker, `fetch_and_parse_article`, as `gather` reports it. */
  function Worker(fetch: string -> FetchOutcome): string -> TaskResult {
    u => Completed(FetchAndParse(u, fetch(u)))
  }

  /**
   * The tasks list and `asyncio.gather`: one worker per URL, the results in
   * URL order whatever order the workers finish in, and each result depends
   * only on its own URL.
   */
  function FanOut(urls: seq<string>, worker: string -> TaskResult): (articles: seq<TaskResult>)
    ensures |articles| == |urls|
    ensures forall i :: 0 <= i < |urls| ==> articles[i] == worker(urls[i])
  {
    if urls == [] then []
    else FanOut(urls[..|urls| - 1], worker) + [worker(urls[|urls| - 1])]
  }

  /** What the attempt that found `results` returns. */
  function Respond(results: seq<SearchResult>, fetch: string -> FetchOutcome): string {
    if results == [] then "" else Format(FanOut(Dedup(results), Worker(fetch)))
  }

  /** How an attempt ends the call, when it does. */
  function Conclude(outcome: SearchOutcome, fetch: string -> FetchOutcome): Material {
    match outcome
    case Found(results) => Text(Respond(results, fetch))
    case Failed(e) => Raised(e)
  }

  /**
   * The body of the `try` once the search returned: the empty-result
   * shortcut, the deduplication loop, the fan-out and the formatting loop.
   */
  method BuildDigest(results: seq<SearchResult>, fetch: string -> FetchOutcome) returns (digest: string)
    ensures digest == Respond(results, fetch)
  {
    if |results| == 0 {
      return "";
    }
    var urls := DedupUrls(results);
    var articles := FanOut(urls, Worker(fetch));
    digest := FormatResults(articles);
  }

  /**
   * How the `try` ends an attempt: with the digest when the search returned,
   * with the search's exception re-raised otherwise.
   */
  method Settle(outcome: SearchOutcome, fetch: string -> FetchOutcome) returns (r: Material)
    ensures r == Conclude(outcome, fetch)
  {
    match outcome {
      case Found(results) =>
        var digest := BuildDigest(results, fetch);
        r := Text(digest);
      case Failed(e) =>
        r := Raised(e);
    }
  }

  /**
   * The loop of `get_material`. Besides the result it reports how many
   * searches were made and the delays slept between them.
   */
  method GetMaterial(
    maxRetries: int,
    initialDelay: real,
    search: nat -> SearchOutcome,
    jitter: nat -> real,
    fetch: string -> FetchOutcome
  ) returns (r: Material, attempts: nat, delays: seq<real>)
    requires forall a: nat :: 0.0 <= jitter(a) <= 1.0
    ensures attempts == 0 <==> maxRetries <= 0
    ensures attempts == 0 ==> r == NoValue && delays == []
    ensures attempts > 0 ==> attempts <= maxRetries && |delays| == attempts - 1
    ensures forall a :: 0 <= a < |delays| ==>
      search(a).Failed? && IsRetryable(search(a).error) && delays[a] == Backoff(initialDelay, a, jitter(a))
    ensures attempts > 0 ==> r == Conclude(search(attempts - 1), fetch)
    ensures r.Raised? && IsRetryable(r.error) ==> attempts == maxRetries
  {
    delays := [];
    attempts := 0;
    while attempts < maxRetries
      invariant attempts == 0 || attempts < maxRetries
      invariant |delays| == attempts
      invariant forall a :: 0 <= a < attempts ==>
        search(a).Failed? && IsRetryable(search(a).error) && delays[a] == Backoff(initialDelay, a, jitter(a))
      decreases maxRetries - attempts
    {
      var outcome := search(attempts);
      if outcome.Found? || !IsRetryable(outcome.error) || attempts == maxRetries - 1 {
        r := Settle(outcome, fetch);
        attempts := attempts + 1;
        return;
      }
      var delay := Backoff(initialDelay, attempts, jitter(attempts));
      delays := delays + [delay];
      attempts := attempts + 1;
    }
    r := NoValue;
  }

  /** The default arguments of `get_material`. */
  const DefaultMaxRetries: int := 5
  const DefaultInitialDelay: real := 1.0

  /**
   * `get_material(keyword)` with its default arguments: at most five
   * searches, the delay after attempt `a` between `2^a` and `2^a + 1`
   * seconds, and when every search is rate-limited or fails in the provider,
   * five searches, four delays and the fifth error re-raised.
   */
  method GetMaterialByDefault(
    search: nat -> SearchOutcome,
    jitter: nat -> real,
    fetch: string -> FetchOutcome
  ) returns (r: Material, attempts: nat, delays: seq<real>)
    requires forall a: nat :: 0.0 <= jitter(a) <= 1.0
    ensures 1 <= attempts <= DefaultMaxRetries && |delays| == attempts - 1
    ensures r == Conclude(search(attempts - 1), fetch)
    ensures forall a :: 0 <= a < |delays| ==>
      delays[a] == Backoff(DefaultInitialDelay, a, jitter(a))
      && Pow2(a) as real <= delays[a] <= Pow2(a) as real + 1.0
    ensures (forall a: nat :: a < DefaultMaxRetries ==> search(a).Failed? && IsRetryable(search(a).error)) ==>
      attempts == DefaultMaxRetries && r == Raised(search(4).error)
  {
    r, attempts, delays := GetMaterial(DefaultMaxRetries, DefaultInitialDelay, search, jitter, fetch);
    forall a | 0 <= a < |delays|
      ensures Pow2(a) as real <= delays[a] <= Pow2(a) as real + 1.0
    {
      BackoffWithinWindow(DefaultInitialDelay, a, jitter(a));
    }
  }

  /**
   * The empty-result shortcut returns what the general path would: no
   * results, no URLs, no blocks.
   */
  lemma EmptyShortcutAgrees(results: seq<SearchResult>, fetch: string -> FetchOutcome)
    ensures Respond(results, fetch) == Format(FanOut(Dedup(results), Worker(fetch)))
    ensures results == [] ==> Respond(results, fetch) == ""
  {
  }

  /** Whether the fetch of `u` yields an extract (status 200 and a parsed page). */
  predicate FetchSucceeds(u: string, fetch: string -> FetchOutcome) {
    fetch(u).Response? && fetch(u).status == HttpOk && fetch(u).body.Parsed?
  }

  /** No URL of `urls` yields an extract. */
  predicate NoPageFetched(urls: seq<string>, fetch: string -> FetchOutcome) {
    forall i :: 0 <= i < |urls| ==> !FetchSucceeds(urls[i], fetch)
  }

  /** No extract succeeds exactly when no URL's fetch yields a page. */
  lemma SuccessesOfFanOut(urls: seq<string>, fetch: string -> FetchOutcome)
    ensures Successes(FanOut(urls, Worker(fetch))) == [] <==> NoPageFetched(urls, fetch)
  {
    NoSuccesses(FanOut(urls, Worker(fetch)));
    forall u
      ensures IsSuccess(Worker(fetch)(u)) <==> FetchSucceeds(u, fetch)
    {
    }
  }

  /**
   * An attempt that found results returns the empty string exactly when no
   * deduplicated URL could be fetched and parsed.
   */
  lemma RespondEmptyIffNoPage(results: seq<SearchResult>, fetch: string -> FetchOutcome)
    ensures Respond(results, fetch) == "" <==> NoPageFetched(Dedup(results), fetch)
  {
    var urls := Dedup(results);
    EmptyShortcutAgrees(results, fetch);
    FormatEmptyIffNoSuccess(FanOut(urls, Worker(fetch)));
    SuccessesOfFanOut(urls, fetch);
  }

  /**
   * Failure isolation: a URL whose fetch fails contributes nothing, and the
   * digest is the one the other URLs give on their own, in their order.
   */
  lemma FailedFetchIsIsolated(urls: seq<string>, fetch: string -> FetchOutcome, b: nat)
    requires b < |urls| && !FetchSucceeds(urls[b], fetch)
    ensures Format(FanOut(urls, Worker(fetch))) == Format(FanOut(urls[..b] + urls[b + 1..], Worker(fetch)))
  {
    var articles := FanOut(urls, Worker(fetch));
    assert !IsSuccess(articles[b]);
    FailureLeavesNoTrace(articles, b);
    FanOutWithout(urls, Worker(fetch), b);
  }

  /** Dropping a URL drops its entry from the fan-out and nothing else. */
  lemma FanOutWithout(urls: seq<string>, worker: string -> TaskResult, b: nat)
    requires b < |urls|
    ensures FanOut(urls, worker)[..b] + FanOut(urls, worker)[b + 1..] == FanOut(urls[..b] + urls[b + 1..], worker)
  {
    var articles := FanOut(urls, worker);
    var rest := urls[..b] + urls[b + 1..];
    var left := articles[..b] + articles[b + 1..];
    var right := FanOut(rest, worker);
    assert |left| == |right|;
    forall i | 0 <= i < |left|
      ensures left[i] == right[i]
    {
      if i < b {
        assert left[i] == articles[i] && rest[i] == urls[i];
      } else {
        assert left[i] == articles[i + 1] && rest[i] == urls[i + 1];
      }
    }
    assert left == right;
  }
}
