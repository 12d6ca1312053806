/**
 * `fetch_url` (src/scrapers/itch_rss_scraper.rs): one GET, repeated with
 * exponential backoff while the server answers 429 Too Many Requests or the
 * request fails in transport, up to a retry budget.
 *
 * The network is a parameter: a `Transport` maps a URL and the number of
 * requests made before this one to what that request brings back, so a
 * server that answers differently over time is covered. Sleeping is
 * recorded as the list of delays slept, in seconds.
 */
module Fetcher {
  import opened Results

  /** What one `client.get(url).send()` brings back. */
  datatype Outcome =
    | Response(status: int, body: Option<string>)  // `body` is None when reading the text fails
    | TransportFailure

  type Transport = (string, nat) -> Outcome

  /** Why a fetch gave up. */
  datatype FetchError =
    | TransportError           // the last attempt failed in transport
    | Status(code: int)        // `error_for_status` on a 4xx or 5xx response
    | BodyRead                 // a 200 whose text could not be read

  /** How `fetch_url` ends: a body, an error, or the panic of `unwrap_err` on a status that is no error. */
  datatype Fetched = Body(text: string) | Failure(error: FetchError) | Panic(status: int)

  /** One fetch: its end, how many requests it sent, and the delays it slept between them. */
  datatype FetchRun = FetchRun(result: Fetched, attempts: nat, sleeps: seq<nat>)

  const MaxDelay: nat := 300

  function Min(a: int, b: int): int
  {
    if a <= b then a else b
  }

  /** The delay after `delay`: doubled, capped at 300 seconds. */
  function NextDelay(delay: nat): nat
  {
    Min(MaxDelay, delay * 2)
  }

  /** `StatusCode::is_client_error() || is_server_error()`. */
  predicate IsErrorStatus(status: int)
  {
    400 <= status <= 599
  }

  /** An outcome after which `fetch_url` sleeps and tries again, if the budget allows. */
  predicate Retryable(o: Outcome)
  {
    o.TransportFailure? || o.status == 429
  }

  /** What `fetch_url` returns when it stops on outcome `o`. */
  function Final(o: Outcome): Fetched
  {
    match o
    case TransportFailure => Failure(TransportError)
    case Response(status, body) =>
      if status == 200 then
        (match body
         case Some(text) => Body(text)
         case None => Failure(BodyRead))
      else if IsErrorStatus(status) then Failure(Status(status))
      else Panic(status)
  }

  /**
   * The fetch from the request numbered `n` on, with `retries` retries used
   * of `maxRetries` and the next delay `delay`.
   */
  function FetchFrom(t: Transport, url: string, n: nat, maxRetries: nat, retries: nat, delay: nat): FetchRun
    requires retries <= maxRetries
    decreases maxRetries - retries
  {
    var o := t(url, n);
    if Retryable(o) && retries < maxRetries then
      var rest := FetchFrom(t, url, n + 1, maxRetries, retries + 1, NextDelay(delay));
      FetchRun(rest.result, rest.attempts + 1, [delay] + rest.sleeps)
    else
      FetchRun(Final(o), 1, [])
  }

  /** `fetch_url(client, url, max_retries)` started at request number `n`: no retry used, delay 1 s. */
  function Fetch(t: Transport, url: string, n: nat, maxRetries: nat): FetchRun
  {
    FetchFrom(t, url, n, maxRetries, 0, 1)
  }

  /** `run` preceded by the requests that slept `sleeps` before it. */
  function After(sleeps: seq<nat>, run: FetchRun): FetchRun
  {
    FetchRun(run.result, run.attempts + |sleeps|, sleeps + run.sleeps)
  }

  /** A retryable outcome within the budget: the fetch goes on after sleeping `delay`. */
  lemma RetryStep(t: Transport, url: string, n: nat, maxRetries: nat, retries: nat, delay: nat, slept: seq<nat>)
    requires retries < maxRetries && Retryable(t(url, n + retries))
    ensures After(slept, FetchFrom(t, url, n + retries, maxRetries, retries, delay)) ==
            After(slept + [delay], FetchFrom(t, url, n + (retries + 1), maxRetries, retries + 1, NextDelay(delay)))
  {
    var rest := FetchFrom(t, url, n + (retries + 1), maxRetries, retries + 1, NextDelay(delay));
    assert slept + ([delay] + rest.sleeps) == (slept + [delay]) + rest.sleeps;
  }

  /** Any other outcome, or a spent budget: the fetch ends with what that outcome calls for. */
  lemma StopStep(t: Transport, url: string, n: nat, maxRetries: nat, retries: nat, delay: nat, slept: seq<nat>)
    requires retries <= maxRetries && |slept| == retries
    requires !(Retryable(t(url, n + retries)) && retries < maxRetries)
    ensures After(slept, FetchFrom(t, url, n + retries, maxRetries, retries, delay)) ==
            FetchRun(Final(t(url, n + retries)), retries + 1, slept)
  {
    assert slept + [] == slept;
  }

  /**
   * `fetch_url`: the loop of the source, one request per iteration.
   */
  method FetchUrl(t: Transport, url: string, n: nat, maxRetries: nat) returns (run: FetchRun)
    ensures run == Fetch(t, url, n, maxRetries)
  {
    var retries: nat := 0;
    var delay: nat := 1;
    var slept: seq<nat> := [];
    while true
      invariant retries <= maxRetries && |slept| == retries
      invariant After(slept, FetchFrom(t, url, n + retries, maxRetries, retries, delay)) == Fetch(t, url, n, maxRetries)
      decreases maxRetries - retries
    {
      var response := t(url, n + retries);
      if response.Response? && response.status == 200 {
        StopStep(t, url, n, maxRetries, retries, delay, slept);
        match response.body {
          case Some(text) => return FetchRun(Body(text), retries + 1, slept);
          case None => return FetchRun(Failure(BodyRead), retries + 1, slept);
        }
      } else if response.Response? && response.status != 429 {
        StopStep(t, url, n, maxRetries, retries, delay, slept);
        if IsErrorStatus(response.status) {
          return FetchRun(Failure(Status(response.status)), retries + 1, slept);
        }
        return FetchRun(Panic(response.status), retries + 1, slept);
      }
      // A 429, or a request that failed in transport.
      if retries >= maxRetries {
        StopStep(t, url, n, maxRetries, retries, delay, slept);
        if response.TransportFailure? {
          return FetchRun(Failure(TransportError), retries + 1, slept);
        }
        return FetchRun(Failure(Status(response.status)), retries + 1, slept);
      }
      RetryStep(t, url, n, maxRetries, retries, delay, slept);
      slept := slept + [delay];
      delay := Min(300, delay * 2);
      retries := retries + 1;
    }
  }

  // ---------------------------------------------------------------------------
  // Properties of a fetch.

  /** A fetch sends between 1 and `maxRetries + 1` requests and sleeps once between each two. */
  lemma {:induction false} FetchBounds(t: Transport, url: string, n: nat, maxRetries: nat, retries: nat, delay: nat)
    requires retries <= maxRetries
    ensures var run := FetchFrom(t, url, n, maxRetries, retries, delay);
            1 <= run.attempts <= maxRetries - retries + 1 && |run.sleeps| == run.attempts - 1
    decreases maxRetries - retries
  {
    if Retryable(t(url, n)) && retries < maxRetries {
      FetchBounds(t, url, n + 1, maxRetries, retries + 1, NextDelay(delay));
    }
  }

  /**
   * The run is explained by the transport: every request but the last
   * brought back a retryable outcome, the result is what the last one
   * calls for, and the last one is retryable only when the budget is spent.
   */
  lemma {:induction false} FetchExplained(t: Transport, url: string, n: nat, maxRetries: nat, retries: nat, delay: nat)
    requires retries <= maxRetries
    ensures var run := FetchFrom(t, url, n, maxRetries, retries, delay);
            run.attempts >= 1
            && (forall j :: n <= j < n + run.attempts - 1 ==> Retryable(t(url, j)))
            && run.result == Final(t(url, n + run.attempts - 1))
            && (Retryable(t(url, n + run.attempts - 1)) ==> run.attempts == maxRetries - retries + 1)
    decreases maxRetries - retries
  {
    if Retryable(t(url, n)) && retries < maxRetries {
      FetchExplained(t, url, n + 1, maxRetries, retries + 1, NextDelay(delay));
    }
  }

  /** The delay slept before retry `k + 1`, starting from `delay`. */
  function Backoff(delay: nat, k: nat): nat
    decreases k
  {
    if k == 0 then delay else Backoff(NextDelay(delay), k - 1)
  }

  function Pow2(k: nat): nat
  {
    if k == 0 then 1 else 2 * Pow2(k - 1)
  }

  /** The `k`-th delay slept is the `k`-th backoff from the starting delay. */
  lemma {:induction false} SleepsAreBackoff(t: Transport, url: string, n: nat, maxRetries: nat, retries: nat, delay: nat, k: nat)
    requires retries <= maxRetries
    requires k < |FetchFrom(t, url, n, maxRetries, retries, delay).sleeps|
    ensures FetchFrom(t, url, n, maxRetries, retries, delay).sleeps[k] == Backoff(delay, k)
    decreases maxRetries - retries
  {
    if k > 0 {
      SleepsAreBackoff(t, url, n + 1, maxRetries, retries + 1, NextDelay(delay), k - 1);
    }
  }

  /** From a capped power of two, the backoff stays a capped power of two. */
  lemma {:induction false} BackoffOfPower(j: nat, k: nat)
    ensures Backoff(Min(MaxDelay, Pow2(j)), k) == Min(MaxDelay, Pow2(j + k))
    decreases k
  {
    if k > 0 {
      assert NextDelay(Min(MaxDelay, Pow2(j))) == Min(MaxDelay, Pow2(j + 1));
      BackoffOfPower(j + 1, k - 1);
      assert j + 1 + (k - 1) == j + k;
    }
  }

  /**
   * The `k`-th sleep of `fetch_url` lasts min(300, 2^k) seconds: 1, 2, 4,
   * …, 256, then 300 for good; so every sleep lasts 1 to 300 seconds.
   */
  lemma FetchSleeps(t: Transport, url: string, n: nat, maxRetries: nat, k: nat)
    requires k < |Fetch(t, url, n, maxRetries).sleeps|
    ensures Fetch(t, url, n, maxRetries).sleeps[k] == Min(MaxDelay, Pow2(k))
    ensures 1 <= Fetch(t, url, n, maxRetries).sleeps[k] <= MaxDelay
  {
    SleepsAreBackoff(t, url, n, maxRetries, 0, 1, k);
    BackoffOfPower(0, k);
    PowPositive(k);
  }

  lemma {:induction false} PowPositive(k: nat)
    ensures Pow2(k) >= 1
  {
    if k > 0 {
      PowPositive(k - 1);
    }
  }

  /** A 200 with a readable body on the first request ends the fetch with that body, at once. */
  lemma FirstAnswerOk(t: Transport, url: string, n: nat, maxRetries: nat, text: string)
    requires t(url, n) == Response(200, Some(text))
    ensures Fetch(t, url, n, maxRetries) == FetchRun(Body(text), 1, [])
  {
  }

  /**
   * Any answer other than 429 on the first request ends the fetch after that
   * one request, without sleeping: a body, `BodyRead`, a 4xx/5xx error, or
   * a panic for any other status.
   */
  lemma NonRetryableStopsAtOnce(t: Transport, url: string, n: nat, maxRetries: nat, status: int, body: Option<string>)
    requires t(url, n) == Response(status, body) && status != 429
    ensures Fetch(t, url, n, maxRetries).attempts == 1 && Fetch(t, url, n, maxRetries).sleeps == []
    ensures status == 200 && body.None? ==> Fetch(t, url, n, maxRetries).result == Failure(BodyRead)
    ensures IsErrorStatus(status) ==> Fetch(t, url, n, maxRetries).result == Failure(Status(status))
    ensures status != 200 && !IsErrorStatus(status) ==> Fetch(t, url, n, maxRetries).result == Panic(status)
  {
  }

  /**
   * When every request up to the budget is throttled or fails in transport,
   * the fetch sends `maxRetries + 1` requests and fails with the last one's
   * error.
   */
  lemma {:induction false} RetriesExhausted(t: Transport, url: string, n: nat, maxRetries: nat, retries: nat, delay: nat)
    requires retries <= maxRetries
    requires forall j :: n <= j <= n + maxRetries - retries ==> Retryable(t(url, j))
    ensures FetchFrom(t, url, n, maxRetries, retries, delay).attempts == maxRetries - retries + 1
    ensures FetchFrom(t, url, n, maxRetries, retries, delay).result ==
            (if t(url, n + maxRetries - retries).TransportFailure? then Failure(TransportError) else Failure(Status(429)))
    decreases maxRetries - retries
  {
    if retries < maxRetries {
      RetriesExhausted(t, url, n + 1, maxRetries, retries + 1, NextDelay(delay));
    }
  }

  /**
   * After `k` throttled or failed requests, `k` within the budget, a 200
   * with a body ends the fetch with that body after `k + 1` requests.
   */
  lemma {:induction false} SucceedsAfterRetries(t: Transport, url: string, n: nat, maxRetries: nat, retries: nat, delay: nat, k: nat, text: string)
    requires retries + k <= maxRetries
    requires forall j :: n <= j < n + k ==> Retryable(t(url, j))
    requires t(url, n + k) == Response(200, Some(text))
    ensures FetchFrom(t, url, n, maxRetries, retries, delay).result == Body(text)
    ensures FetchFrom(t, url, n, maxRetries, retries, delay).attempts == k + 1
    decreases k
  {
    if k > 0 {
      assert (n + 1) + (k - 1) == n + k;
      SucceedsAfterRetries(t, url, n + 1, maxRetries, retries + 1, NextDelay(delay), k - 1, text);
    }
  }
}
