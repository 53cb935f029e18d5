/** One HTTP exchange as the clients see it. */
module Http {
  import opened Wrappers

  /** The outcome of one `HttpClient.GetAsync` call: a response (status code, media
      type of the `Content-Type` header if any, body text), an
      `HttpRequestException`, or any other exception. */
  datatype Attempt =
    | Response(statusCode: int, mediaType: Option<string>, body: string)
    | HttpRequestFailure
    | OtherFailure

  /** `HttpResponseMessage.IsSuccessStatusCode`. */
  predicate IsSuccessStatusCode(code: int) {
    200 <= code <= 299
  }

  /** The server's answers to successive attempts at one URI. */
  type Responses = nat -> Attempt

  /** `WebContent`: a downloaded body with its media type. */
  datatype WebContent = WebContent(content: string, contentType: Option<string>)
}

/** The Polly policy both clients build: handle a non-success response or an
    `HttpRequestException`, retry `PollyRetryCount` times, and wait 2^k seconds
    before retry k. */
module RetryPolicy {
  import opened Wrappers
  import opened Http

  /** `Math.Pow(2, k)`, as an integer. */
  function Pow2(k: nat): (r: nat)
    ensures r > k
  {
    if k == 0 then 1 else 2 * Pow2(k - 1)
  }

  lemma MulAssoc(a: int, b: int, c: int)
    ensures a * (b * c) == (a * b) * c
  {
  }

  /** Powers of two multiply by adding exponents. */
  lemma {:induction false} Pow2Add(a: nat, b: nat)
    ensures Pow2(a + b) == Pow2(a) * Pow2(b)
    decreases a
  {
    if a > 0 {
      Pow2Add(a - 1, b);
      var x, y := Pow2(a - 1), Pow2(b);
      calc {
        Pow2(a + b);
        2 * Pow2(a - 1 + b);
        2 * (x * y);
        { MulAssoc(2, x, y); }
        (2 * x) * y;
      }
    }
  }

  /** The outcomes the policy handles: exactly these lead to a retry. */
  predicate ShouldRetry(a: Attempt) {
    (a.Response? && !IsSuccessStatusCode(a.statusCode)) || a.HttpRequestFailure?
  }

  /** What `ExecuteAsync` did: the attempt whose outcome it passed on, how many
      attempts it made, and the waits (in seconds) it slept between them. */
  datatype Execution = Execution(final: Attempt, attempts: nat, waits: seq<nat>)

  /** The index of the last attempt, starting from attempt `k`. */
  function LastAttempt(retryCount: nat, responses: Responses, k: nat): (last: nat)
    requires k <= retryCount
    ensures k <= last <= retryCount
    ensures forall j :: k <= j < last ==> ShouldRetry(responses(j))
    ensures last < retryCount ==> !ShouldRetry(responses(last))
    decreases retryCount - k
  {
    if k < retryCount && ShouldRetry(responses(k)) then LastAttempt(retryCount, responses, k + 1)
    else k
  }

  /** `ExecuteAsync(() => GetAsync(uri))`. */
  function Execute(retryCount: nat, responses: Responses): (e: Execution)
    ensures 1 <= e.attempts <= retryCount + 1
    ensures e.final == responses(e.attempts - 1)
    ensures forall j :: 0 <= j < e.attempts - 1 ==> ShouldRetry(responses(j))
    ensures e.attempts - 1 < retryCount ==> !ShouldRetry(e.final)
    ensures |e.waits| == e.attempts - 1
    ensures forall j :: 0 <= j < |e.waits| ==> e.waits[j] == Pow2(j + 1)
  {
    var last := LastAttempt(retryCount, responses, 0);
    Execution(responses(last), last + 1, seq(last, j requires 0 <= j => Pow2(j + 1)))
  }

  /** The back-off is exponential: each wait is twice the one before it. */
  lemma WaitsDouble(retryCount: nat, responses: Responses)
    ensures var w := Execute(retryCount, responses).waits;
      forall j :: 0 <= j < |w| - 1 ==> w[j + 1] == 2 * w[j]
  {
    var w := Execute(retryCount, responses).waits;
    forall j | 0 <= j < |w| - 1
      ensures w[j + 1] == 2 * w[j]
    {
      Pow2Add(1, j + 1);
    }
  }

  /** The first attempt that is not retried ends the run; otherwise the run ends after
      exactly `retryCount` retries. */
  lemma ExecuteStopsAtFirstSettled(retryCount: nat, responses: Responses, n: nat)
    requires n <= retryCount
    requires forall j :: 0 <= j < n ==> ShouldRetry(responses(j))
    requires n < retryCount ==> !ShouldRetry(responses(n))
    ensures Execute(retryCount, responses).attempts == n + 1
  {
  }

  /** An endpoint that always answers 500, with three retries: four attempts, waits of
      2, 4 and 8 seconds, and the last 500 is passed on. */
  lemma AlwaysFailingEndpoint()
    ensures var e := Execute(3, _ => Response(500, None, ""));
      e.attempts == 4 && e.waits == [2, 4, 8] && e.final == Response(500, None, "")
  {
    var responses: Responses := _ => Response(500, None, "");
    ExecuteStopsAtFirstSettled(3, responses, 3);
    var e := Execute(3, responses);
    assert Pow2(1) == 2 && Pow2(2) == 4 && Pow2(3) == 8;
    assert e.waits == [2, 4, 8];
  }
}
