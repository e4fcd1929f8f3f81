/**
 * The three retry/back-off clients of the browser code: `fetchChunkAnswer`,
 * `fetchWithBackoff` and `retryWithBackoff`. The network is an oracle from
 * the request's position to its reply; instead of sleeping, each client
 * returns the list of waits (in milliseconds) it asks for, and the number
 * of requests it made.
 *
 * HTTP 429 is "Too Many Requests" (RFC 6585 section 4); its `Retry-After`
 * header (RFC 9110 section 10.2.3) is read with `parseFloat`.
 */
module Retry {
  import opened Common

  /** The `Retry-After` header as `parseFloat` sees it. */
  datatype RetryAfter =
    | Absent                  // no header: `get` returns null
    | Blank                   // an empty header value, which is falsy
    | Seconds(n: nat)         // a value `parseFloat` reads as n (delta-seconds)
    | NotANumber              // e.g. an HTTP-date: `parseFloat` gives NaN, a 0 ms timer

  /** What one `fetch` gives: a rejection, or a response. */
  datatype Reply =
    | NetworkFailure
    | Http(status: int, retryAfter: RetryAfter, content: Option<string>)

  predicate IsRateLimited(r: Reply) { r.Http? && r.status == 429 }

  /** `res.ok`: a status in 200..299. */
  predicate IsOk(r: Reply) { r.Http? && 200 <= r.status <= 299 }

  datatype Failure =
    | RetriesExhausted        // "Exceeded retry limit…", "Too many rate-limit retries", "Rate limit exceeded."
    | HttpError(status: int)  // "OpenAI error <status>…"
    | Rejected                // the `fetch` rejection, propagated

  /** base·2^j: the j-th step of a doubling back-off that starts at `base`. */
  function Doubling(base: nat, j: nat): nat {
    base * Pow2(j)
  }

  lemma DoublingStep(base: nat, j: nat)
    ensures Doubling(base, j + 1) == 2 * Doubling(base, j)
  {
    assert Pow2(j + 1) == 2 * Pow2(j);
  }

  /** `ra ? parseFloat(ra) * 1000 : backoff`, as the timer receives it. */
  function RequestedWait(ra: RetryAfter, backoff: nat): nat {
    match ra
    case Absent => backoff
    case Blank => backoff
    case Seconds(n) => n * 1000
    case NotANumber => 0
  }

  /** `data.choices?.[0]?.message?.content || ""`. */
  function ContentOrEmpty(content: Option<string>): string {
    match content
    case Some(s) => s
    case None => ""
  }

  /**
   * `fetchChunkAnswer(prompt, retries = 5)`: only 429 is retried. The j-th
   * wait honours `Retry-After` when present and is 1000·2^j otherwise; the
   * back-off doubles either way.
   */
  method FetchChunkAnswer(respond: nat -> Reply, retries: nat)
    returns (outcome: Result<string, Failure>, waits: seq<nat>, requests: nat)
    ensures requests <= retries
    ensures forall j :: 0 <= j < |waits| ==>
      IsRateLimited(respond(j)) && waits[j] == RequestedWait(respond(j).retryAfter, Doubling(1000, j))
    ensures outcome == Err(RetriesExhausted) <==> (requests == retries && |waits| == retries)
    ensures outcome != Err(RetriesExhausted) ==> (requests == |waits| + 1 && !IsRateLimited(respond(|waits|)))
    ensures outcome.Ok? ==> IsOk(respond(|waits|)) && outcome.value == ContentOrEmpty(respond(|waits|).content)
    ensures outcome == Err(Rejected) <==> (requests == |waits| + 1 && respond(|waits|) == NetworkFailure)
    ensures outcome.Err? && outcome.error.HttpError? ==>
      respond(|waits|).Http? && !IsOk(respond(|waits|)) && outcome.error.status == respond(|waits|).status
  {
    var backoff := 1000;
    waits := [];
    requests := 0;
    var i := 0;
    while i < retries
      invariant i <= retries && requests == i && |waits| == i
      invariant backoff == Doubling(1000, i)
      invariant forall j :: 0 <= j < i ==>
        IsRateLimited(respond(j)) && waits[j] == RequestedWait(respond(j).retryAfter, Doubling(1000, j))
    {
      var res := respond(i);
      requests := requests + 1;
      if res.NetworkFailure? {
        return Err(Rejected), waits, requests;
      }
      if res.status == 429 {
        var wait := RequestedWait(res.retryAfter, backoff);
        waits := waits + [wait];
        DoublingStep(1000, i);
        backoff := backoff * 2;
        i := i + 1;
        continue;
      }
      if !(200 <= res.status <= 299) {
        return Err(HttpError(res.status)), waits, requests;
      }
      return Ok(ContentOrEmpty(res.content)), waits, requests;
    }
    outcome := Err(RetriesExhausted);
  }

  /**
   * `fetchWithBackoff(prompt, options, maxRetries = 3)`: at most
   * maxRetries + 1 requests; waits of 1000·2^j between them, `Retry-After`
   * ignored, and no wait before the final throw.
   */
  method FetchWithBackoff(respond: nat -> Reply, maxRetries: nat)
    returns (outcome: Result<Reply, Failure>, waits: seq<nat>, requests: nat)
    ensures requests == |waits| + 1 && requests <= maxRetries + 1
    ensures forall j :: 0 <= j < |waits| ==> IsRateLimited(respond(j))
    ensures waits == DoublingWaits(|waits|)
    ensures outcome == Err(RetriesExhausted) <==> (|waits| == maxRetries && IsRateLimited(respond(maxRetries)))
    ensures outcome.Ok? ==> IsOk(respond(|waits|)) && outcome.value == respond(|waits|)
    ensures outcome == Err(Rejected) <==> respond(|waits|) == NetworkFailure
    ensures outcome.Err? && outcome.error.HttpError? ==>
      respond(|waits|).Http? && !IsOk(respond(|waits|)) && !IsRateLimited(respond(|waits|))
      && outcome.error.status == respond(|waits|).status
  {
    var attempt := 0;
    var backoff := 1000;
    waits := [];
    requests := 0;
    while true
      invariant attempt <= maxRetries && requests == attempt && |waits| == attempt
      invariant backoff == Doubling(1000, attempt)
      invariant forall j :: 0 <= j < attempt ==> IsRateLimited(respond(j)) && waits[j] == Doubling(1000, j)
      decreases maxRetries - attempt
    {
      var res := respond(requests);
      requests := requests + 1;
      if res.NetworkFailure? {
        return Err(Rejected), waits, requests;
      }
      if res.status != 429 {
        if !(200 <= res.status <= 299) {
          return Err(HttpError(res.status)), waits, requests;
        }
        return Ok(res), waits, requests;
      }
      attempt := attempt + 1;
      if attempt > maxRetries {
        return Err(RetriesExhausted), waits, requests;
      }
      waits := waits + [backoff];
      DoublingStep(1000, attempt - 1);
      backoff := backoff * 2;
    }
  }

  /**
   * `retryWithBackoff(requestFunc, retries = 5, delay = 1000)`: any reply
   * other than 429, an error status included, is returned as it is; the
   * j-th wait is delay·2^(j+1) (2000 first by default), and a wait follows
   * even the last 429 before the throw.
   */
  method RetryWithBackoff(respond: nat -> Reply, retries: nat, delay: nat)
    returns (outcome: Result<Reply, Failure>, waits: seq<nat>)
    ensures |waits| <= retries
    ensures forall j :: 0 <= j < |waits| ==> IsRateLimited(respond(j)) && waits[j] == Doubling(delay, j + 1)
    ensures outcome == Err(RetriesExhausted) <==> |waits| == retries
    ensures outcome.Ok? ==> (outcome.value == respond(|waits|) && !IsRateLimited(respond(|waits|))
      && respond(|waits|).Http?)
    ensures outcome == Err(Rejected) <==> (|waits| < retries && respond(|waits|) == NetworkFailure)
    ensures !(outcome.Err? && outcome.error.HttpError?)
  {
    waits := [];
    var attempt := 1;
    while attempt <= retries
      invariant 1 <= attempt <= retries + 1 && |waits| == attempt - 1
      invariant forall j :: 0 <= j < |waits| ==> IsRateLimited(respond(j)) && waits[j] == Doubling(delay, j + 1)
    {
      var response := respond(attempt - 1);
      if response.NetworkFailure? {
        return Err(Rejected), waits;
      }
      if response.status != 429 {
        return Ok(response), waits;
      }
      waits := waits + [Doubling(delay, attempt)];
      attempt := attempt + 1;
    }
    outcome := Err(RetriesExhausted);
  }

  function Sum(xs: seq<nat>): nat {
    if |xs| == 0 then 0 else xs[0] + Sum(xs[1..])
  }

  /** The doubling schedule 1000, 2000, 4000, … of n waits. */
  function DoublingWaits(n: nat): (w: seq<nat>)
    ensures |w| == n
  {
    seq(n, j requires 0 <= j < n => Doubling(1000, j))
  }

  lemma {:induction false} SumAppend(xs: seq<nat>, x: nat)
    ensures Sum(xs + [x]) == Sum(xs) + x
  {
    if |xs| > 0 {
      assert (xs + [x])[1..] == xs[1..] + [x];
      SumAppend(xs[1..], x);
    } else {
      assert xs + [x] == [x];
    }
  }

  /** n doubling waits add up to 1000·(2^n − 1) ms. */
  lemma {:induction false} DoublingWaitsTotal(n: nat)
    ensures Sum(DoublingWaits(n)) == 1000 * (Pow2(n) - 1)
  {
    if n > 0 {
      DoublingWaitsTotal(n - 1);
      assert DoublingWaits(n) == DoublingWaits(n - 1) + [1000 * Pow2(n - 1)];
      SumAppend(DoublingWaits(n - 1), 1000 * Pow2(n - 1));
    }
  }
}
