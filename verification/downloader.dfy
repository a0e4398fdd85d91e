/**
 The retry policy around `download_file`: the tenacity decorator
 `@retry(wait=wait_exponential(multiplier=1, min=4, max=10),
 stop=stop_after_attempt(5), retry=retry_if_exception_type(ClientError))`
 over one attempt of fetching the archive and saving it. The HTTP exchange
 and the file write are outside the model: each attempt is given by what the
 network and the disk did on it.
 */
module Downloader {
  import opened Wrappers

  /** `stop_after_attempt(5)`. */
  const MaxAttempts: nat := 5

  /** The `multiplier`, `min` and `max` of `wait_exponential`, in seconds. */
  const WaitMultiplier: nat := 1
  const WaitMin: nat := 4
  const WaitMax: nat := 10

  /** `raise_for_status()` raises for every status from this one up. */
  const FirstErrorStatus: int := 400

  type Bytes = seq<bv8>

  /** What happened on one attempt: a response arrived with a status and a
      body that was then saved; the client failed in a way aiohttp reports
      as a `ClientError` (a connection or payload error, a socket-level
      `ServerTimeoutError`); or the attempt failed in a way that is not a
      `ClientError`: saving the body, or the session's total timeout, which
      raises `asyncio.TimeoutError` and is therefore neither retried nor
      logged by the handler. */
  datatype AttemptEvent =
    | Response(status: int, body: Bytes)
    | ClientFailure
    | LocalFailure

  /** How one call of the undecorated `download_file` ends. */
  datatype AttemptOutcome =
    | Saved(content: Bytes)
    | RaisedClientError
    | RaisedOther

  /** One attempt: an error status raises from `raise_for_status()` as a
      `ClientError`, which the handler logs and re-raises; a client failure is
      logged and re-raised the same way; any other failure passes through the
      handler untouched; otherwise the body is saved. */
  function Attempt(e: AttemptEvent): (o: AttemptOutcome)
    ensures o.Saved? <==> e.Response? && e.status < FirstErrorStatus
    ensures o.Saved? ==> o.content == e.body
    ensures o.RaisedClientError? <==> e.ClientFailure? || (e.Response? && e.status >= FirstErrorStatus)
    ensures o.RaisedOther? <==> e.LocalFailure?
  {
    match e
    case Response(status, body) =>
      if status >= FirstErrorStatus then RaisedClientError else Saved(body)
    case ClientFailure => RaisedClientError
    case LocalFailure => RaisedOther
  }

  function Pow2(n: nat): (p: nat)
    ensures p >= 1
  {
    if n == 0 then 1 else 2 * Pow2(n - 1)
  }

  /** `wait_exponential` after attempt number `n` (counted from 1):
      `multiplier * 2 ** (n - 1)`, clamped to `[min, max]`. */
  function WaitAfter(n: nat): (w: nat)
    requires n >= 1
    ensures WaitMin <= w <= WaitMax
    ensures WaitMultiplier * Pow2(n - 1) <= WaitMin ==> w == WaitMin
    ensures WaitMultiplier * Pow2(n - 1) >= WaitMax ==> w == WaitMax
    ensures WaitMin <= WaitMultiplier * Pow2(n - 1) <= WaitMax ==> w == WaitMultiplier * Pow2(n - 1)
  {
    var raw := WaitMultiplier * Pow2(n - 1);
    if raw < WaitMin then WaitMin else if raw > WaitMax then WaitMax else raw
  }

  lemma {:induction false} Pow2Monotone(m: nat, n: nat)
    requires m <= n
    ensures Pow2(m) <= Pow2(n)
    decreases n
  {
    if m < n {
      Pow2Monotone(m, n - 1);
    }
  }

  /** Waits never shrink from one retry to the next. */
  lemma WaitsGrow(m: nat, n: nat)
    requires 1 <= m <= n
    ensures WaitAfter(m) <= WaitAfter(n)
  {
    Pow2Monotone(m - 1, n - 1);
  }

  /** The waits the policy can actually use, before the second to the fifth
      attempt: four, four, four and eight seconds. */
  lemma WaitSchedule()
    ensures [WaitAfter(1), WaitAfter(2), WaitAfter(3), WaitAfter(4)] == [4, 4, 4, 8]
  {
    assert Pow2(0) == 1 && Pow2(1) == 2 && Pow2(2) == 4 && Pow2(3) == 8;
  }

  /** What the decorated call ends with. */
  datatype DownloadError =
    | RetryError      // five `ClientError`s in a row; tenacity gives up
    | Propagated      // an exception that is not a `ClientError`, re-raised as is

  /** The decorated call: its result, the number of attempts made, the
      waits slept between them (in order) and the number of errors logged. */
  datatype Download = Download(
    result: Result<Bytes, DownloadError>,
    attempts: nat,
    waits: seq<nat>,
    logged: nat)

  /** The outcome of every attempt, were it made. */
  function Outcomes(events: nat -> AttemptEvent): nat -> AttemptOutcome
  {
    (i: nat) => Attempt(events(i))
  }

  /** The retry loop from attempt index `k` (counted from 0) on, over the
      outcome of each attempt. Every attempt before the last raised a
      `ClientError` and was followed by the wait for its number, and at most
      five attempts are made. */
  function RetryFrom(outcomes: nat -> AttemptOutcome, k: nat): (d: Download)
    requires k < MaxAttempts
    ensures k < d.attempts <= MaxAttempts
    ensures |d.waits| == d.attempts - 1 - k
    ensures forall i :: 0 <= i < |d.waits| ==> d.waits[i] == WaitAfter(k + 1 + i)
    ensures forall j :: k <= j < d.attempts - 1 ==> outcomes(j).RaisedClientError?
    decreases MaxAttempts - k
  {
    match outcomes(k)
    case Saved(content) => Download(Success(content), k + 1, [], 0)
    case RaisedOther => Download(Failure(Propagated), k + 1, [], 0)
    case RaisedClientError =>
      if k + 1 == MaxAttempts then Download(Failure(RetryError), k + 1, [], 1)
      else
        var rest := RetryFrom(outcomes, k + 1);
        Download(rest.result, rest.attempts, [WaitAfter(k + 1)] + rest.waits, rest.logged + 1)
  }

  /** The last attempt decides the result: its saved bytes, its exception
      if that is not a `ClientError`, or `RetryError` when it is the fifth
      `ClientError`. */
  lemma {:induction false} RetryOutcome(outcomes: nat -> AttemptOutcome, k: nat)
    requires k < MaxAttempts
    ensures var d := RetryFrom(outcomes, k);
            var last := outcomes(d.attempts - 1);
            && (d.result.Success? <==> last.Saved?)
            && (d.result.Success? ==> d.result.value == last.content)
            && (d.result.Failure? ==> (d.result.error == Propagated <==> last.RaisedOther?))
            && (d.result.Failure? ==> (d.result.error == RetryError <==> last.RaisedClientError?))
    decreases MaxAttempts - k
  {
    if outcomes(k).RaisedClientError? && k + 1 < MaxAttempts {
      RetryOutcome(outcomes, k + 1);
    }
  }

  /** Tenacity gives up only at the fifth attempt, and every `ClientError`
      is logged: one log line per attempt, except a last attempt that saved
      the body or raised something else. */
  lemma {:induction false} RetryLogged(outcomes: nat -> AttemptOutcome, k: nat)
    requires k < MaxAttempts
    ensures var d := RetryFrom(outcomes, k);
            && (d.result == Failure(RetryError) ==> d.attempts == MaxAttempts)
            && d.logged == d.attempts - k - (if d.result == Failure(RetryError) then 0 else 1)
    decreases MaxAttempts - k
  {
    if outcomes(k).RaisedClientError? && k + 1 < MaxAttempts {
      RetryLogged(outcomes, k + 1);
    }
  }

  /** `download_file(url, dest)` with its retry decorator. */
  function DownloadFile(events: nat -> AttemptEvent): (d: Download)
    ensures 1 <= d.attempts <= MaxAttempts
    ensures |d.waits| == d.attempts - 1
    ensures forall i :: 0 <= i < |d.waits| ==> WaitMin <= d.waits[i] <= WaitMax
  {
    RetryFrom(Outcomes(events), 0)
  }

  /** The download logs nothing and returns the body iff the very first
      attempt gets a response below 400 and saves it. */
  lemma QuietDownload(events: nat -> AttemptEvent)
    ensures var d := DownloadFile(events);
            d.logged == 0 && d.result.Success? <==> events(0).Response? && events(0).status < FirstErrorStatus
  {
    var outcomes := Outcomes(events);
    assert outcomes(0) == Attempt(events(0));
    RetryLogged(outcomes, 0);
    RetryOutcome(outcomes, 0);
  }

  /** Success within five attempts: if the first `j` attempts raise
      `ClientError`s and attempt `j` saves the body, the call returns that
      body after `j` retries, having logged each failure. */
  lemma {:induction false} SucceedsAfterFailures(outcomes: nat -> AttemptOutcome, j: nat, k: nat)
    requires k <= j < MaxAttempts
    requires forall i :: k <= i < j ==> outcomes(i).RaisedClientError?
    requires outcomes(j).Saved?
    ensures var d := RetryFrom(outcomes, k);
            && d.result == Success(outcomes(j).content)
            && d.attempts == j + 1
            && d.logged == j - k
    decreases j - k
  {
    RetryLogged(outcomes, k);
    if k < j {
      SucceedsAfterFailures(outcomes, j, k + 1);
    }
  }

  /** Five `ClientError`s in a row: the call fails with `RetryError` after
      five attempts, five log lines and the waits four, four, four, eight. */
  lemma FiveClientErrors(events: nat -> AttemptEvent)
    requires forall i :: 0 <= i < MaxAttempts ==> Attempt(events(i)).RaisedClientError?
    ensures var d := DownloadFile(events);
            && d.result == Failure(RetryError)
            && d.attempts == MaxAttempts
            && d.waits == [4, 4, 4, 8]
            && d.logged == MaxAttempts
  {
    var outcomes := Outcomes(events);
    var d := RetryFrom(outcomes, 0);
    assert d.result == Failure(RetryError) by {
      RetryOutcome(outcomes, 0);
      assert outcomes(d.attempts - 1).RaisedClientError?;
    }
    assert d.attempts == MaxAttempts && d.logged == MaxAttempts by {
      RetryLogged(outcomes, 0);
    }
    assert d.waits == [4, 4, 4, 8] by {
      WaitSchedule();
      assert d.waits == [WaitAfter(1), WaitAfter(2), WaitAfter(3), WaitAfter(4)];
    }
  }

  /** A failure other than a `ClientError` is not retried: the call raises
      it after exactly one attempt, with nothing logged and no wait. */
  lemma OtherErrorNotRetried(events: nat -> AttemptEvent)
    requires Attempt(events(0)).RaisedOther?
    ensures DownloadFile(events) == Download(Failure(Propagated), 1, [], 0)
  {
  }

  /** An error status is retried like any other `ClientError`: a first
      response with status at least 400 followed by a good response gives the
      good response's body after one wait of four seconds. */
  lemma ErrorStatusIsRetried(events: nat -> AttemptEvent)
    requires events(0).Response? && events(0).status >= FirstErrorStatus
    requires events(1).Response? && events(1).status < FirstErrorStatus
    ensures DownloadFile(events) == Download(Success(events(1).body), 2, [WaitMin], 1)
  {
    assert Pow2(0) == 1;
  }
}
