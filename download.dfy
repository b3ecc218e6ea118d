/** The download step of the route: up to three attempts to fetch the
    generated image, a one-second pause after each failed attempt but the
    last, and a fixed error once all three have failed. */
module Download {
  import opened Http
  import opened Effects

  const MaxAttempts: nat := 3
  const RetryDelayMs: nat := 1000
  const ExhaustedPrefix := "Failed to download image after 3 attempts: "
  const HttpErrorPrefix := "HTTP error! status: "

  /** An attempt succeeds when a response arrived with an ok status and its
      body could be read. */
  predicate Succeeded(o: DownloadOutcome) {
    o.Fetched? && IsOk(o.status)
  }

  /** The message of the error a failed attempt throws: the rejection's own
      message, or the one built from a response whose status is not ok. */
  function AttemptError(o: DownloadOutcome): (m: string)
    requires !Succeeded(o)
    ensures o.FetchFailed? ==> m == o.message
    ensures o.Fetched? ==>
              && |m| > |HttpErrorPrefix|
              && m[..|HttpErrorPrefix|] == HttpErrorPrefix
              && AllDigits(m[|HttpErrorPrefix|..])
              && DecimalValue(m[|HttpErrorPrefix|..]) == o.status
  {
    match o
    case FetchFailed(message) => message
    case Fetched(status, _) =>
      DecimalRoundTrip(status);
      assert (HttpErrorPrefix + Decimal(status))[|HttpErrorPrefix|..] == Decimal(status);
      HttpErrorPrefix + Decimal(status)
  }

  /** Two responses with different non-ok statuses fail with different
      messages: the status can be read back from the error text. */
  lemma HttpErrorInjective(a: DownloadOutcome, b: DownloadOutcome)
    requires a.Fetched? && b.Fetched? && !Succeeded(a) && !Succeeded(b)
    requires AttemptError(a) == AttemptError(b)
    ensures a.status == b.status
  {
    var p := |HttpErrorPrefix|;
    assert Decimal(a.status) == AttemptError(a)[p..];
    assert Decimal(b.status) == AttemptError(b)[p..];
    DecimalInjective(a.status, b.status);
  }

  datatype DownloadResult = Downloaded(bytes: seq<byte>) | Exhausted(message: string)

  /** The index of the first successful outcome, or |outcomes| if none is. */
  function FirstSuccess(outcomes: seq<DownloadOutcome>): (k: nat)
    ensures k <= |outcomes|
    ensures forall i :: 0 <= i < k ==> !Succeeded(outcomes[i])
    ensures k < |outcomes| ==> Succeeded(outcomes[k])
  {
    if outcomes == [] then 0
    else if Succeeded(outcomes[0]) then 0
    else 1 + FirstSuccess(outcomes[1..])
  }

  /** The planned result of the download step and the number of attempts. */
  datatype Plan = Plan(result: DownloadResult, attempts: nat)

  /** What the download step yields for the given outcomes, stated through
      the first success among the first three attempts. */
  function DownloadSpec(outcomes: seq<DownloadOutcome>): (p: Plan)
    requires |outcomes| >= MaxAttempts
    ensures 1 <= p.attempts <= MaxAttempts
    ensures forall i :: 0 <= i < p.attempts - 1 ==> !Succeeded(outcomes[i])
    ensures p.result.Downloaded? <==> Succeeded(outcomes[p.attempts - 1])
    ensures p.result.Downloaded? ==> p.result.bytes == outcomes[p.attempts - 1].body
    ensures p.result.Exhausted? ==>
              p.attempts == MaxAttempts &&
              p.result.message == ExhaustedPrefix + AttemptError(outcomes[MaxAttempts - 1])
  {
    var k := FirstSuccess(outcomes[..MaxAttempts]);
    if k < MaxAttempts then Plan(Downloaded(outcomes[k].body), k + 1)
    else Plan(Exhausted(ExhaustedPrefix + AttemptError(outcomes[MaxAttempts - 1])), MaxAttempts)
  }

  /** The calls of n failed attempts, each followed by its pause. */
  function Retried(url: string, n: nat): (r: seq<Call>)
    ensures |r| == 2 * n
  {
    if n == 0 then [] else Retried(url, n - 1) + [DownloadAttempt(url), Sleep(RetryDelayMs)]
  }

  /** The calls of n attempts: every attempt but the last is followed by a
      pause, the last one is not. */
  function AttemptTrace(url: string, n: nat): seq<Call>
    requires n >= 1
  {
    Retried(url, n - 1) + [DownloadAttempt(url)]
  }

  lemma {:induction false} RetriedAt(url: string, n: nat, i: nat)
    requires i < 2 * n
    ensures Retried(url, n)[i] == if i % 2 == 0 then DownloadAttempt(url) else Sleep(RetryDelayMs)
    decreases n
  {
    if i < 2 * (n - 1) {
      RetriedAt(url, n - 1, i);
    }
  }

  lemma {:induction false} RetriedCounts(url: string, n: nat)
    ensures Count(Retried(url, n), Download) == n
    ensures Count(Retried(url, n), Pause) == n
    ensures Count(Retried(url, n), Vision) == 0
    ensures Count(Retried(url, n), Generation) == 0
    decreases n
  {
    if n > 0 {
      var pair := [DownloadAttempt(url), Sleep(RetryDelayMs)];
      RetriedCounts(url, n - 1);
      CountAppend(Retried(url, n - 1), pair, Download);
      CountAppend(Retried(url, n - 1), pair, Pause);
      CountAppend(Retried(url, n - 1), pair, Vision);
      CountAppend(Retried(url, n - 1), pair, Generation);
    }
  }

  /** n attempts make n fetches of the same URL and n - 1 pauses of one
      second, and nothing else. */
  lemma AttemptTraceCounts(url: string, n: nat)
    requires n >= 1
    ensures Count(AttemptTrace(url, n), Download) == n
    ensures Count(AttemptTrace(url, n), Pause) == n - 1
    ensures Count(AttemptTrace(url, n), Vision) == 0
    ensures Count(AttemptTrace(url, n), Generation) == 0
    ensures forall i :: 0 <= i < |AttemptTrace(url, n)| ==>
              AttemptTrace(url, n)[i] in {DownloadAttempt(url), Sleep(RetryDelayMs)}
  {
    var last := [DownloadAttempt(url)];
    RetriedCounts(url, n - 1);
    CountAppend(Retried(url, n - 1), last, Download);
    CountAppend(Retried(url, n - 1), last, Pause);
    CountAppend(Retried(url, n - 1), last, Vision);
    CountAppend(Retried(url, n - 1), last, Generation);
    var t := AttemptTrace(url, n);
    forall i | 0 <= i < |t|
      ensures t[i] in {DownloadAttempt(url), Sleep(RetryDelayMs)}
    {
      if i < 2 * (n - 1) {
        RetriedAt(url, n - 1, i);
        assert t[i] == Retried(url, n - 1)[i];
      }
    }
  }

  /** Every pause lies between two attempts: an attempt comes right before
      it and another right after it, so a pause neither starts nor ends the
      downloads. */
  predicate PausesBetweenAttempts(calls: seq<Call>) {
    forall i :: 0 <= i < |calls| && calls[i].Sleep? ==>
      && 0 < i && calls[i - 1].DownloadAttempt?
      && i + 1 < |calls| && calls[i + 1].DownloadAttempt?
  }

  /** Calls without pauses placed before a log keep its pauses between attempts. */
  lemma PausesAfterPrefix(prefix: seq<Call>, t: seq<Call>)
    requires forall i :: 0 <= i < |prefix| ==> !prefix[i].Sleep?
    requires PausesBetweenAttempts(t)
    ensures PausesBetweenAttempts(prefix + t)
  {
  }

  lemma AttemptTracePauses(url: string, n: nat)
    requires n >= 1
    ensures PausesBetweenAttempts(AttemptTrace(url, n))
    ensures AttemptTrace(url, n)[|AttemptTrace(url, n)| - 1] == DownloadAttempt(url)
  {
    var t := AttemptTrace(url, n);
    forall i | 0 <= i < |t| && t[i].Sleep?
      ensures 0 < i && t[i - 1].DownloadAttempt?
      ensures i + 1 < |t| && t[i + 1].DownloadAttempt?
    {
      RetriedAt(url, n - 1, i);
      RetriedAt(url, n - 1, i - 1);
      if i + 1 < 2 * (n - 1) {
        RetriedAt(url, n - 1, i + 1);
      }
    }
  }

  /** The retry loop of the route. `retries` counts down from three; the
      outcome of the next attempt is the one at index `attempt`. */
  method DownloadWithRetry(url: string, outcomes: seq<DownloadOutcome>)
    returns (result: DownloadResult, calls: seq<Call>)
    requires |outcomes| >= MaxAttempts
    ensures result == DownloadSpec(outcomes).result
    ensures calls == AttemptTrace(url, DownloadSpec(outcomes).attempts)
  {
    var retries := MaxAttempts;
    var attempt := 0;
    var body := [];
    calls := [];
    while retries > 0
      invariant retries + attempt == MaxAttempts
      invariant 0 < retries <= MaxAttempts
      invariant forall i :: 0 <= i < attempt ==> !Succeeded(outcomes[i])
      invariant calls == Retried(url, attempt)
    {
      var outcome := outcomes[attempt];
      calls := calls + [DownloadAttempt(url)];
      if Succeeded(outcome) {
        body := outcome.body;
        break;
      }
      var message := AttemptError(outcome);
      retries := retries - 1;
      attempt := attempt + 1;
      if retries == 0 {
        result := Exhausted(ExhaustedPrefix + message);
        return;
      }
      calls := calls + [Sleep(RetryDelayMs)];
    }
    result := Downloaded(body);
  }
}
