/** `get_page_text`: fetch a page through the retry driver, classifying each
    HTTP answer, then read its body.

    The network is modelled as the stream of outcomes of the successive
    requests: `attempts(i)` is what the i-th request (counting from 0) gave,
    an HTTP response with its status and its body (`None` when reading the
    body fails) or a transport error. */
module PageFetch {
  import opened Common
  import Backoff
  import opened Errors

  datatype HttpOutcome = Response(status: nat, body: Option<string>) | TransportError

  /** The statuses the exchange sends when it is flooded with requests. */
  predicate Retryable(status: nat) {
    status == 429 || status == 500 || status == 502 || status == 503 || status == 504
  }

  /** The closure given to the driver: 200 returns the response, a flooding
      status asks to retry, any other status and any transport error ask to
      stop. */
  function Classify(o: HttpOutcome): (r: Backoff.BackoffMessage<Option<string>>)
    ensures r.Return? <==> o.Response? && o.status == 200
    ensures r.Return? ==> r.value == o.body
    ensures r.Retry? <==> o.Response? && Retryable(o.status)
    ensures r.Exit? <==> o.TransportError? || (o.status != 200 && !Retryable(o.status))
  {
    match o
    case TransportError => Backoff.BackoffMessage.Exit
    case Response(status, body) =>
      if status == 200 then Backoff.Return(body)
      else if Retryable(status) then Backoff.Retry
      else Backoff.BackoffMessage.Exit
  }

  function Classified(attempts: nat -> HttpOutcome): nat -> Backoff.BackoffMessage<Option<string>> {
    (i: nat) => Classify(attempts(i))
  }

  /** The driver's failure converted to a `ScrapingError`; then an unreadable
      or empty body is an invalid page and a non-empty body is the result. */
  function GetPageText(attempts: nat -> HttpOutcome): Result<string, ScrapingError> {
    match Backoff.Run(Classified(attempts)).result
    case Err(e) => Err(FromBackoffError(e))
    case Ok(body) =>
      if body.None? || body.value == [] then Err(InvalidPage) else Ok(body.value)
  }

  /** The requests before the k-th all got a flooding status. */
  predicate RetriedBefore(attempts: nat -> HttpOutcome, k: nat) {
    forall i :: 0 <= i < k ==> attempts(i).Response? && Retryable(attempts(i).status)
  }

  /** A non-empty body of the first 200 answer is returned unchanged. */
  lemma FirstPageWins(attempts: nat -> HttpOutcome, k: nat, txt: string)
    requires k <= Backoff.MAX_RETRIES && RetriedBefore(attempts, k)
    requires attempts(k) == Response(200, Some(txt)) && txt != []
    ensures GetPageText(attempts) == Ok(txt)
  {
    Backoff.FirstReturnWins(Classified(attempts), k, Some(txt));
  }

  /** A 200 answer whose body is unreadable or empty is an invalid page. */
  lemma EmptyPageInvalid(attempts: nat -> HttpOutcome, k: nat)
    requires k <= Backoff.MAX_RETRIES && RetriedBefore(attempts, k)
    requires attempts(k).Response? && attempts(k).status == 200
    requires attempts(k).body.None? || attempts(k).body == Some([])
    ensures GetPageText(attempts) == Err(InvalidPage)
  {
    Backoff.FirstReturnWins(Classified(attempts), k, attempts(k).body);
  }

  /** A transport error or an unexpected status ends the fetch with a network error. */
  lemma StopIsNetworkError(attempts: nat -> HttpOutcome, k: nat)
    requires k <= Backoff.MAX_RETRIES && RetriedBefore(attempts, k)
    requires attempts(k).TransportError? || (attempts(k).status != 200 && !Retryable(attempts(k).status))
    ensures GetPageText(attempts) == Err(NetworkError)
  {
    Backoff.ExitStops(Classified(attempts), k);
  }

  /** Six flooding statuses in a row end the fetch with a retry failure. */
  lemma FloodingGivesUp(attempts: nat -> HttpOutcome)
    requires RetriedBefore(attempts, Backoff.MAX_RETRIES + 1)
    ensures GetPageText(attempts) == Err(MaxRetries)
  {
    Backoff.SixRetriesGiveUp(Classified(attempts));
  }

  /** Whatever the network does, the page text is non-empty when present, and
      a failure is a network error, a retry failure or an invalid page, never
      a timeout or a parsing error. */
  lemma PageTextOutcomes(attempts: nat -> HttpOutcome)
    ensures GetPageText(attempts).Ok? ==> GetPageText(attempts).value != []
    ensures GetPageText(attempts).Err? ==> GetPageText(attempts).error in [NetworkError, MaxRetries, InvalidPage]
    ensures GetPageText(attempts).Ok? ==> Backoff.Run(Classified(attempts)).result == Ok(Some(GetPageText(attempts).value))
  {
    match Backoff.Run(Classified(attempts)).result
    case Err(e) => FromBackoffErrorRange(e, e);
    case Ok(_) =>
  }
}
