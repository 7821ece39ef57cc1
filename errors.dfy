/** The crate's error type, `ScrapingError`, and its conversion from the
    retry driver's `BackoffError`. */
module Errors {
  import Backoff

  datatype ScrapingError = NetworkError | InvalidPage | Timeout | MaxRetries | ParsingErr

  /** Every variant, in declaration order. */
  const AllErrors: seq<ScrapingError> := [NetworkError, InvalidPage, Timeout, MaxRetries, ParsingErr]

  /** `From<BackoffError> for ScrapingError`: running out of retries stays a
      retry failure; a request to stop becomes a network error. */
  function FromBackoffError(e: Backoff.BackoffError): (r: ScrapingError)
    ensures r.MaxRetries? <==> e.MaxRetries?
    ensures r.NetworkError? <==> e.Exit?
  {
    match e
    case MaxRetries => MaxRetries
    case Exit => NetworkError
  }

  /** The conversion never reports a timeout, an invalid page or a parsing
      error, and it tells the two driver failures apart. */
  lemma FromBackoffErrorRange(e: Backoff.BackoffError, f: Backoff.BackoffError)
    ensures FromBackoffError(e) in [NetworkError, MaxRetries]
    ensures !FromBackoffError(e).Timeout? && !FromBackoffError(e).InvalidPage? && !FromBackoffError(e).ParsingErr?
    ensures FromBackoffError(e) == FromBackoffError(f) ==> e == f
  {
  }

  /** `ScrapingError` has exactly five variants. */
  lemma FiveVariants(e: ScrapingError)
    ensures e in AllErrors
    ensures |AllErrors| == 5
    ensures forall i, j :: 0 <= i < j < |AllErrors| ==> AllErrors[i] != AllErrors[j]
  {
  }
}
