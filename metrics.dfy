/** Scraping metrics: how many items a run had, how many succeeded, and how
    many failed with each kind of `ScrapingError`. Counters are `i32`; their
    `+` wraps around as in a release build. */
module Metrics {
  import opened Common
  import opened Numbers
  import opened Errors

  const I32_MODULUS: int := 0x1_0000_0000

  /** Two's-complement wrap-around into `i32` (release-mode `+` and `as i32`):
      `(x - I32_MIN) % I32_MODULUS + I32_MIN`, written with the literal values. */
  function Wrap32(x: int): (r: I32)
    ensures I32_MIN <= x <= I32_MAX ==> r == x
  {
    (x + 0x8000_0000) % 0x1_0000_0000 - 0x8000_0000
  }

  /** Wrapping early or late gives the same counter. */
  lemma WrapAdd(x: int, y: int)
    ensures Wrap32(Wrap32(x) + y) == Wrap32(x + y)
    ensures Wrap32(x + Wrap32(y)) == Wrap32(x + y)
  {
    var k := (x - I32_MIN) / I32_MODULUS;
    assert Wrap32(x) == x - k * I32_MODULUS;
    ModShift(x + y - I32_MIN, k);
    var j := (y - I32_MIN) / I32_MODULUS;
    assert Wrap32(y) == y - j * I32_MODULUS;
    ModShift(x + y - I32_MIN, j);
  }

  lemma ModShift(z: int, k: int)
    ensures (z - k * I32_MODULUS) % I32_MODULUS == z % I32_MODULUS
  {
  }

  /** Release-mode `+` of two `i32` counters: the sum of two `i32` values is at
      most one modulus out of range, so one correction wraps it. */
  function WrappingAdd(x: I32, y: I32): I32 {
    if x + y > I32_MAX then x + y - I32_MODULUS
    else if x + y < I32_MIN then x + y + I32_MODULUS
    else x + y
  }

  /** The corrected sum is the sum wrapped into `i32`. */
  lemma WrappingAddWraps(x: I32, y: I32)
    ensures WrappingAdd(x, y) == Wrap32(x + y)
  {
    if x + y > I32_MAX {
      ModShift(x + y - I32_MIN, 1);
    } else if x + y < I32_MIN {
      ModShift(x + y - I32_MIN, -1);
    }
  }

  /** Counting one more with a wrapped counter wraps the new count. */
  lemma CountUp(n: int)
    ensures WrappingAdd(Wrap32(n), 1) == Wrap32(n + 1)
  {
    WrappingAddWraps(Wrap32(n), 1);
    WrapAdd(n, 1);
  }

  /** Wrapping `+` is associative. */
  lemma WrappingAddAssoc(x: I32, y: I32, z: I32)
    ensures WrappingAdd(WrappingAdd(x, y), z) == WrappingAdd(x, WrappingAdd(y, z))
  {
    WrappingAddWraps(x, y);
    WrappingAddWraps(WrappingAdd(x, y), z);
    WrappingAddWraps(y, z);
    WrappingAddWraps(x, WrappingAdd(y, z));
    WrapAssoc(x, y, z);
  }

  /** The value of a `ScrapingErrorMetrics`: one counter per error kind. */
  datatype ErrorCounts = ErrorCounts(networkError: I32, invalidPage: I32, timeout: I32, maxRetries: I32, parsingError: I32) {

    /** The counter that `e` is tallied under. */
    function Count(e: ScrapingError): I32 {
      match e
      case NetworkError => networkError
      case InvalidPage => invalidPage
      case Timeout => timeout
      case MaxRetries => maxRetries
      case ParsingErr => parsingError
    }

    /** `Add for ScrapingErrorMetrics`: counter by counter. */
    function Add(rhs: ErrorCounts): (r: ErrorCounts)
      ensures forall e :: r.Count(e) == WrappingAdd(Count(e), rhs.Count(e))
    {
      ErrorCounts(
        WrappingAdd(networkError, rhs.networkError),
        WrappingAdd(invalidPage, rhs.invalidPage),
        WrappingAdd(timeout, rhs.timeout),
        WrappingAdd(maxRetries, rhs.maxRetries),
        WrappingAdd(parsingError, rhs.parsingError))
    }

    /** The counts after `update(e)`: the counter of `e` goes up by one and no
        other counter changes. */
    function Bump(e: ScrapingError): (r: ErrorCounts)
      ensures r.Count(e) == WrappingAdd(Count(e), 1)
      ensures forall f :: f != e ==> r.Count(f) == Count(f)
    {
      match e
      case NetworkError => this.(networkError := WrappingAdd(networkError, 1))
      case InvalidPage => this.(invalidPage := WrappingAdd(invalidPage, 1))
      case Timeout => this.(timeout := WrappingAdd(timeout, 1))
      case MaxRetries => this.(maxRetries := WrappingAdd(maxRetries, 1))
      case ParsingErr => this.(parsingError := WrappingAdd(parsingError, 1))
    }

    /** All counters added up, without wrap-around. */
    function Sum(): int {
      networkError + invalidPage + timeout + maxRetries + parsingError
    }
  }

  /** `ScrapingErrorMetrics::empty`. */
  const EMPTY_ERRORS: ErrorCounts := ErrorCounts(0, 0, 0, 0, 0)

  /** Counts agreeing on every kind of error are the same counts. */
  lemma CountsEqual(a: ErrorCounts, b: ErrorCounts)
    requires forall e :: a.Count(e) == b.Count(e)
    ensures a == b
  {
    assert a.Count(NetworkError) == b.Count(NetworkError);
    assert a.Count(InvalidPage) == b.Count(InvalidPage);
    assert a.Count(Timeout) == b.Count(Timeout);
    assert a.Count(MaxRetries) == b.Count(MaxRetries);
    assert a.Count(ParsingErr) == b.Count(ParsingErr);
  }

  /** `empty` is the identity of `add`. */
  lemma ErrorsIdentity(a: ErrorCounts)
    ensures a.Add(EMPTY_ERRORS) == a && EMPTY_ERRORS.Add(a) == a
  {
    CountsEqual(a.Add(EMPTY_ERRORS), a);
    CountsEqual(EMPTY_ERRORS.Add(a), a);
  }

  /** `add` is commutative and associative, wrap-around included. */
  lemma ErrorsMonoid(a: ErrorCounts, b: ErrorCounts, c: ErrorCounts)
    ensures a.Add(b) == b.Add(a)
    ensures a.Add(b).Add(c) == a.Add(b.Add(c))
  {
    ErrorsAssoc(a, b, c);
  }

  lemma ErrorsAssoc(a: ErrorCounts, b: ErrorCounts, c: ErrorCounts)
    ensures a.Add(b).Add(c) == a.Add(b.Add(c))
  {
    WrappingAddAssoc(a.networkError, b.networkError, c.networkError);
    WrappingAddAssoc(a.invalidPage, b.invalidPage, c.invalidPage);
    WrappingAddAssoc(a.timeout, b.timeout, c.timeout);
    WrappingAddAssoc(a.maxRetries, b.maxRetries, c.maxRetries);
    WrappingAddAssoc(a.parsingError, b.parsingError, c.parsingError);
  }

  lemma WrapAssoc(x: int, y: int, z: int)
    ensures Wrap32(Wrap32(x + y) + z) == Wrap32(x + Wrap32(y + z))
  {
    WrapAdd(x + y, z);
    WrapAdd(x, y + z);
  }

  /** The value of a `ScrapingMetrics`. */
  datatype MetricsCounts = MetricsCounts(total: I32, successful: I32, errors: ErrorCounts) {

    /** `Add for ScrapingMetrics`: field by field. */
    function Add(rhs: MetricsCounts): (r: MetricsCounts)
      ensures r.total == WrappingAdd(total, rhs.total) && r.successful == WrappingAdd(successful, rhs.successful)
      ensures r.errors == errors.Add(rhs.errors)
    {
      MetricsCounts(WrappingAdd(total, rhs.total), WrappingAdd(successful, rhs.successful), errors.Add(rhs.errors))
    }
  }

  /** `ScrapingMetrics::empty`. */
  const EMPTY_METRICS: MetricsCounts := MetricsCounts(0, 0, EMPTY_ERRORS)

  /** `empty` is the identity of `add`; `add` is commutative and associative. */
  lemma MetricsMonoid(a: MetricsCounts, b: MetricsCounts, c: MetricsCounts)
    ensures a.Add(EMPTY_METRICS) == a && EMPTY_METRICS.Add(a) == a
    ensures a.Add(b) == b.Add(a)
    ensures a.Add(b).Add(c) == a.Add(b.Add(c))
  {
    MetricsIdentity(a);
    MetricsCommute(a, b);
    MetricsAssoc(a, b, c);
  }

  lemma MetricsIdentity(a: MetricsCounts)
    ensures a.Add(EMPTY_METRICS) == a && EMPTY_METRICS.Add(a) == a
  {
    ErrorsIdentity(a.errors);
  }

  lemma MetricsCommute(a: MetricsCounts, b: MetricsCounts)
    ensures a.Add(b) == b.Add(a)
  {
    ErrorsMonoid(a.errors, b.errors, b.errors);
  }

  lemma MetricsAssoc(a: MetricsCounts, b: MetricsCounts, c: MetricsCounts)
    ensures a.Add(b).Add(c) == a.Add(b.Add(c))
  {
    ErrorsAssoc(a.errors, b.errors, c.errors);
    WrappingAddAssoc(a.total, b.total, c.total);
    WrappingAddAssoc(a.successful, b.successful, c.successful);
  }

  /** A `ScrapingErrorMetrics` struct, updated in place. */
  class ScrapingErrorMetrics {
    var networkError: I32
    var invalidPage: I32
    var timeout: I32
    var maxRetries: I32
    var parsingError: I32

    function Counts(): ErrorCounts
      reads this
    {
      ErrorCounts(networkError, invalidPage, timeout, maxRetries, parsingError)
    }

    /** `ScrapingErrorMetrics::empty`. */
    constructor Empty()
      ensures Counts() == EMPTY_ERRORS
    {
      networkError, invalidPage, timeout, maxRetries, parsingError := 0, 0, 0, 0, 0;
    }

    /** `update`: one more error of kind `e`. */
    method Update(e: ScrapingError)
      modifies this
      ensures Counts() == old(Counts()).Bump(e)
      ensures Counts().Count(e) == WrappingAdd(old(Counts()).Count(e), 1)
      ensures forall f :: f != e ==> Counts().Count(f) == old(Counts()).Count(f)
    {
      match e {
        case NetworkError => networkError := WrappingAdd(networkError, 1);
        case InvalidPage => invalidPage := WrappingAdd(invalidPage, 1);
        case Timeout => timeout := WrappingAdd(timeout, 1);
        case MaxRetries => maxRetries := WrappingAdd(maxRetries, 1);
        case ParsingErr => parsingError := WrappingAdd(parsingError, 1);
      }
    }
  }

  /** A `ScrapingMetrics` struct: its totals are updated in place, and so is
      its error tally. */
  class ScrapingMetrics {
    var total: I32
    var successful: I32
    const errors: ScrapingErrorMetrics

    function Counts(): MetricsCounts
      reads this, errors
    {
      MetricsCounts(total, successful, errors.Counts())
    }

    /** `ScrapingMetrics::empty`. */
    constructor Empty()
      ensures Counts() == EMPTY_METRICS && fresh(errors)
    {
      total, successful := 0, 0;
      errors := new ScrapingErrorMetrics.Empty();
    }
  }

  /** A result with the metrics of the run that produced it; `result` is
      `None` once taken. */
  class WithMetrics<T> {
    const metrics: MetricsCounts
    var result: Option<T>

    /** `WithMetrics::new`. */
    constructor (result: T, metrics: MetricsCounts)
      ensures this.result == Some(result) && this.metrics == metrics
    {
      this.result := Some(result);
      this.metrics := metrics;
    }

    /** `unmetric`: takes the result out, leaving `None`; `unwrap` panics when
        it was already taken, hence the precondition. */
    method Unmetric() returns (r: T)
      requires result.Some?
      modifies this
      ensures r == old(result).value && result.None?
    {
      r := result.value;
      result := None;
    }
  }
}
