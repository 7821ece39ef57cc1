/** The share scraping run of the `scraper` crate: one task per ISIN, each
    fetching and parsing the share's page under a time limit, and a drain
    loop that tallies the outcomes as they arrive.

    Concurrency is not modelled: the tasks' outcomes are given in the order
    they complete, which may be any order of the per-task outcomes. The
    network is the stream of HTTP outcomes of `PageFetch`, and the HTML
    engine is a function from page text to `Document`. */
module SharesScrape {
  import opened Common
  import opened Numbers
  import opened Errors
  import opened PageFetch
  import opened Isins
  import opened Page
  import opened PropertySelectors
  import opened Models
  import opened Metrics

  /** The time limit of one share's task, in seconds. */
  const MAX_DURATION: nat := 5 * 60

  /** The successful values, in order. */
  function Successes<T>(rs: seq<Result<T, ScrapingError>>): (r: seq<T>)
    ensures |r| <= |rs|
  {
    if rs == [] then []
    else
      var pre := Successes(rs[..|rs| - 1]);
      match rs[|rs| - 1]
      case Ok(v) => pre + [v]
      case Err(_) => pre
  }

  /** How many outcomes failed with `e`. */
  function ErrorCount<T>(rs: seq<Result<T, ScrapingError>>, e: ScrapingError): (n: nat)
    ensures n <= |rs|
  {
    if rs == [] then 0
    else ErrorCount(rs[..|rs| - 1], e) + if rs[|rs| - 1] == Err(e) then 1 else 0
  }

  /** The successes are the `Ok` outcomes, as many times as they occur. */
  lemma {:induction false} SuccessesMultiset<T>(rs: seq<Result<T, ScrapingError>>)
    ensures forall v :: multiset(Successes(rs))[v] == multiset(rs)[Ok(v)]
    decreases |rs|
  {
    if rs != [] {
      var pre := rs[..|rs| - 1];
      SuccessesMultiset(pre);
      assert rs == pre + [rs[|rs| - 1]];
    }
  }

  /** The error count of `e` is the number of `Err(e)` outcomes. */
  lemma {:induction false} ErrorCountMultiset<T>(rs: seq<Result<T, ScrapingError>>, e: ScrapingError)
    ensures ErrorCount(rs, e) == multiset(rs)[Err(e)]
    decreases |rs|
  {
    if rs != [] {
      var pre := rs[..|rs| - 1];
      ErrorCountMultiset(pre, e);
      assert rs == pre + [rs[|rs| - 1]];
    }
  }

  /** Every outcome is a success or exactly one kind of error. */
  lemma {:induction false} OutcomesPartition<T>(rs: seq<Result<T, ScrapingError>>)
    ensures |Successes(rs)| + ErrorCount(rs, NetworkError) + ErrorCount(rs, InvalidPage) + ErrorCount(rs, Timeout)
      + ErrorCount(rs, MaxRetries) + ErrorCount(rs, ParsingErr) == |rs|
    decreases |rs|
  {
    if rs != [] {
      OutcomesPartition(rs[..|rs| - 1]);
      match rs[|rs| - 1]
      case Ok(_) =>
      case Err(e) =>
        match e
        case NetworkError =>
        case InvalidPage =>
        case Timeout =>
        case MaxRetries =>
        case ParsingErr =>
    }
  }

  /** The tallies do not depend on the order in which the outcomes arrive. */
  lemma ArrivalOrderIrrelevant(xs: seq<Result<Share, ScrapingError>>, ys: seq<Result<Share, ScrapingError>>)
    requires multiset(xs) == multiset(ys)
    ensures multiset(Successes(xs)) == multiset(Successes(ys))
    ensures |Successes(xs)| == |Successes(ys)|
    ensures forall e :: ErrorCount(xs, e) == ErrorCount(ys, e)
  {
    SuccessesMultiset(xs);
    SuccessesMultiset(ys);
    forall v ensures multiset(Successes(xs))[v] == multiset(Successes(ys))[v] {
    }
    assert multiset(Successes(xs)) == multiset(Successes(ys));
    assert |multiset(Successes(xs))| == |Successes(xs)|;
    forall e ensures ErrorCount(xs, e) == ErrorCount(ys, e) {
      ErrorCountMultiset(xs, e);
      ErrorCountMultiset(ys, e);
    }
  }

  /** The metrics after the outcomes `rs` were drained, starting from
      `total` and nothing else. */
  function Tally<T>(rs: seq<Result<T, ScrapingError>>, total: I32): MetricsCounts {
    if rs == [] then MetricsCounts(total, 0, EMPTY_ERRORS)
    else
      var t := Tally(rs[..|rs| - 1], total);
      match rs[|rs| - 1]
      case Ok(_) => t.(successful := WrappingAdd(t.successful, 1))
      case Err(e) => t.(errors := t.errors.Bump(e))
  }

  /** The drained metrics count the successes and each kind of error. */
  lemma {:induction false} TallyCounts<T>(rs: seq<Result<T, ScrapingError>>, total: I32)
    ensures Tally(rs, total).total == total
    ensures Tally(rs, total).successful == Wrap32(|Successes(rs)|)
    ensures forall e :: Tally(rs, total).errors.Count(e) == Wrap32(ErrorCount(rs, e))
    decreases |rs|
  {
    if rs != [] {
      var pre := rs[..|rs| - 1];
      TallyCounts(pre, total);
      match rs[|rs| - 1]
      case Ok(_) =>
        CountUp(|Successes(pre)|);
      case Err(e) =>
        CountUp(ErrorCount(pre, e));
    }
  }

  /** A success is one of the outcomes. */
  lemma SuccessIsOutcome<T>(rs: seq<Result<T, ScrapingError>>, v: T)
    requires v in Successes(rs)
    ensures Ok(v) in rs
  {
    SuccessesMultiset(rs);
    assert multiset(Successes(rs))[v] > 0;
  }

  /** No outcome is `Err(e)`, so `e` is never counted. */
  lemma {:induction false} ErrorCountNone<T>(rs: seq<Result<T, ScrapingError>>, e: ScrapingError)
    requires Err(e) !in rs
    ensures ErrorCount(rs, e) == 0
    decreases |rs|
  {
    if rs != [] {
      assert rs[..|rs| - 1] <= rs;
      ErrorCountNone(rs[..|rs| - 1], e);
    }
  }

  /** The outcomes of the run's tasks, task `i` scraping `shareIsins[i]`
      (`scrape_share_with_max_duration(share_isin, 5 * 60)`). Every task makes
      its own requests, `attempts(i)`, and takes its own time, `elapsed(i)`
      seconds, so two tasks for the same ISIN may end differently. */
  function TaskOutcomes(shareIsins: seq<ShareIsin>, attempts: nat -> nat -> HttpOutcome, elapsed: nat -> nat, html: string -> Document)
    : (r: seq<Result<Share, ScrapingError>>)
    ensures |r| == |shareIsins|
    ensures forall i :: 0 <= i < |r| && r[i].Ok? ==> r[i].value.shareId == shareIsins[i] && r[i].value.SameIsin(IsinString(shareIsins[i]))
    ensures forall i :: 0 <= i < |r| && r[i].Err? ==> r[i].error in [NetworkError, MaxRetries, InvalidPage, Timeout]
    ensures forall i :: 0 <= i < |r| ==> (r[i] == Err(Timeout) <==> elapsed(i) > MAX_DURATION)
    ensures Err(ParsingErr) !in r
  {
    var r := seq(|shareIsins|, i requires 0 <= i < |shareIsins| =>
      ScrapeShareWithMaxDuration(ScrapedShare(shareIsins[i], attempts(i), html), elapsed(i), MAX_DURATION));
    assert forall i :: 0 <= i < |r| ==> r[i] != Err(ParsingErr) && (r[i].Ok? ==> r[i] == ScrapedShare(shareIsins[i], attempts(i), html)) by {
      forall i | 0 <= i < |r|
        ensures r[i] != Err(ParsingErr) && (r[i].Ok? ==> r[i] == ScrapedShare(shareIsins[i], attempts(i), html))
      {
        var inner := ScrapedShare(shareIsins[i], attempts(i), html);
        assert r[i] == ScrapeShareWithMaxDuration(inner, elapsed(i), MAX_DURATION);
      }
    }
    r
  }

  /** Two tasks for one ISIN are independent: one may succeed while the
      other times out. */
  lemma DuplicateTasksIndependent(x: ShareIsin, attempts: nat -> nat -> HttpOutcome, html: string -> Document)
    requires GetPageText(attempts(0)).Ok?
    ensures var r := TaskOutcomes([x, x], attempts, (i: nat) => if i == 0 then 0 else MAX_DURATION + 1, html);
      r[0].Ok? && r[1] == Err(Timeout)
  {
  }

  /** `scrape_all_shares`: `total` is the number of ISINs; every `Ok` adds
      one success and its share, every `Err` is tallied under its kind. The
      tasks' outcomes arrive in any order. */
  method ScrapeAllShares(shareIsins: seq<ShareIsin>, attempts: nat -> nat -> HttpOutcome, elapsed: nat -> nat, html: string -> Document,
                         arrivals: seq<Result<Share, ScrapingError>>)
    returns (w: WithMetrics<seq<Share>>)
    requires multiset(arrivals) == multiset(TaskOutcomes(shareIsins, attempts, elapsed, html))
    ensures fresh(w) && w.result == Some(Successes(arrivals))
    ensures multiset(w.result.value) == multiset(Successes(TaskOutcomes(shareIsins, attempts, elapsed, html)))
    ensures forall s :: s in w.result.value ==> s.shareId in shareIsins && s.SameIsin(IsinString(s.shareId))
    ensures w.metrics.total == Wrap32(|shareIsins|)
    ensures w.metrics.successful == Wrap32(|Successes(TaskOutcomes(shareIsins, attempts, elapsed, html))|)
    ensures forall e :: w.metrics.errors.Count(e) == Wrap32(ErrorCount(TaskOutcomes(shareIsins, attempts, elapsed, html), e))
    ensures w.metrics.errors.Count(ParsingErr) == 0
    ensures |shareIsins| <= I32_MAX ==>
      && w.metrics.successful + w.metrics.errors.Sum() == w.metrics.total
      && |w.result.value| == w.metrics.successful
  {
    ghost var outcomes := TaskOutcomes(shareIsins, attempts, elapsed, html);
    var metrics := new ScrapingMetrics.Empty();
    metrics.total := Wrap32(|shareIsins|);
    var res: seq<Share> := [];
    var k := 0;
    while k < |arrivals|
      invariant 0 <= k <= |arrivals|
      invariant res == Successes(arrivals[..k])
      invariant metrics.Counts() == Tally(arrivals[..k], Wrap32(|shareIsins|))
    {
      assert arrivals[..k + 1][..k] == arrivals[..k];
      match arrivals[k] {
        case Ok(share) =>
          metrics.successful := WrappingAdd(metrics.successful, 1);
          res := res + [share];
        case Err(e) =>
          metrics.errors.Update(e);
      }
      k := k + 1;
    }
    assert arrivals[..k] == arrivals;
    DrainedMetrics(shareIsins, outcomes, arrivals);
    ErrorCountNone(outcomes, ParsingErr);
    forall s | s in res
      ensures s.shareId in shareIsins && s.SameIsin(IsinString(s.shareId))
    {
      SuccessIsOutcome(arrivals, s);
      assert Ok(s) in multiset(outcomes);
      var i :| 0 <= i < |outcomes| && outcomes[i] == Ok(s);
    }
    w := new WithMetrics(res, metrics.Counts());
  }

  /** What the drain ends with depends only on the tasks' outcomes, not on
      their order, and balances when the counters do not wrap around. */
  lemma DrainedMetrics(shareIsins: seq<ShareIsin>, outcomes: seq<Result<Share, ScrapingError>>, arrivals: seq<Result<Share, ScrapingError>>)
    requires |outcomes| == |shareIsins|
    requires multiset(arrivals) == multiset(outcomes)
    ensures multiset(Successes(arrivals)) == multiset(Successes(outcomes))
    ensures var m := Tally(arrivals, Wrap32(|shareIsins|));
      && m.total == Wrap32(|shareIsins|)
      && m.successful == Wrap32(|Successes(outcomes)|)
      && (forall e :: m.errors.Count(e) == Wrap32(ErrorCount(outcomes, e)))
      && (|shareIsins| <= I32_MAX ==> m.successful + m.errors.Sum() == m.total && |Successes(arrivals)| == m.successful)
  {
    var m := Tally(arrivals, Wrap32(|shareIsins|));
    TallyCounts(arrivals, Wrap32(|shareIsins|));
    ArrivalOrderIrrelevant(arrivals, outcomes);
    OutcomesPartition(arrivals);
    assert |arrivals| == |multiset(outcomes)| == |outcomes|;
    assert m.errors.Sum() == m.errors.Count(NetworkError) + m.errors.Count(InvalidPage) + m.errors.Count(Timeout)
      + m.errors.Count(MaxRetries) + m.errors.Count(ParsingErr);
  }

  /** `scrape_share_with_max_duration`: the task's own result when it ends
      within the limit, `Err(Timeout)` otherwise. */
  function ScrapeShareWithMaxDuration(inner: Result<Share, ScrapingError>, elapsed: nat, maxDuration: nat): (r: Result<Share, ScrapingError>)
    ensures elapsed <= maxDuration ==> r == inner
    ensures elapsed > maxDuration ==> r == Err(Timeout)
    ensures r == Err(Timeout) <==> elapsed > maxDuration || inner == Err(Timeout)
  {
    if elapsed <= maxDuration then inner else Err(Timeout)
  }

  /** `parse_page`: the share read through a `PropertySelector` of the page;
      it cannot fail. */
  method ParsePage(resTxt: string, shareIsin: ShareIsin, html: string -> Document) returns (s: Share)
    ensures s == ShareFromSelector(shareIsin, Build(html(resTxt)))
    ensures s.shareId == shareIsin && s.SameIsin(IsinString(shareIsin))
  {
    var doc := html(resTxt);
    var selector := NewPropertySelector(doc);
    s := ShareFromSelector(shareIsin, selector);
  }

  /** What `scrape_share` gives: a fetch failure is passed on; a fetched
      page always gives a share carrying the task's ISIN. */
  function ScrapedShare(shareIsin: ShareIsin, attempts: nat -> HttpOutcome, html: string -> Document): (r: Result<Share, ScrapingError>)
    ensures r.Ok? <==> GetPageText(attempts).Ok?
    ensures r.Ok? ==> r.value.shareId == shareIsin && r.value.SameIsin(IsinString(shareIsin))
    ensures r.Err? ==> r == Err(GetPageText(attempts).error) && r.error in [NetworkError, MaxRetries, InvalidPage]
  {
    PageTextOutcomes(attempts);
    match GetPageText(attempts)
    case Err(e) => Err(e)
    case Ok(resTxt) => Ok(ShareFromSelector(shareIsin, Build(html(resTxt))))
  }

  /** `scrape_share`: fetch the page, then parse it. */
  method ScrapeShare(shareIsin: ShareIsin, attempts: nat -> HttpOutcome, html: string -> Document) returns (r: Result<Share, ScrapingError>)
    ensures r == ScrapedShare(shareIsin, attempts, html)
    ensures GetPageText(attempts).Ok? ==> r == Ok(ShareFromSelector(shareIsin, Build(html(GetPageText(attempts).value))))
  {
    var resTxt := GetPageText(attempts);
    if resTxt.Err? {
      return Err(resTxt.error);
    }
    var share := ParsePage(resTxt.value, shareIsin, html);
    r := Ok(share);
  }
}
