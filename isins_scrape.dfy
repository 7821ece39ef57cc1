/** The ISIN listing run of the `scraper` crate: one task per initial letter
    and listing page, each fetching the page and reading its share links,
    and a drain loop that appends the lists as they arrive.

    Concurrency is not modelled: the tasks' results are given in the order
    they complete, which may be any order of the per-task results, and a
    task that panics ends the run with its panic when it arrives. The
    network is the stream of HTTP outcomes of `PageFetch`, and the HTML
    engine gives the page's `a.u-hidden.-xs` anchors. */
module IsinsScrape {
  import opened Common
  import opened Errors
  import opened PageFetch
  import opened Isins

  const LETTERS: nat := 26
  const PAGES: nat := 5

  /** One listing page: an initial letter and a page number. */
  datatype Task = Task(letter: char, page: nat)

  /** A letter from `A` to `Z` and a page from 1 to 5. */
  predicate InGrid(t: Task) {
    'A' <= t.letter <= 'Z' && 1 <= t.page <= PAGES
  }

  /** The `i`-th task pushed by the nested loops. */
  function GridTask(i: nat): Task
    requires i < LETTERS * PAGES
  {
    Task(('A' as int + i / PAGES) as char, i % PAGES + 1)
  }

  /** Every task of the grid is a letter from `A` to `Z` and a page from 1 to 5. */
  lemma GridInGrid(i: nat)
    requires i < LETTERS * PAGES
    ensures InGrid(GridTask(i))
  {
  }

  /** No letter-page pair is pushed twice. */
  lemma GridInjective(i: nat, j: nat)
    requires i < LETTERS * PAGES && j < LETTERS * PAGES
    requires GridTask(i) == GridTask(j)
    ensures i == j
  {
    assert i / PAGES == j / PAGES;
    assert i % PAGES == j % PAGES;
    assert i == PAGES * (i / PAGES) + i % PAGES;
    assert j == PAGES * (j / PAGES) + j % PAGES;
  }

  /** Every letter-page pair is pushed, at position `5 * letter + page - 1`. */
  lemma GridOnto(t: Task)
    requires InGrid(t)
    ensures (t.letter as int - 'A' as int) * PAGES + t.page - 1 < LETTERS * PAGES
    ensures GridTask((t.letter as int - 'A' as int) * PAGES + t.page - 1) == t
  {
    var l := t.letter as int - 'A' as int;
    var i := l * PAGES + t.page - 1;
    assert 0 <= l < LETTERS;
    assert i / PAGES == l && i % PAGES == t.page - 1;
  }

  /** The task loops of `scrape_all_isins`: letters `A` to `Z`, and for each
      the pages 1 to 5. */
  method Tasks() returns (tasks: seq<Task>)
    ensures |tasks| == LETTERS * PAGES
    ensures forall i :: 0 <= i < |tasks| ==> tasks[i] == GridTask(i)
  {
    tasks := [];
    var letter := 'A' as int;
    while letter <= 'Z' as int
      invariant 'A' as int <= letter <= 'Z' as int + 1
      invariant |tasks| == (letter - 'A' as int) * PAGES
      invariant forall i :: 0 <= i < |tasks| ==> tasks[i] == GridTask(i)
    {
      var page := 1;
      while page <= PAGES
        invariant 1 <= page <= PAGES + 1
        invariant |tasks| == (letter - 'A' as int) * PAGES + page - 1
        invariant forall i :: 0 <= i < |tasks| ==> tasks[i] == GridTask(i)
      {
        tasks := tasks + [Task(letter as char, page)];
        page := page + 1;
      }
      letter := letter + 1;
    }
  }

  /** `parse_page`: the ISINs of the anchors for which `from_element` gives
      one, in document order; a panic in `from_element` is passed on. */
  function ParsePage(anchors: seq<Anchor>): (r: Result<seq<ShareIsin>, SlicePanic>)
    ensures r.Ok? <==> forall i :: 0 <= i < |anchors| ==> FromElement(anchors[i]).Ok?
    ensures r.Ok? ==> |r.value| <= |anchors|
  {
    if anchors == [] then Ok([])
    else
      var rest := ParsePage(anchors[1..]);
      match FromElement(anchors[0])
      case Err(p) => Err(p)
      case Ok(None) => rest
      case Ok(Some(x)) => if rest.Err? then rest else Ok([x] + rest.value)
  }

  /** `parse_page` keeps exactly the anchors for which `from_element` gives
      an ISIN: every ISIN kept comes from one, and every one given is kept. */
  lemma {:induction false} ParsePageKeeps(anchors: seq<Anchor>)
    requires ParsePage(anchors).Ok?
    ensures forall x :: x in ParsePage(anchors).value <==> exists i :: 0 <= i < |anchors| && FromElement(anchors[i]) == Ok(Some(x))
    decreases |anchors|
  {
    if anchors != [] {
      ParsePageKeeps(anchors[1..]);
      forall x
        ensures x in ParsePage(anchors).value <==> exists i :: 0 <= i < |anchors| && FromElement(anchors[i]) == Ok(Some(x))
      {
        if x in ParsePage(anchors).value {
          if FromElement(anchors[0]) == Ok(Some(x)) {
          } else {
            assert x in ParsePage(anchors[1..]).value;
            var i :| 0 <= i < |anchors[1..]| && FromElement(anchors[1..][i]) == Ok(Some(x));
            assert FromElement(anchors[i + 1]) == Ok(Some(x));
          }
        }
        if exists i :: 0 <= i < |anchors| && FromElement(anchors[i]) == Ok(Some(x)) {
          var i :| 0 <= i < |anchors| && FromElement(anchors[i]) == Ok(Some(x));
          if i > 0 {
            assert anchors[1..][i - 1] == anchors[i];
          }
        }
      }
    }
  }

  /** `scrape_isins`: `None` when the page cannot be fetched, otherwise the
      ISINs read from it. */
  function ScrapeIsins(attempts: nat -> HttpOutcome, anchorsOf: string -> seq<Anchor>): (r: Result<Option<seq<ShareIsin>>, SlicePanic>)
    ensures GetPageText(attempts).Err? ==> r == Ok(None)
    ensures GetPageText(attempts).Ok? ==> (r.Ok? <==> ParsePage(anchorsOf(GetPageText(attempts).value)).Ok?)
    ensures GetPageText(attempts).Ok? && r.Ok? ==> r.value == Some(ParsePage(anchorsOf(GetPageText(attempts).value)).value)
  {
    match GetPageText(attempts)
    case Err(_) => Ok(None)
    case Ok(resTxt) =>
      match ParsePage(anchorsOf(resTxt))
      case Err(p) => Err(p)
      case Ok(isins) => Ok(Some(isins))
  }

  /** What one task of `scrape_all_isins` ends with: its list, `None`, or
      the panic of `Isin::new` that unwinds out of it. */
  type TaskResult = Result<Option<seq<ShareIsin>>, SlicePanic>

  /** The ISINs a task hands to the drain loop: none unless it gave a list. */
  function Listed(r: TaskResult): seq<ShareIsin> {
    if r.Ok? && r.value.Some? then r.value.value else []
  }

  /** The lists of the tasks that gave one, one after the other. */
  function Concat(rs: seq<TaskResult>): seq<ShareIsin> {
    if rs == [] then []
    else Concat(rs[..|rs| - 1]) + Listed(rs[|rs| - 1])
  }

  /** Every ISIN of every list, as many times as the lists hold it. */
  function Bag(rs: seq<TaskResult>): multiset<ShareIsin> {
    if rs == [] then multiset{}
    else Bag(rs[..|rs| - 1]) + multiset(Listed(rs[|rs| - 1]))
  }

  /** Some task panics. */
  predicate Panics(rs: seq<TaskResult>) {
    exists i :: 0 <= i < |rs| && rs[i].Err?
  }

  /** The results of all tasks, in the order they were pushed: task `i`
      makes its own requests, `attempts(GridTask(i))`. */
  function TaskResults(attempts: Task -> nat -> HttpOutcome, anchorsOf: string -> seq<Anchor>): (r: seq<TaskResult>)
    ensures |r| == LETTERS * PAGES
    ensures forall i :: 0 <= i < |r| ==> r[i] == ScrapeIsins(attempts(GridTask(i)), anchorsOf)
  {
    seq(LETTERS * PAGES, i requires 0 <= i < LETTERS * PAGES => ScrapeIsins(attempts(GridTask(i)), anchorsOf))
  }

  /** `scrape_all_isins`: the 130 tasks are pushed, then every list that
      arrives is appended and every `None` skipped; nothing is removed. A
      task that panics unwinds through `tasks.next().await`, so the run
      ends with that panic and returns no list. */
  method ScrapeAllIsins(attempts: Task -> nat -> HttpOutcome, anchorsOf: string -> seq<Anchor>, arrivals: seq<TaskResult>)
    returns (r: Result<seq<ShareIsin>, SlicePanic>)
    requires multiset(arrivals) == multiset(TaskResults(attempts, anchorsOf))
    ensures r.Err? <==> Panics(TaskResults(attempts, anchorsOf))
    ensures r.Err? ==> exists i :: 0 <= i < LETTERS * PAGES && ScrapeIsins(attempts(GridTask(i)), anchorsOf) == Err(r.error)
    ensures r.Err? ==> exists j :: 0 <= j < |arrivals| && arrivals[j] == Err(r.error) && !Panics(arrivals[..j])
    ensures r.Ok? ==> r.value == Concat(arrivals)
    ensures r.Ok? ==> multiset(r.value) == Bag(TaskResults(attempts, anchorsOf))
    ensures r.Ok? ==> |r.value| == |Bag(TaskResults(attempts, anchorsOf))|
  {
    var tasks := Tasks();
    PushedTasks(tasks, attempts, anchorsOf);
    ghost var results := TaskResults(attempts, anchorsOf);
    r := Drain(arrivals);
    SamePanics(arrivals, results);
    if r.Err? {
      ghost var j :| 0 <= j < |arrivals| && arrivals[j] == Err(r.error);
      PanicArrived(arrivals, results, j);
      ghost var i :| 0 <= i < |results| && results[i] == Err(r.error);
    } else {
      ConcatBag(arrivals);
      BagPermutation(arrivals, results);
    }
  }

  /** The results drained are those of the tasks the loops push. */
  lemma PushedTasks(tasks: seq<Task>, attempts: Task -> nat -> HttpOutcome, anchorsOf: string -> seq<Anchor>)
    requires |tasks| == LETTERS * PAGES && forall i :: 0 <= i < |tasks| ==> tasks[i] == GridTask(i)
    ensures |TaskResults(attempts, anchorsOf)| == |tasks|
    ensures forall i :: 0 <= i < |tasks| ==> TaskResults(attempts, anchorsOf)[i] == ScrapeIsins(attempts(tasks[i]), anchorsOf)
  {
  }

  /** The `while let` loop of `scrape_all_isins` over the results in the
      order they arrive: lists are appended, `None` is skipped, and the
      first panic to arrive ends the run. */
  method Drain(arrivals: seq<TaskResult>) returns (r: Result<seq<ShareIsin>, SlicePanic>)
    ensures r.Err? <==> Panics(arrivals)
    ensures r.Err? ==> exists j :: 0 <= j < |arrivals| && arrivals[j] == Err(r.error) && !Panics(arrivals[..j])
    ensures r.Ok? ==> r.value == Concat(arrivals)
  {
    var res := [];
    var k := 0;
    while k < |arrivals|
      invariant 0 <= k <= |arrivals|
      invariant res == Concat(arrivals[..k])
      invariant forall j :: 0 <= j < k ==> arrivals[j].Ok?
    {
      ConcatStep(arrivals, k);
      match arrivals[k] {
        case Err(p) =>
          assert forall j :: 0 <= j < |arrivals[..k]| ==> arrivals[..k][j].Ok?;
          return Err(p);
        case Ok(Some(isins)) => res := res + isins;
        case Ok(None) =>
      }
      k := k + 1;
    }
    assert arrivals[..k] == arrivals;
    r := Ok(res);
  }

  /** Draining one more result appends its list. */
  lemma ConcatStep(rs: seq<TaskResult>, k: nat)
    requires k < |rs|
    ensures Concat(rs[..k + 1]) == Concat(rs[..k]) + Listed(rs[k])
  {
    assert rs[..k + 1][..k] == rs[..k];
  }

  /** A result that arrives is the result of one of the tasks. */
  lemma PanicArrived(arrivals: seq<TaskResult>, results: seq<TaskResult>, k: nat)
    requires multiset(arrivals) == multiset(results)
    requires k < |arrivals|
    ensures exists i :: 0 <= i < |results| && results[i] == arrivals[k]
  {
    assert arrivals[k] in multiset(results);
  }

  /** Some order of the tasks' results holds a panic exactly when the
      results do. */
  lemma SamePanics(arrivals: seq<TaskResult>, results: seq<TaskResult>)
    requires multiset(arrivals) == multiset(results)
    ensures Panics(arrivals) <==> Panics(results)
  {
    if Panics(arrivals) {
      var j :| 0 <= j < |arrivals| && arrivals[j].Err?;
      assert arrivals[j] in multiset(results);
    }
    if Panics(results) {
      var i :| 0 <= i < |results| && results[i].Err?;
      assert results[i] in multiset(arrivals);
    }
  }

  lemma {:induction false} ConcatBag(rs: seq<TaskResult>)
    ensures multiset(Concat(rs)) == Bag(rs)
    decreases |rs|
  {
    if rs != [] {
      ConcatBag(rs[..|rs| - 1]);
    }
  }

  lemma {:induction false} BagAppend(a: seq<TaskResult>, b: seq<TaskResult>)
    ensures Bag(a + b) == Bag(a) + Bag(b)
    decreases |b|
  {
    if b != [] {
      var c := b[..|b| - 1];
      assert (a + b)[..|a + b| - 1] == a + c;
      BagAppend(a, c);
    } else {
      assert a + b == a;
    }
  }

  /** The collected ISINs do not depend on the order the tasks finish in. */
  lemma {:induction false} BagPermutation(xs: seq<TaskResult>, ys: seq<TaskResult>)
    requires multiset(xs) == multiset(ys)
    ensures Bag(xs) == Bag(ys)
    decreases |xs|
  {
    if xs == [] {
      assert |multiset(ys)| == 0;
    } else {
      var x := xs[|xs| - 1];
      var pre := xs[..|xs| - 1];
      assert multiset(xs) == multiset(pre) + multiset{x} by {
        assert xs == pre + [x];
      }
      assert x in multiset(ys);
      var j :| 0 <= j < |ys| && ys[j] == x;
      var rest := ys[..j] + ys[j + 1..];
      RemoveAt(ys, j);
      assert multiset(pre) == multiset(rest) by {
        assert multiset(pre) + multiset{x} == multiset(rest) + multiset{x};
        assert multiset(pre) == (multiset(pre) + multiset{x}) - multiset{x};
        assert multiset(rest) == (multiset(rest) + multiset{x}) - multiset{x};
      }
      BagPermutation(pre, rest);
      BagRemoveAt(ys, j);
    }
  }

  /** Taking element `j` out of `ys` leaves the rest of its multiset. */
  lemma RemoveAt<T>(ys: seq<T>, j: nat)
    requires j < |ys|
    ensures multiset(ys) == multiset(ys[..j] + ys[j + 1..]) + multiset{ys[j]}
  {
    Around(ys, j);
  }

  /** A sequence is what comes before `j`, element `j`, and what follows. */
  lemma Around<T>(ys: seq<T>, j: nat)
    requires j < |ys|
    ensures ys == ys[..j] + [ys[j]] + ys[j + 1..]
  {
  }

  /** Taking task result `j` out of `ys` takes its ISINs out of the bag. */
  lemma BagRemoveAt(ys: seq<TaskResult>, j: nat)
    requires j < |ys|
    ensures Bag(ys) == Bag(ys[..j] + ys[j + 1..]) + multiset(Listed(ys[j]))
  {
    Around(ys, j);
    BagMiddle(ys[..j], ys[j], ys[j + 1..]);
  }

  lemma BagMiddle(p: seq<TaskResult>, y: TaskResult, q: seq<TaskResult>)
    ensures Bag(p + [y] + q) == Bag(p + q) + multiset(Listed(y))
  {
    var m := multiset(Listed(y));
    assert Bag(p + [y]) == Bag(p) + m by {
      assert (p + [y])[..|p|] == p;
    }
    assert Bag(p + [y] + q) == Bag(p) + m + Bag(q) by {
      BagAppend(p + [y], q);
    }
    assert Bag(p + q) == Bag(p) + Bag(q) by {
      BagAppend(p, q);
    }
  }

  /** No deduplication: an ISIN listed by two tasks is collected twice. */
  lemma NoDeduplication(a: TaskResult, b: TaskResult, x: ShareIsin)
    requires a == Ok(Some([x])) && b == Ok(Some([x]))
    ensures Bag([a, b])[x] == 2
  {
    assert [a, b][..1] == [a];
    assert [a][..0] == [];
    assert Bag([a]) == multiset([x]);
  }
}
